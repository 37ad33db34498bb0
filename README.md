# Project store service of the remote-telescope projects API

This is a Dafny model of the projects API handlers (`handler.py`). A project
is an observation request. It has a list of exposure requests, and for each
of them it records the filenames captured so far (`project_data`) and the
number of images still needed (`remaining`). It also lists the calendar
events it is scheduled with. The DynamoDB projects table is modelled as the
field `table: map<Key, Project>` of the class `Service.ProjectService`,
keyed by `(project_name, created_at)`. `Valid()` says that every record is
stored under its own key.

Modules:

- `ProjectTypes`: the data model. `Exposure` keeps `count` (the one
  attribute the code reads) next to a map of all other attributes. Datatype
  equality compares every attribute as an exact canonical value; see
  "## Left out" for where this differs from the source's comparison. `Project` is the stored record. `ProjectChanges` is the change
  set of a modify. There are also the handler responses.
- `Reconciliation`: the core of `modify_project`. `FirstMatch` finds the
  first old exposure equal to a new one. `ProgressFor` and `ApplyChanges`
  specify the updated record. `ReconcileProgress` is the nested `for`/`break`
  loop, proved against that specification. Lemmas give the properties of
  reconciliation: first match wins, unmatched exposures reset, a changed
  count resets, equal new exposures share progress, unchanged distinct
  exposures keep progress, and the captured-plus-remaining accounting is
  preserved.
- `Progress`: `RecordCapture` is the `addProjectData` update: it appends
  the filename and decrements `remaining` with no floor.
- `Events`: `WithEvent` is the de-duplicating append of `addProjectEvent`.
- `Authorization`: the admin flag as the string `"true"`/`"false"`, the
  notification gate and the store-side delete condition.
- `Requests`: the ordered required-key check and the concatenation of scan
  pages (`getAllProjects`).
- `Service`: the handlers as methods of `ProjectService` that change
  `table`.

Behaviour of the code that the model keeps on purpose:

- The notification gate in `deleteProject` (handler.py:449) tests the admin
  flag as a Python string. Both `"true"` and `"false"` are non-empty, so the
  gate is always open. The comment above it (handler.py:448) says
  unauthorised callers should not trigger the calendar clean-up. The code
  does trigger it, and so does the model: `DeleteProject` always reports the
  events as notified, and `RefusedRequesterPassesGate` shows a caller who is
  refused the delete yet passes the gate.
- `modify_project` copies `project_name` from the change set, so a rename
  moves the record to a new key. It does not copy `project_priority`, so the
  old priority survives.
- Three more points where the code is easy to misread. Identity fields
  can change, because a modify may rename. An out-of-range exposure index in
  `addProjectData` is not an error result but an uncaught `IndexError`,
  stated here as a precondition. A missing record in `addProjectEvent`,
  `addProjectData` or `deleteProject` is an uncaught `KeyError`, also a
  precondition.

## Model

| member | source | states |
|---|---|---|
| `Reconciliation.FirstMatch` | handler.py:120-124 | the index returned holds an equal old exposure and no smaller index does; none is returned exactly when no old exposure is equal |
| `Reconciliation.FirstMatchIs` | handler.py:120-124 | an index holding an equal exposure, with no equal one before it, is the one matched |
| `Reconciliation.AlignedMatchesInRange` | handler.py:120-123 | a record whose three arrays are aligned never makes the search read past its arrays, whatever the new exposures |
| `Reconciliation.ShortArraysStillModify` | handler.py:119-129 | a record with exposures `[a, b]` but one progress slot is still modified when the new list is `[a]`, and keeps `[["x"]]`/`[5]` |
| `Reconciliation.ApplyChanges` | handler.py:94-129 | the updated record copies the six change fields including the name, keeps the old owner, creation time and priority, takes the new exposures, and has aligned arrays whose every slot is the first-match progress or a fresh start |
| `Reconciliation.ReconcileProgress` | handler.py:112-124 | the nested search returns one data slot and one remaining slot per new exposure, each equal to the progress of the first equal old exposure, or `[]` and the requested count when none is equal |
| `Reconciliation.CarriesFirstEqual` | handler.py:119-124 | a new exposure equal to an old one takes `project_data` and `remaining` from the smallest such old index |
| `Reconciliation.ResetsUnmatched` | handler.py:113-114 | a new exposure equal to no old one gets `[]` and its own count |
| `Reconciliation.CountChangeResets` | handler.py:107-114 | an exposure whose count differs from every old exposure with the same settings starts from scratch |
| `Reconciliation.EqualNewExposuresShare` | handler.py:119-124 | two equal new exposures take the same old progress |
| `Reconciliation.UnchangedExposuresKeepProgress` | handler.py:119-124 | resubmitting pairwise distinct exposures unchanged keeps `project_data` and `remaining` index for index |
| `Reconciliation.DuplicateTakesFirstProgress` | handler.py:120-124 | with two equal old exposures, both slots get the progress of the first one |
| `Reconciliation.ReconcileKeepsAccounting` | handler.py:107-128 | if captured plus remaining equals the count for each old exposure, the same holds after reconciliation |
| `Reconciliation.RFilterScenario` | handler.py:112-129 | an unchanged R-filter exposure keeps `[["a.fits"]]`/`[9]`; changing its count to 5 gives `[[]]`/`[5]` |
| `Service.ProjectService.ModifyProject` | handler.py:62-145 | a missing key fails with the not-found description and leaves the table unchanged; otherwise the old key is deleted and `ApplyChanges` of the old record is put under the new name and the old creation time |
| `Service.ProjectService.GetProject` | handler.py:149-167 | a record is found exactly when the key is in the table, and it carries the requested name and creation time |
| `Service.ProjectService.GetProjectResponse` | handler.py:221-237 | status 200 with the record exactly when the key is present, otherwise 404 "Project not found." |
| `Service.ProjectService.AddNewProject` | handler.py:173-205 | it answers 400 naming the first missing key in the order project_name, user_id, created_at, without touching the table; otherwise it puts the item under its key, replacing any existing record, and answers 200 |
| `Requests.FirstMissingKey` | handler.py:181-194 | returns nothing exactly when every required key is present, and otherwise the first required key in order that is missing |
| `Service.ProjectService.GetUserProjects` | handler.py:260-290 | 400 when `user_id` is missing; otherwise 200 with exactly the stored records owned by that user |
| `Requests.GetAllProjects` | handler.py:239-257 | the result is the concatenation of the scan pages in order (see `ConcatMembership` for what it holds) |
| `Requests.ConcatAppend` | handler.py:253-255 | extending by one more page appends that page's items at the end |
| `Requests.ConcatMembership` | handler.py:250-255 | a record is in the concatenation exactly when some page holds it |
| `Requests.ConcatLength` | handler.py:250-255 | the concatenation is as long as the pages together |
| `Service.ProjectService.AddProjectEvent` | handler.py:293-345 | an already associated event leaves the table as it is; otherwise the event is appended to that record's event list and nothing else changes |
| `Events.WithEvent` | handler.py:324-332 | the result contains the event, starts with the old list, is at most one longer, and adds nothing but the event |
| `Events.WithEventKnown` | handler.py:326-328 | a known event leaves the list unchanged |
| `Events.WithEventIdempotent` | handler.py:326-332 | associating an event twice equals associating it once |
| `Events.WithEventKeepsNoDuplicates` | handler.py:326-332 | a duplicate-free event list stays duplicate-free |
| `Events.WithEventAsSet` | handler.py:326-332 | as a set, the list gains exactly the event |
| `Service.ProjectService.AddProjectData` | handler.py:348-411 | writes back the record with `RecordCapture` applied at the exposure index and answers 200 |
| `Progress.RecordCapture` | handler.py:381-398 | the filename is appended to `project_data[k]` and `remaining[k]` drops by one; other indices, other fields and the array lengths are unchanged |
| `Progress.RecordCaptureKeepsAccounting` | handler.py:385-386 | a capture keeps the arrays aligned and captured plus remaining equal to the count |
| `Progress.RecordCaptureGoesNegative` | handler.py:386 | a capture with nothing remaining leaves `remaining` at -1 |
| `Authorization.AdminFlag` | handler.py:428-431 | the flag is `"true"` exactly when `admin` is among the roles, and `"false"` otherwise |
| `Authorization.DeleteAllowedIffAdminOrOwner` | handler.py:462-467 | the store-side delete condition holds exactly for admins and for the owner |
| `Authorization.NotifyGateAlwaysOpen` | handler.py:448-452 | the notification gate holds for every caller, because both flag strings are truthy |
| `Authorization.RefusedRequesterPassesGate` | handler.py:448-473 | a non-admin non-owner is refused the delete and still passes the notification gate |
| `Service.ProjectService.DeleteProject` | handler.py:414-478 | the calendar is always sent the record's events; the record is removed with 200 exactly for an admin or the owner, otherwise 403 "You may only delete your own projects." and the table is unchanged |

## Left out

- The DynamoDB client calls (`get_item`, `put_item`, `update_item`, `delete_item`, `scan`, `query`) are replaced by the in-memory map. Scan pagination is given as the sequence of pages the scan returns.
- Calendar notification (`removeProjectFromCalendarEvents`, the stage and URL selection, the HTTP post) is network I/O. `DeleteProject` only returns the list of event ids it would send.
- `DecimalEncoder` and the JSON/Decimal round trips of `modify_project` and `addNewProject` are left out. Numbers are unbounded integers, and integral values stay integers. `int(...)` on a stored `remaining` value is the identity here.
- `create_response`, the CORS headers, the `print` logging and JSON parsing of request bodies are left out. A request body is given as its set of top-level keys plus its decoded values. `modify_project_handler`, which wraps the outcome in a 200 response, is not modelled.
- Concurrency is left out: the non-atomic delete-then-put of a modify and the read-modify-write of `addProjectData` and `addProjectEvent` are modelled sequentially. Lost updates are not expressed.
- Uncaught `KeyError` and `IndexError` paths are preconditions. These are a missing record in `addProjectEvent`, `addProjectData` and `deleteProject`, and an exposure index outside the arrays in `addProjectData`. Python's negative-index wrap-around is excluded by `0 <= exposureIndex`. `modify_project` reads the old `project_data` and `remaining` only at the first matching old index (handler.py:122-123), so `ModifyProject` requires `MatchesInRange`: for every new exposure whose first match is old index `j`, `j` lies inside both old arrays. That is exactly the case in which the source raises no `IndexError`.
- Exposure equality: attribute values are compared as exact canonical values. The source compares a new exposure parsed from the request JSON (fractional numbers as floats) with an old one read from the store (numbers as Decimals). In Python `Decimal('0.1') == 0.1` is false, so in the source an exposure resubmitted unchanged with a non-dyadic fractional attribute never matches and its progress resets. The model does not capture that float/Decimal comparison. In the other direction, two `Opaque` strings can differ where the Python values are equal (`10` against `10.0`, the same keys in another order).  `UnchangedExposuresKeepProgress` holds for exposures whose attribute values compare equal.
- Service.ProjectService.AddProjectData: the 500 branch (handler.py:408-411) is not modelled, because the in-memory table always acknowledges an update.
- Service.ProjectService.DeleteProject: store errors other than a failed condition (handler.py:474) are not modelled. The success body is the store's acknowledgment, shown as `Acknowledged`.
- Service.ProjectService.ModifyProject: the `updated_project` entry of the result (the store's put response, or `[]`) is not modelled.
- Service.ProjectService.AddNewProject: a body that lacks other attributes (for example `exposures`) is not modelled, because every record carries all fields. The success body shows the new record and not the store's put response.
- Service.ProjectService.GetUserProjects: the owner index returns its records ordered by creation time, and the code reads only the first page of the query. The model returns the set of the user's records.
- The `__main__` demo blocks are left out. examples.py is not part of this model.
