/**
 The project store service: the handlers of the projects API over the
 projects table, here an in-memory map from (project_name, created_at) to
 the stored record.
 */
module Service {
  import opened ProjectTypes
  import opened Reconciliation
  import opened Progress
  import opened Events
  import opened Authorization
  import opened Requests

  class ProjectService {
    /** The projects table. */
    var table: map<Key, Project>

    /** Every record is stored under its own (project_name, created_at). */
    ghost predicate Valid()
      reads this
    {
      forall k :: k in table ==> KeyOf(table[k]) == k
    }

    constructor ()
      ensures Valid() && table == map[]
    {
      table := map[];
    }

    /** get_project: a point lookup by primary key. */
    function GetProject(projectName: string, createdAt: string): (r: Option<Project>)
      reads this
      requires Valid()
      ensures r.Some? <==> (projectName, createdAt) in table
      ensures r.Some? ==> r.value == table[(projectName, createdAt)]
      ensures r.Some? ==> r.value.projectName == projectName && r.value.createdAt == createdAt
    {
      if (projectName, createdAt) in table then Some(table[(projectName, createdAt)]) else None
    }

    /** get_project_handler: the record with status 200, or 404. */
    function GetProjectResponse(projectName: string, createdAt: string): (resp: Response)
      reads this
      requires Valid()
      ensures resp.statusCode == 200 <==> (projectName, createdAt) in table
      ensures resp.statusCode == 200 ==> resp.body == Record(table[(projectName, createdAt)])
      ensures resp.statusCode != 200 ==> resp == Response(404, Message("Project not found."))
    {
      match GetProject(projectName, createdAt)
      case Some(p) => Response(200, Record(p))
      case None => Response(404, Message("Project not found."))
    }

    /** modify_project: replace the fields of an existing project, reconcile
        its exposure progress, delete the old item and put the new one. */
    method ModifyProject(projectName: string, createdAt: string, changes: ProjectChanges)
      returns (outcome: ModifyOutcome)
      requires Valid()
      requires (projectName, createdAt) in table ==> MatchesInRange(table[(projectName, createdAt)], changes.exposures)
      modifies this
      ensures Valid()
      ensures outcome.isSuccessful <==> (projectName, createdAt) in old(table)
      ensures !outcome.isSuccessful ==>
                table == old(table) && outcome.description == "The requested project does not exist."
      ensures outcome.isSuccessful ==>
                outcome.description == "Project has been updated." &&
                table == (old(table) - {(projectName, createdAt)})[(changes.projectName, createdAt) :=
                           ApplyChanges(old(table)[(projectName, createdAt)], changes)]
      ensures outcome.isSuccessful && changes.projectName != projectName ==>
                (projectName, createdAt) !in table
    {
      var oldProject := GetProject(projectName, createdAt);
      if oldProject.None? {
        return ModifyOutcome(false, "The requested project does not exist.");
      }
      var updated := oldProject.value;
      updated := updated.(projectConstraints := changes.projectConstraints);
      updated := updated.(projectName := changes.projectName);
      updated := updated.(projectNote := changes.projectNote);
      updated := updated.(projectTargets := changes.projectTargets);
      updated := updated.(projectSites := changes.projectSites);
      updated := updated.(scheduledWithEvents := changes.scheduledWithEvents);
      var data, rem := ReconcileProgress(oldProject.value, changes.exposures);
      updated := updated.(projectData := data);
      updated := updated.(remaining := rem);
      updated := updated.(exposures := changes.exposures);
      assert updated == ApplyChanges(oldProject.value, changes);
      table := table - {(projectName, createdAt)};
      table := table[KeyOf(updated) := updated];
      return ModifyOutcome(true, "Project has been updated.");
    }

    /** addNewProject: check the required keys in order, then put the item,
        silently overwriting any record with the same key. */
    method AddNewProject(bodyKeys: set<string>, item: Project) returns (resp: Response)
      requires Valid()
      modifies this
      ensures Valid()
      ensures "project_name" !in bodyKeys ==>
                resp == Response(400, Message(MissingKeyMessage("project_name")))
      ensures "project_name" in bodyKeys && "user_id" !in bodyKeys ==>
                resp == Response(400, Message(MissingKeyMessage("user_id")))
      ensures "project_name" in bodyKeys && "user_id" in bodyKeys && "created_at" !in bodyKeys ==>
                resp == Response(400, Message(MissingKeyMessage("created_at")))
      ensures resp.statusCode == 400 ==> table == old(table)
      ensures "project_name" in bodyKeys && "user_id" in bodyKeys && "created_at" in bodyKeys ==>
                resp == Response(200, Record(item)) && table == old(table)[KeyOf(item) := item]
    {
      var missing := FirstMissingKey(RequiredProjectKeys, bodyKeys);
      if missing.Some? {
        ghost var i :| 0 <= i < |RequiredProjectKeys| && RequiredProjectKeys[i] == missing.value &&
                       forall j :: 0 <= j < i ==> RequiredProjectKeys[j] in bodyKeys;
        assert i >= 1 ==> RequiredProjectKeys[0] in bodyKeys;
        assert i >= 2 ==> RequiredProjectKeys[1] in bodyKeys;
        return Response(400, Message(MissingKeyMessage(missing.value)));
      }
      assert RequiredProjectKeys[0] in bodyKeys && RequiredProjectKeys[1] in bodyKeys
          && RequiredProjectKeys[2] in bodyKeys;
      table := table[KeyOf(item) := item];
      return Response(200, Record(item));
    }

    /** getUserProjects: check for user_id, then query the owner index. */
    method GetUserProjects(bodyKeys: set<string>, userId: string) returns (resp: Response)
      requires Valid()
      ensures "user_id" !in bodyKeys ==> resp == Response(400, Message(MissingKeyMessage("user_id")))
      ensures "user_id" in bodyKeys ==> resp.statusCode == 200 && resp.body.RecordSet?
      ensures resp.body.RecordSet? ==>
                forall p :: p in resp.body.members <==> p in table.Values && p.userId == userId
    {
      var missing := FirstMissingKey(RequiredUserKeys, bodyKeys);
      if missing.Some? {
        return Response(400, Message(MissingKeyMessage(missing.value)));
      }
      assert RequiredUserKeys[0] in bodyKeys;
      var owned := set p | p in table.Values && p.userId == userId;
      return Response(200, RecordSet(owned));
    }

    /** addProjectEvent: append the calendar event unless it is already
        associated, and write back only the event list. */
    method AddProjectEvent(projectName: string, createdAt: string, eventId: string)
      returns (resp: Response)
      requires Valid() && (projectName, createdAt) in table
      modifies this
      ensures Valid()
      ensures eventId in old(table)[(projectName, createdAt)].scheduledWithEvents ==>
                table == old(table) &&
                resp == Response(200, Message("Event already associated with this project"))
      ensures eventId !in old(table)[(projectName, createdAt)].scheduledWithEvents ==>
                resp == Response(200, Message("Successfully associated event with project."))
      ensures table == old(table)[(projectName, createdAt) :=
                old(table)[(projectName, createdAt)].(scheduledWithEvents :=
                  WithEvent(old(table)[(projectName, createdAt)].scheduledWithEvents, eventId))]
    {
      var key := (projectName, createdAt);
      var eventsList := table[key].scheduledWithEvents;
      if eventId in eventsList {
        assert table[key].(scheduledWithEvents := eventsList) == table[key];
        return Response(200, Message("Event already associated with this project"));
      }
      eventsList := eventsList + [eventId];
      table := table[key := table[key].(scheduledWithEvents := eventsList)];
      return Response(200, Message("Successfully associated event with project."));
    }

    /** addProjectData: append the captured filename to the exposure's list,
        decrement its remaining count, and write back both arrays. */
    method AddProjectData(projectName: string, createdAt: string, exposureIndex: int, baseFilename: string)
      returns (resp: Response)
      requires Valid() && (projectName, createdAt) in table
      requires 0 <= exposureIndex < |table[(projectName, createdAt)].projectData|
      requires exposureIndex < |table[(projectName, createdAt)].remaining|
      modifies this
      ensures Valid()
      ensures table == old(table)[(projectName, createdAt) :=
                RecordCapture(old(table)[(projectName, createdAt)], exposureIndex, baseFilename)]
      ensures resp == Response(200, Message("{\"message\": \"success\"}"))
    {
      var key := (projectName, createdAt);
      var projectData := table[key].projectData;
      var remaining := table[key].remaining;
      projectData := projectData[exposureIndex := projectData[exposureIndex] + [baseFilename]];
      remaining := remaining[exposureIndex := remaining[exposureIndex] - 1];
      table := table[key := table[key].(projectData := projectData, remaining := remaining)];
      return Response(200, Message("{\"message\": \"success\"}"));
    }

    /** deleteProject: notify the calendar behind the loose gate, then delete
        under the store-side condition "admin or owner". `notified` holds the
        event ids sent to the calendar, if any were sent. */
    method DeleteProject(projectName: string, createdAt: string, requester: string, roles: seq<string>)
      returns (resp: Response, notified: Option<seq<string>>)
      requires Valid() && (projectName, createdAt) in table
      modifies this
      ensures Valid()
      ensures notified == Some(old(table)[(projectName, createdAt)].scheduledWithEvents)
      ensures "admin" in roles || requester == old(table)[(projectName, createdAt)].userId ==>
                table == old(table) - {(projectName, createdAt)} && resp == Response(200, Acknowledged)
      ensures !("admin" in roles || requester == old(table)[(projectName, createdAt)].userId) ==>
                table == old(table) && resp == Response(403, Message("You may only delete your own projects."))
    {
      var requesterIsAdmin := AdminFlag(roles);
      var key := (projectName, createdAt);
      var associatedEvents := table[key].scheduledWithEvents;
      notified := None;
      NotifyGateAlwaysOpen(roles, requester, table[key].userId);
      if NotifyGate(requesterIsAdmin, requester, table[key].userId) {
        notified := Some(associatedEvents);
      }
      DeleteAllowedIffAdminOrOwner(roles, requester, table[key].userId);
      if DeleteCondition(requesterIsAdmin, requester, table[key].userId) {
        table := table - {key};
        resp := Response(200, Acknowledged);
      } else {
        resp := Response(403, Message("You may only delete your own projects."));
      }
    }
  }
}
