/**
 The data model of the project store: a project record, the exposure requests
 it carries, the change set a modify request supplies, and the responses the
 handlers return.
 */
module ProjectTypes {

  datatype Option<T> = None | Some(value: T)

  /** An attribute the service copies verbatim and never interprets
      (it stands for the serialized JSON value of that attribute). */
  type Opaque = string

  /** One exposure request. `count` is the only attribute the service reads;
      `settings` holds every other attribute (filter, exposure time, ...),
      each as an exact canonical value. Datatype equality compares both. */
  datatype Exposure = Exposure(settings: map<string, Opaque>, count: int)

  /** A project record as the table stores it. */
  datatype Project = Project(
    projectName: string,
    createdAt: string,
    userId: string,
    projectConstraints: Opaque,
    projectNote: Opaque,
    projectTargets: Opaque,
    projectSites: Opaque,
    projectPriority: Opaque,
    exposures: seq<Exposure>,
    projectData: seq<seq<string>>,
    remaining: seq<int>,
    scheduledWithEvents: seq<string>)

  /** The fields a modify request supplies. */
  datatype ProjectChanges = ProjectChanges(
    projectConstraints: Opaque,
    projectName: string,
    projectNote: Opaque,
    projectTargets: Opaque,
    projectSites: Opaque,
    projectPriority: Opaque,
    scheduledWithEvents: seq<string>,
    exposures: seq<Exposure>)

  /** The table's primary key: (project_name, created_at). */
  type Key = (string, string)

  function KeyOf(p: Project): (k: Key)
  {
    (p.projectName, p.createdAt)
  }

  /** The three per-exposure arrays have one slot per exposure request. */
  predicate Aligned(p: Project)
  {
    |p.projectData| == |p.exposures| && |p.remaining| == |p.exposures|
  }

  /** For every exposure, the images captured plus the images still needed
      add up to the requested count. */
  predicate Accounted(p: Project)
    requires Aligned(p)
  {
    forall i :: 0 <= i < |p.exposures| ==> |p.projectData[i]| + p.remaining[i] == p.exposures[i].count
  }

  predicate NoDuplicates<T(==)>(s: seq<T>)
  {
    forall i, j :: 0 <= i < j < |s| ==> s[i] != s[j]
  }

  /** What a handler puts in the body of its response. */
  datatype Body =
    | Message(text: string)
    | Record(project: Project)
    | Records(projects: seq<Project>)
    | RecordSet(members: set<Project>)
    | Acknowledged

  datatype Response = Response(statusCode: int, body: Body)

  /** The result of the modify operation. */
  datatype ModifyOutcome = ModifyOutcome(isSuccessful: bool, description: string)
}
