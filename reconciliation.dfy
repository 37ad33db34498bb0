/**
 Reconciliation of per-exposure progress when a project's exposure list is
 replaced: each new exposure request takes over the captured filenames and
 the remaining count of the first old request that is equal to it in every
 attribute (count included); a new request with no equal old one starts
 from scratch.
 */
module Reconciliation {
  import opened ProjectTypes

  /** The index of the first old exposure equal to `e`, if any. */
  function FirstMatch(olds: seq<Exposure>, e: Exposure): (r: Option<nat>)
    ensures r.None? <==> e !in olds
    ensures r.Some? ==> r.value < |olds| && olds[r.value] == e
    ensures r.Some? ==> forall k :: 0 <= k < r.value ==> olds[k] != e
  {
    if |olds| == 0 then None
    else if olds[0] == e then Some(0)
    else
      match FirstMatch(olds[1..], e)
      case None => None
      case Some(j) => Some(j + 1)
  }

  /** FirstMatch is the smallest index holding an equal exposure. */
  lemma FirstMatchIs(olds: seq<Exposure>, e: Exposure, j: nat)
    requires j < |olds| && olds[j] == e
    requires forall k :: 0 <= k < j ==> olds[k] != e
    ensures FirstMatch(olds, e) == Some(j)
  {
    assert e in olds;
  }

  /** Reading the old progress for `e` stays inside the old arrays: the
      only old index the search reads them at is the first match. */
  predicate MatchInRange(p: Project, e: Exposure)
  {
    match FirstMatch(p.exposures, e)
    case Some(j) => j < |p.projectData| && j < |p.remaining|
    case None => true
  }

  /** No new exposure makes the search read past the old arrays. */
  predicate MatchesInRange(p: Project, news: seq<Exposure>)
  {
    forall i :: 0 <= i < |news| ==> MatchInRange(p, news[i])
  }

  /** Aligned records satisfy the read condition for every new list. */
  lemma AlignedMatchesInRange(p: Project, news: seq<Exposure>)
    requires Aligned(p)
    ensures MatchesInRange(p, news)
  {
  }

  /** The progress (filenames, remaining) a new exposure `e` starts with,
      taken from the record `p` it replaces. */
  function ProgressFor(p: Project, e: Exposure): (r: (seq<string>, int))
    requires MatchInRange(p, e)
  {
    match FirstMatch(p.exposures, e)
    case Some(j) => (p.projectData[j], p.remaining[j])
    case None => ([], e.count)
  }

  /** The record a successful modify writes: the six copied fields come from
      the change set, the exposure list is replaced and its progress
      reconciled, and everything else (owner, creation time, priority) is
      the old record's. */
  function ApplyChanges(p: Project, c: ProjectChanges): (u: Project)
    requires MatchesInRange(p, c.exposures)
    ensures Aligned(u) && u.exposures == c.exposures
    ensures u.userId == p.userId && u.createdAt == p.createdAt
    ensures u.projectPriority == p.projectPriority
    ensures u.projectName == c.projectName && u.projectConstraints == c.projectConstraints
    ensures u.projectNote == c.projectNote && u.projectTargets == c.projectTargets
    ensures u.projectSites == c.projectSites && u.scheduledWithEvents == c.scheduledWithEvents
    ensures forall i :: 0 <= i < |c.exposures| ==>
              (u.projectData[i], u.remaining[i]) == ProgressFor(p, c.exposures[i])
  {
    var n := |c.exposures|;
    p.(projectConstraints := c.projectConstraints,
       projectName := c.projectName,
       projectNote := c.projectNote,
       projectTargets := c.projectTargets,
       projectSites := c.projectSites,
       scheduledWithEvents := c.scheduledWithEvents,
       projectData := seq(n, i requires 0 <= i < n => ProgressFor(p, c.exposures[i]).0),
       remaining := seq(n, i requires 0 <= i < n => ProgressFor(p, c.exposures[i]).1),
       exposures := c.exposures)
  }

  /** The nested search of modify_project: fresh arrays defaulting to an
      empty filename list and the requested count, then, for each new
      exposure, a scan of the old exposures that copies the progress of the
      first equal one and stops. */
  method ReconcileProgress(previous: Project, news: seq<Exposure>)
    returns (data: seq<seq<string>>, rem: seq<int>)
    requires MatchesInRange(previous, news)
    ensures |data| == |news| && |rem| == |news|
    ensures forall i :: 0 <= i < |news| ==> (data[i], rem[i]) == ProgressFor(previous, news[i])
  {
    var olds := previous.exposures;
    data := seq(|news|, _ => []);
    rem := seq(|news|, i requires 0 <= i < |news| => news[i].count);
    var i := 0;
    while i < |news|
      invariant 0 <= i <= |news|
      invariant |data| == |news| && |rem| == |news|
      invariant forall k :: 0 <= k < i ==> (data[k], rem[k]) == ProgressFor(previous, news[k])
      invariant forall k :: i <= k < |news| ==> data[k] == [] && rem[k] == news[k].count
    {
      var j := 0;
      while j < |olds|
        invariant 0 <= j <= |olds|
        invariant forall k :: 0 <= k < j ==> olds[k] != news[i]
        invariant |data| == |news| && |rem| == |news|
        invariant forall k :: 0 <= k < i ==> (data[k], rem[k]) == ProgressFor(previous, news[k])
        invariant forall k :: i <= k < |news| ==> data[k] == [] && rem[k] == news[k].count
      {
        if news[i] == olds[j] {
          FirstMatchIs(olds, news[i], j);
          data := data[i := previous.projectData[j]];
          rem := rem[i := previous.remaining[j]];
          break;
        }
        j := j + 1;
      }
      if j == |olds| {
        assert news[i] !in olds;
      }
      i := i + 1;
    }
  }

  /** A new exposure equal to an old one takes the progress of the
      smallest such old index. */
  lemma CarriesFirstEqual(p: Project, c: ProjectChanges, i: nat, j: nat)
    requires MatchesInRange(p, c.exposures)
    requires i < |c.exposures| && j < |p.exposures| && p.exposures[j] == c.exposures[i]
    requires forall k :: 0 <= k < j ==> p.exposures[k] != c.exposures[i]
    ensures ApplyChanges(p, c).projectData[i] == p.projectData[j]
    ensures ApplyChanges(p, c).remaining[i] == p.remaining[j]
  {
    FirstMatchIs(p.exposures, c.exposures[i], j);
  }

  /** A new exposure equal to no old one starts from scratch. */
  lemma ResetsUnmatched(p: Project, c: ProjectChanges, i: nat)
    requires MatchesInRange(p, c.exposures)
    requires i < |c.exposures| && c.exposures[i] !in p.exposures
    ensures ApplyChanges(p, c).projectData[i] == []
    ensures ApplyChanges(p, c).remaining[i] == c.exposures[i].count
  {
  }

  /** Changing only the count of an exposure is a fresh start: if every old
      exposure with the same settings asks for a different count, the new
      exposure's progress is reset. */
  lemma CountChangeResets(p: Project, c: ProjectChanges, i: nat)
    requires MatchesInRange(p, c.exposures) && i < |c.exposures|
    requires forall j :: 0 <= j < |p.exposures| && p.exposures[j].settings == c.exposures[i].settings ==>
               p.exposures[j].count != c.exposures[i].count
    ensures ApplyChanges(p, c).projectData[i] == []
    ensures ApplyChanges(p, c).remaining[i] == c.exposures[i].count
  {
    ResetsUnmatched(p, c, i);
  }

  /** Matching is independent per new index: two equal new exposures take
      the same old progress. */
  lemma EqualNewExposuresShare(p: Project, c: ProjectChanges, i1: nat, i2: nat)
    requires MatchesInRange(p, c.exposures)
    requires i1 < |c.exposures| && i2 < |c.exposures| && c.exposures[i1] == c.exposures[i2]
    ensures ApplyChanges(p, c).projectData[i1] == ApplyChanges(p, c).projectData[i2]
    ensures ApplyChanges(p, c).remaining[i1] == ApplyChanges(p, c).remaining[i2]
  {
  }

  /** Resubmitting the same, pairwise distinct exposures keeps every
      index's progress. */
  lemma UnchangedExposuresKeepProgress(p: Project, c: ProjectChanges)
    requires Aligned(p) && c.exposures == p.exposures && NoDuplicates(p.exposures)
    ensures ApplyChanges(p, c).projectData == p.projectData
    ensures ApplyChanges(p, c).remaining == p.remaining
  {
    var u := ApplyChanges(p, c);
    forall i | 0 <= i < |p.exposures|
      ensures u.projectData[i] == p.projectData[i] && u.remaining[i] == p.remaining[i]
    {
      FirstMatchIs(p.exposures, p.exposures[i], i);
    }
  }

  /** Without distinctness the identity fails: of two equal old exposures
      the second one takes the progress of the first. */
  lemma DuplicateTakesFirstProgress(e: Exposure, p: Project)
    requires p.exposures == [e, e] && p.projectData == [["a.fits"], ["b.fits"]] && p.remaining == [4, 3]
    ensures ApplyChanges(p, ChangesKeeping(p)).projectData == [["a.fits"], ["a.fits"]]
    ensures ApplyChanges(p, ChangesKeeping(p)).remaining == [4, 4]
  {
    FirstMatchIs(p.exposures, e, 0);
    var u := ApplyChanges(p, ChangesKeeping(p));
    assert u.projectData[1] == ["a.fits"];
  }

  /** A record whose arrays are shorter than its exposure list can still be
      modified when no new exposure matches past them: with old exposures
      [a, b], one progress slot, and the new list [a], only index 0 is read. */
  lemma ShortArraysStillModify(a: Exposure, b: Exposure, p: Project, c: ProjectChanges)
    requires a != b && p.exposures == [a, b]
    requires p.projectData == [["x"]] && p.remaining == [5] && c.exposures == [a]
    ensures !Aligned(p) && MatchesInRange(p, c.exposures)
    ensures ApplyChanges(p, c).projectData == [["x"]] && ApplyChanges(p, c).remaining == [5]
  {
    FirstMatchIs(p.exposures, a, 0);
  }

  /** Because equality includes the count, reconciliation keeps the
      captured-plus-remaining accounting of every exposure. */
  lemma ReconcileKeepsAccounting(p: Project, c: ProjectChanges)
    requires Aligned(p) && Accounted(p)
    ensures Accounted(ApplyChanges(p, c))
  {
    var u := ApplyChanges(p, c);
    forall i | 0 <= i < |c.exposures|
      ensures |u.projectData[i]| + u.remaining[i] == c.exposures[i].count
    {
      match FirstMatch(p.exposures, c.exposures[i])
      case Some(j) =>
        assert p.exposures[j] == c.exposures[i];
      case None =>
    }
  }

  /** The change set that resubmits a record's own fields. */
  function ChangesKeeping(p: Project): (c: ProjectChanges)
  {
    ProjectChanges(p.projectConstraints, p.projectName, p.projectNote, p.projectTargets,
                   p.projectSites, p.projectPriority, p.scheduledWithEvents, p.exposures)
  }

  /** The documented scenario: one R-filter exposure of 10 with one image
      captured. Resubmitting it unchanged keeps the progress; asking for 5
      instead starts over. */
  lemma RFilterScenario(p: Project, keep: ProjectChanges, fewer: ProjectChanges)
    requires p.exposures == [Exposure(map["filter" := "R"], 10)]
    requires p.projectData == [["a.fits"]] && p.remaining == [9]
    requires keep.exposures == [Exposure(map["filter" := "R"], 10)]
    requires fewer.exposures == [Exposure(map["filter" := "R"], 5)]
    ensures ApplyChanges(p, keep).projectData == [["a.fits"]] && ApplyChanges(p, keep).remaining == [9]
    ensures ApplyChanges(p, fewer).projectData == [[]] && ApplyChanges(p, fewer).remaining == [5]
  {
    FirstMatchIs(p.exposures, keep.exposures[0], 0);
    assert fewer.exposures[0] != p.exposures[0];
    assert fewer.exposures[0] !in p.exposures;
  }
}
