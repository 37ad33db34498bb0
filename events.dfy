/**
 Associating a calendar event with a stored project: the project's event
 list is kept free of duplicates by checking before appending.
 */
module Events {
  import opened ProjectTypes

  /** The event list after associating `id`: unchanged when `id` is already
      there, otherwise `id` appended at the end. */
  function WithEvent(events: seq<string>, id: string): (r: seq<string>)
    ensures id in r
    ensures |events| <= |r| <= |events| + 1 && r[..|events|] == events
    ensures forall x :: x in r ==> x == id || x in events
  {
    if id in events then events else events + [id]
  }

  /** Nothing changes for an event that is already associated. */
  lemma WithEventKnown(events: seq<string>, id: string)
    requires id in events
    ensures WithEvent(events, id) == events
  {
  }

  /** Associating the same event twice is the same as associating it once. */
  lemma WithEventIdempotent(events: seq<string>, id: string)
    ensures WithEvent(WithEvent(events, id), id) == WithEvent(events, id)
  {
  }

  /** An event list without duplicates stays without duplicates. */
  lemma WithEventKeepsNoDuplicates(events: seq<string>, id: string)
    requires NoDuplicates(events)
    ensures NoDuplicates(WithEvent(events, id))
  {
    var r := WithEvent(events, id);
    if id !in events {
      forall i, j | 0 <= i < j < |r|
        ensures r[i] != r[j]
      {
        if j == |events| {
          assert r[i] == events[i];
        }
      }
    }
  }

  /** As a set, the event list gains exactly `id`. */
  lemma WithEventAsSet(events: seq<string>, id: string)
    ensures forall x :: x in WithEvent(events, id) <==> x in events || x == id
  {
  }
}
