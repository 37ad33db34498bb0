/**
 Request validation shared by the handlers (the required-key check) and the
 concatenation of the pages a paginated table scan returns.
 */
module Requests {
  import opened ProjectTypes

  /** The keys a new-project request body must carry, in checking order. */
  const RequiredProjectKeys: seq<string> := ["project_name", "user_id", "created_at"]

  /** The keys a user-projects request body must carry. */
  const RequiredUserKeys: seq<string> := ["user_id"]

  function MissingKeyMessage(key: string): (message: string)
  {
    "Error: missing required key " + key
  }

  /** The first required key, in order, that the request body lacks. */
  method FirstMissingKey(required: seq<string>, present: set<string>) returns (missing: Option<string>)
    ensures missing.None? <==> forall i :: 0 <= i < |required| ==> required[i] in present
    ensures missing.Some? ==>
              exists i :: 0 <= i < |required| && required[i] == missing.value && missing.value !in present &&
                          forall j :: 0 <= j < i ==> required[j] in present
  {
    for i := 0 to |required|
      invariant forall j :: 0 <= j < i ==> required[j] in present
    {
      if required[i] !in present {
        return Some(required[i]);
      }
    }
    return None;
  }

  /** The items of all pages, page after page. */
  function Concat(pages: seq<seq<Project>>): (items: seq<Project>)
  {
    if |pages| == 0 then [] else Concat(pages[..|pages| - 1]) + pages[|pages| - 1]
  }

  lemma {:induction false} ConcatAppend(pages: seq<seq<Project>>, page: seq<Project>)
    ensures Concat(pages + [page]) == Concat(pages) + page
  {
    assert (pages + [page])[..|pages|] == pages;
  }

  /** A record is in the concatenation exactly when some page holds it. */
  lemma {:induction false} ConcatMembership(pages: seq<seq<Project>>, p: Project)
    ensures p in Concat(pages) <==> exists i :: 0 <= i < |pages| && p in pages[i]
  {
    if |pages| > 0 {
      var init := pages[..|pages| - 1];
      ConcatMembership(init, p);
      assert forall i :: 0 <= i < |init| ==> init[i] == pages[i];
    }
  }

  /** The concatenation is as long as all pages together. */
  lemma {:induction false} ConcatLength(pages: seq<seq<Project>>)
    ensures |Concat(pages)| == TotalLength(pages)
  {
    if |pages| > 0 {
      ConcatLength(pages[..|pages| - 1]);
    }
  }

  function TotalLength(pages: seq<seq<Project>>): (n: nat)
  {
    if |pages| == 0 then 0 else TotalLength(pages[..|pages| - 1]) + |pages[|pages| - 1]|
  }

  /** getAllProjects: the first scan's items, extended by the items of every
      further page while the store reports more. */
  method GetAllProjects(pages: seq<seq<Project>>) returns (resp: Response)
    requires |pages| >= 1
    ensures resp == Response(200, Records(Concat(pages)))
  {
    var data := pages[0];
    assert pages[..1] == [] + [pages[0]];
    ConcatAppend([], pages[0]);
    var next := 1;
    while next < |pages|
      invariant 1 <= next <= |pages|
      invariant data == Concat(pages[..next])
    {
      assert pages[..next + 1] == pages[..next] + [pages[next]];
      ConcatAppend(pages[..next], pages[next]);
      data := data + pages[next];
      next := next + 1;
    }
    assert pages[..next] == pages;
    resp := Response(200, Records(data));
  }
}
