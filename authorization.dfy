/**
 The two authorization checks of project deletion. The requester's admin
 status is carried as the string "true" or "false"; the calendar
 notification is gated on the Python truth value of that string, the delete
 itself on a store-side condition that compares it with "true".
 */
module Authorization {

  /** The admin flag derived from the requester's roles. */
  function AdminFlag(roles: seq<string>): (flag: string)
    ensures flag == "true" <==> "admin" in roles
    ensures flag == "false" <==> "admin" !in roles
  {
    if "admin" in roles then "true" else "false"
  }

  /** Python's truth value of a string: it holds for every non-empty one. */
  predicate Truthy(s: string)
  {
    s != ""
  }

  /** The gate in front of the calendar notification:
      `requesterIsAdmin or requester == owner`, with the flag as a string. */
  predicate NotifyGate(flag: string, requester: string, owner: string)
  {
    Truthy(flag) || requester == owner
  }

  /** The store's delete condition:
      `:requesterIsAdmin = "true" OR user_id = :requester_id`. */
  predicate DeleteCondition(flag: string, requester: string, owner: string)
  {
    flag == "true" || owner == requester
  }

  /** The delete goes through exactly for admins and for the owner. */
  lemma DeleteAllowedIffAdminOrOwner(roles: seq<string>, requester: string, owner: string)
    ensures DeleteCondition(AdminFlag(roles), requester, owner) <==> ("admin" in roles || requester == owner)
  {
  }

  /** Both possible flags are non-empty strings, so the notification gate
      is open for every requester. */
  lemma NotifyGateAlwaysOpen(roles: seq<string>, requester: string, owner: string)
    ensures NotifyGate(AdminFlag(roles), requester, owner)
  {
    assert AdminFlag(roles)[0] == 't' || AdminFlag(roles)[0] == 'f';
  }

  /** A requester who is neither admin nor owner is refused the delete but
      still passes the notification gate. */
  lemma RefusedRequesterPassesGate(roles: seq<string>, requester: string, owner: string)
    requires "admin" !in roles && requester != owner
    ensures !DeleteCondition(AdminFlag(roles), requester, owner)
    ensures NotifyGate(AdminFlag(roles), requester, owner)
  {
    NotifyGateAlwaysOpen(roles, requester, owner);
  }
}
