/**
 * Choosing the operation from the `type` path segment. Both controllers
 * lower-case the segment and then compare it with exactly four names.
 */
module Dispatch {
  import opened Json
  import opened Text

  datatype Action = Insert | Update | Delete | Get

  function ActionName(a: Action): string
  {
    match a
    case Insert => "insert"
    case Update => "update"
    case Delete => "delete"
    case Get => "get"
  }

  /** The action a `type` segment selects, or None for an invalid type. */
  function ParseAction(kind: string): (r: Option<Action>)
    ensures r.Some? ==> Lower(kind) == ActionName(r.value)
  {
    var t := Lower(kind);
    if t == "insert" then Some(Insert)
    else if t == "update" then Some(Update)
    else if t == "delete" then Some(Delete)
    else if t == "get" then Some(Get)
    else None
  }

  /** Exactly the four names select an action, whatever their letter case. */
  lemma ParseActionExactly(kind: string, a: Action)
    ensures ParseAction(kind) == Some(a) <==> Lower(kind) == ActionName(a)
  {
  }

  /** Every other type string selects nothing. */
  lemma ParseActionRejects(kind: string)
    ensures ParseAction(kind) == None <==>
      Lower(kind) !in {"insert", "update", "delete", "get"}
  {
  }

  /** Matching is case-insensitive: a segment and its lower-case form select the same action. */
  lemma ParseActionIgnoresCase(kind: string)
    ensures ParseAction(Lower(kind)) == ParseAction(kind)
  {
    LowerIdempotent(kind);
  }

  /** Each action's own name selects it. */
  lemma ParseActionName(a: Action)
    ensures ParseAction(ActionName(a)) == Some(a)
  {
    var n := ActionName(a);
    assert forall i :: 0 <= i < |n| ==> LowerChar(n[i]) == n[i];
    assert Lower(n) == n;
  }

  /** An upper-case spelling selects the same action as the lower-case one. */
  lemma ParseActionUpperCase()
    ensures ParseAction("INSERT") == Some(Insert)
  {
    var l := Lower("INSERT");
    assert l[0] == 'i' && l[1] == 'n' && l[2] == 's' && l[3] == 'e' && l[4] == 'r' && l[5] == 't';
    assert l == "insert";
  }
}
