/** The role gate (src/middlewares/roleMiddleware.js): a list-membership test on the
    caller's `tipo_usuario`. */
module RoleMiddleware {
  import opened Base
  import opened Schema

  /** `roleMiddleware(rolesPermitidos)` applied to a request from a user of `role`. */
  function RoleGate(permitted: seq<Role>, role: Role): (d: Gate)
    ensures d == Next <==> role in permitted
    ensures d != Next ==> d == Reject(403)
  {
    if role !in permitted then Reject(403) else Next
  }

  /** An empty list admits nobody, and a role-only list admits exactly that role. */
  lemma EmptyAndSingletonLists(role: Role, only: Role)
    ensures RoleGate([], role) == Reject(403)
    ensures RoleGate([only], role) == Next <==> role == only
  {
  }

  /** Widening the permitted list never rejects a request that was admitted. */
  lemma RoleGateMonotone(narrow: seq<Role>, wide: seq<Role>, role: Role)
    requires forall k :: 0 <= k < |narrow| ==> narrow[k] in wide
    ensures RoleGate(narrow, role) == Next ==> RoleGate(wide, role) == Next
  {
    if role in narrow {
      var k :| 0 <= k < |narrow| && narrow[k] == role;
    }
  }
}
