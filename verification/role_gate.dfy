/** The backend role gate: a route guarded by RequireRole(role) continues only
    for a caller whose "role" local, set by the JWT middleware, is exactly that
    role string; anyone else gets 403 Forbidden. */
module RoleGate {
  import opened Domain

  /** The "role" request local: never set, a string, or a value of another type. */
  datatype RoleLocal = Unset | Text(value: string) | NonText

  datatype Verdict = Continue | Forbidden(status: int)

  const StatusForbidden: int := 403

  /** A missing role is refused first; then any value that is not the required
      string (a different string, or a non-string) is refused. */
  function RequireRole(required: string, role: RoleLocal): (v: Verdict)
    ensures v == Continue <==> role == Text(required)
    ensures v.Forbidden? ==> v.status == StatusForbidden
  {
    if role.Unset? then Forbidden(StatusForbidden)
    else if role != Text(required) then Forbidden(StatusForbidden)
    else Continue
  }

  /** A request whose role was never set is refused. */
  lemma MissingRoleForbidden(required: string)
    ensures RequireRole(required, Unset) == Forbidden(403)
  {
  }

  /** A request carrying a different role is refused. */
  lemma OtherRoleForbidden(required: string, role: string)
    requires role != required
    ensures RequireRole(required, Text(role)) == Forbidden(403)
  {
  }

  /** No role local passes two gates that require different roles, so a
      MANAGER-only route and a ZOOKEEPER-only route never admit the same caller. */
  lemma GatesExclusive(first: string, second: string, role: RoleLocal)
    requires first != second
    ensures !(RequireRole(first, role).Continue? && RequireRole(second, role).Continue?)
  {
  }

  /** A user whose token carries their role's name passes exactly that role's gate. */
  lemma UserPassesOwnGateOnly(userRole: Role, gateRole: Role)
    ensures RequireRole(RoleName(gateRole), Text(RoleName(userRole))).Continue? <==> userRole == gateRole
  {
  }
}
