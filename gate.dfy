/** The access gate: the `isLoggedIn`, `isAdmin` and `isUser` middlewares that
    run, in that order, in front of each handler. */
module Gate {
  import opened Records

  predicate IsLoggedIn(s: Session) {
    s.SignedIn?
  }

  predicate IsAdmin(s: Session) {
    s.SignedIn? && s.role == AdminRole
  }

  predicate IsUser(s: Session) {
    s.SignedIn? && s.role == DefaultRole
  }

  /** The middlewares a route is declared with. */
  datatype Access =
    | AnyLoggedIn   // isLoggedIn
    | AdminOnly     // isLoggedIn, isAdmin
    | UserOnly      // isLoggedIn, isUser

  predicate Allows(need: Access, s: Session) {
    match need
    case AnyLoggedIn => IsLoggedIn(s)
    case AdminOnly => IsAdmin(s)
    case UserOnly => IsUser(s)
  }

  /** Run the route's middlewares: isLoggedIn turns an anonymous caller back to
      the login page before the role check is reached; the role check answers
      "Access Denied" to a caller of the wrong role. */
  function Admit(s: Session, need: Access): (r: Outcome)
    ensures r.Pass? <==> Allows(need, s)
    ensures !IsLoggedIn(s) ==> r == Fail(NotLoggedIn)
    ensures IsLoggedIn(s) && !Allows(need, s) ==> r == Fail(AccessDenied)
  {
    if !s.SignedIn? then Fail(NotLoggedIn)
    else if need == AdminOnly && s.role != AdminRole then Fail(AccessDenied)
    else if need == UserOnly && s.role != DefaultRole then Fail(AccessDenied)
    else Pass
  }

  /** No session passes both the admin-only and the user-only gate: an admin
      cannot make a payment and a user cannot manage memberships. */
  lemma RolesExclusive(s: Session)
    ensures !(Admit(s, AdminOnly).Pass? && Admit(s, UserOnly).Pass?)
  {
  }

  /** Every session that passes a role gate is logged in. */
  lemma RoleGateImpliesLoggedIn(s: Session, need: Access)
    ensures Admit(s, need).Pass? ==> Admit(s, AnyLoggedIn).Pass?
  {
  }
}
