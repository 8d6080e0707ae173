/** Authentication and role guards of src/common/auth-guards.ts. The request
    context is reduced to its `user` field: `None` when no token was sent. */
module AuthGuards {
  import opened Wrappers
  import opened Domain

  function RequireAuth(user: Option<AuthUser>): (r: Result<AuthUser, Error>)
    ensures r.Failure? <==> user.None?
    ensures r.Failure? ==> r.error == NotAuthenticated
    ensures r.Success? ==> r.value == user.value
  {
    match user
    case None => Failure(NotAuthenticated)
    case Some(u) => Success(u)
  }

  /** The caller is authenticated and holds `role`. */
  predicate HasRole(user: Option<AuthUser>, role: Role) {
    user.Some? && user.value.role == role
  }

  function RequireRole(user: Option<AuthUser>, role: Role): (r: Result<AuthUser, Error>)
    ensures user.None? ==> r == Failure(NotAuthenticated)
    ensures user.Some? && user.value.role != role ==> r == Failure(NotAuthorized)
    ensures r.Success? <==> HasRole(user, role)
    ensures r.Success? ==> r.value == user.value && r.value.role == role
  {
    var u :- RequireAuth(user);
    if u.role != role then Failure(NotAuthorized) else Success(u)
  }

  /** Roles are exclusive: no caller passes both role guards. */
  lemma RolesExclusive(user: Option<AuthUser>)
    ensures !(RequireRole(user, Propietario).Success? && RequireRole(user, Viajero).Success?)
  {
  }

  /** The examples of the auth-guard tests. */
  lemma AuthGuardExamples()
    ensures RequireAuth(None) == Failure(NotAuthenticated)
    ensures RequireRole(Some(AuthUser(1, Viajero)), Propietario) == Failure(NotAuthorized)
    ensures RequireRole(Some(AuthUser(1, Viajero)), Viajero) == Success(AuthUser(1, Viajero))
  {
  }
}
