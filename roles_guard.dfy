/** `RolesGuard.canActivate` (src/modules/auth/guards/roles.guard.ts): a
    route that declares required roles admits only an authenticated user
    whose role code is one of them; every refusal is a `ForbiddenException`
    (section 15.5.4 of RFC 9110). */
module RolesGuard {
  import opened Wrappers
  import opened Exceptions
  import opened ErrorSanitizer
  import opened ExceptionFilter

  const NOT_AUTHENTICATED := "Usuario no autenticado"
  const NO_ROLE := "Usuario sin rol asignado"
  const NOT_PERMITTED := "No tienes permisos para realizar esta acción"

  /** `request.user`, as far as the guard reads it. */
  datatype User = User(roleCode: Option<string>)

  /** `roles.some(role => role === code)`, one role at a time. */
  function AnyRoleMatches(roles: seq<string>, code: string): (found: bool)
    ensures found <==> code in roles
  {
    if roles == [] then false
    else roles[0] == code || AnyRoleMatches(roles[1..], code)
  }

  /** `canActivate(context)`: `requiredRoles` is the route's metadata
      (`None` when it declares none) and `user` is `request.user`. */
  function CanActivate(requiredRoles: Option<seq<string>>, user: Option<User>): (r: Outcome<bool>)
    ensures r.Returned? ==> r.value
    ensures r.Threw? ==> r.exception.Http? && r.exception.cls == Forbidden
  {
    if requiredRoles.None? then Returned(true)
    else if user.None? then Threw(NewHttpException(Forbidden, NOT_AUTHENTICATED))
    else if !Truthy(user.value.roleCode) then Threw(NewHttpException(Forbidden, NO_ROLE))
    else if !AnyRoleMatches(requiredRoles.value, user.value.roleCode.value) then
      Threw(NewHttpException(Forbidden, NOT_PERMITTED))
    else Returned(true)
  }

  /** Access is granted exactly when no roles are required, or the user's
      role code is, character for character, one of the required roles. */
  lemma AllowedIffRoleListed(requiredRoles: Option<seq<string>>, user: Option<User>)
    ensures CanActivate(requiredRoles, user).Returned? <==>
              requiredRoles.None? ||
              (user.Some? && Truthy(user.value.roleCode) && user.value.roleCode.value in requiredRoles.value)
  {
  }

  /** The missing user is reported before anything about roles, even when
      the list of roles is empty. */
  lemma MissingUserFirst(roles: seq<string>)
    ensures CanActivate(Some(roles), None) == Threw(NewHttpException(Forbidden, NOT_AUTHENTICATED))
  {
  }

  /** A user without a role code is refused whatever roles are required. */
  lemma MissingRoleCode(roles: seq<string>, code: Option<string>)
    requires !Truthy(code)
    ensures CanActivate(Some(roles), Some(User(code))) == Threw(NewHttpException(Forbidden, NO_ROLE))
  {
  }

  /** An empty list of required roles refuses every user. */
  lemma EmptyRoleListDeniesAll(user: Option<User>)
    ensures CanActivate(Some([]), user).Threw?
  {
  }

  /** A role code that is not listed is refused with the permission message. */
  lemma UnlistedRoleRefused(roles: seq<string>, code: string)
    requires code != "" && code !in roles
    ensures CanActivate(Some(roles), Some(User(Some(code)))) == Threw(NewHttpException(Forbidden, NOT_PERMITTED))
  {
  }

  /** A refusal reaches the client as status 403 with its message. */
  lemma RefusalReply(requiredRoles: Option<seq<string>>, user: Option<User>, s: Sanitizer)
    requires CanActivate(requiredRoles, user).Threw?
    ensures var e := CanActivate(requiredRoles, user).exception;
      Respond(e, s) == Reply(FORBIDDEN, Some(e.message)) &&
      e.message in {NOT_AUTHENTICATED, NO_ROLE, NOT_PERMITTED}
  {
  }
}
