/** The authentication and authorisation chain of `api/dependencies.py`.
    Token verification belongs to a module that is not part of this model:
    its result, the token's subject or `None`, is the input. */
module Dependencies {
  import opened Wrappers
  import opened Http
  import opened Models
  import AuthService

  const CredentialsDetail: string := "No se pudo validar las credenciales"

  /** `get_current_user`: 401 for an unverifiable token or an unknown
      username, otherwise the user with that username. */
  function GetCurrentUser(db: Db, subject: Option<string>): (r: Result<User>)
    ensures r.Ok? <==> subject.Some? && AuthService.GetUserByUsername(db.users, subject.value).Some?
    ensures r.Ok? ==> r.value == AuthService.GetUserByUsername(db.users, subject.value).value
    ensures r.Err? ==> r.status == Unauthorized
  {
    match subject
    case None => Err(Unauthorized, CredentialsDetail)
    case Some(username) =>
      match AuthService.GetUserByUsername(db.users, username)
      case None => Err(Unauthorized, CredentialsDetail)
      case Some(user) => Ok(user)
  }

  /** `get_current_active_user`: 400 for an inactive account. */
  function GetCurrentActiveUser(db: Db, subject: Option<string>): (r: Result<User>)
    ensures r.Ok? <==> GetCurrentUser(db, subject).Ok? && GetCurrentUser(db, subject).value.isActive
    ensures r.Ok? ==> r == GetCurrentUser(db, subject)
    ensures GetCurrentUser(db, subject).Err? ==> r == GetCurrentUser(db, subject)
  {
    match GetCurrentUser(db, subject)
    case Err(s, d) => Err(s, d)
    case Ok(user) => if !user.isActive then Err(BadRequest, "Usuario inactivo") else Ok(user)
  }

  /** `get_current_admin_user`: 403 for an active account that is not an
      administrator. */
  function GetCurrentAdminUser(db: Db, subject: Option<string>): (r: Result<User>)
    ensures r.Ok? <==> GetCurrentActiveUser(db, subject).Ok? && GetCurrentActiveUser(db, subject).value.isAdmin
    ensures r.Ok? ==> r == GetCurrentActiveUser(db, subject)
    ensures GetCurrentActiveUser(db, subject).Err? ==> r == GetCurrentActiveUser(db, subject)
  {
    match GetCurrentActiveUser(db, subject)
    case Err(s, d) => Err(s, d)
    case Ok(user) =>
      if !user.isAdmin then Err(Forbidden, "No tienes permisos de administrador") else Ok(user)
  }

  /** The whole decision table of the admin chain: which status each kind
      of caller gets, and that every admitted caller is an active admin. */
  lemma AdminDecisionTable(db: Db, subject: Option<string>)
    ensures var found := if subject.Some? then AuthService.GetUserByUsername(db.users, subject.value) else None;
      && (found.None? ==> GetCurrentAdminUser(db, subject).Err? && GetCurrentAdminUser(db, subject).status == Unauthorized)
      && (found.Some? && !found.value.isActive ==>
            GetCurrentAdminUser(db, subject).Err? && GetCurrentAdminUser(db, subject).status == BadRequest)
      && (found.Some? && found.value.isActive && !found.value.isAdmin ==>
            GetCurrentAdminUser(db, subject).Err? && GetCurrentAdminUser(db, subject).status == Forbidden)
      && (found.Some? && found.value.isActive && found.value.isAdmin ==>
            GetCurrentAdminUser(db, subject) == Ok(found.value))
    ensures GetCurrentAdminUser(db, subject).Ok? ==>
      GetCurrentAdminUser(db, subject).value.isActive && GetCurrentAdminUser(db, subject).value.isAdmin
  {
  }

  /** An inactive administrator is refused as inactive (400), not as
      forbidden: the active check runs first. */
  lemma InactiveAdminIsBadRequest(db: Db, subject: Option<string>)
    requires GetCurrentUser(db, subject).Ok?
    requires GetCurrentUser(db, subject).value.isAdmin && !GetCurrentUser(db, subject).value.isActive
    ensures GetCurrentAdminUser(db, subject).Err? && GetCurrentAdminUser(db, subject).status == BadRequest
  {
  }

  /** The chain reads only the user table. */
  lemma SameUsersSameCaller(db: Db, db': Db, subject: Option<string>)
    requires db'.users == db.users
    ensures GetCurrentActiveUser(db', subject) == GetCurrentActiveUser(db, subject)
    ensures GetCurrentAdminUser(db', subject) == GetCurrentAdminUser(db, subject)
  {
  }
}
