/** The endpoints of `api/routes/auth.py`: registration, login, the current
    user and the temporary promotion to administrator. */
module AuthRoutes {
  import opened Wrappers
  import opened Http
  import opened Models
  import Text
  import UserSchemas
  import AuthService
  import Dependencies

  /** `POST /auth/register`: the body is validated (422), then the username
      and then the e-mail must be unused (400); the new account gets a token
      whose subject is its username. */
  function Register(db: Db, u: UserSchemas.UserCreate, hashedPassword: string)
    : (r: Result<(Db, UserSchemas.TokenResponse)>)
    ensures UserSchemas.ValidateUserCreate(u) != [] ==> r.Err? && r.status == Unprocessable
    ensures UserSchemas.ValidateUserCreate(u) == [] && AuthService.GetUserByUsername(db.users, u.username).Some? ==>
      r == Err(BadRequest, "Username ya registrado")
    ensures (UserSchemas.ValidateUserCreate(u) == [] && AuthService.GetUserByUsername(db.users, u.username).None?
             && AuthService.GetUserByEmail(db.users, u.email).Some?) ==> r == Err(BadRequest, "Email ya registrado")
    ensures r.Ok? <==> UserSchemas.ValidateUserCreate(u) == []
                       && AuthService.GetUserByUsername(db.users, u.username).None?
                       && AuthService.GetUserByEmail(db.users, u.email).None?
    ensures r.Ok? ==> r.value == (AuthService.CreateUser(db, u, hashedPassword).0,
                                  UserSchemas.IssueToken(AuthService.CreateUser(db, u, hashedPassword).1))
  {
    var failed := UserSchemas.ValidateUserCreate(u);
    if failed != [] then Err(Unprocessable, Text.Join(failed, ','))
    else if AuthService.GetUserByUsername(db.users, u.username).Some? then Err(BadRequest, "Username ya registrado")
    else if AuthService.GetUserByEmail(db.users, u.email).Some? then Err(BadRequest, "Email ya registrado")
    else
      var (db', user) := AuthService.CreateUser(db, u, hashedPassword);
      Ok((db', UserSchemas.IssueToken(user)))
  }

  /** `POST /auth/login`: 401 unless the username exists and the password
      verifies against its hash. */
  function Login(db: Db, username: string, password: string, verify: (string, string) -> bool)
    : (r: Result<UserSchemas.TokenResponse>)
    ensures r.Ok? <==> AuthService.AuthenticateUser(db.users, username, password, verify).Some?
    ensures r.Err? ==> r.status == Unauthorized
    ensures r.Ok? ==> r.value.accessToken.subject == username
    ensures r.Ok? ==>
      r.value == UserSchemas.IssueToken(AuthService.AuthenticateUser(db.users, username, password, verify).value)
  {
    match AuthService.AuthenticateUser(db.users, username, password, verify)
    case None => Err(Unauthorized, "Credenciales incorrectas")
    case Some(user) => Ok(UserSchemas.IssueToken(user))
  }

  /** `GET /auth/me`: the current active user. */
  function GetMe(db: Db, subject: Option<string>): (r: Result<UserSchemas.UserResponse>)
    ensures r.Ok? <==> Dependencies.GetCurrentActiveUser(db, subject).Ok?
    ensures r.Ok? ==> r.value.isActive
                      && r.value.username == Dependencies.GetCurrentActiveUser(db, subject).value.username
    ensures r.Ok? ==> r.value == UserSchemas.ToResponse(Dependencies.GetCurrentActiveUser(db, subject).value)
    ensures r.Err? ==> r.status == Dependencies.GetCurrentActiveUser(db, subject).status
                       && r.detail == Dependencies.GetCurrentActiveUser(db, subject).detail
  {
    match Dependencies.GetCurrentActiveUser(db, subject)
    case Err(s, d) => Err(s, d)
    case Ok(user) => Ok(UserSchemas.ToResponse(user))
  }

  /** `POST /auth/make-admin`: 404 for an unknown e-mail; otherwise the
      first account with that e-mail becomes an administrator. It takes no
      credentials at all. */
  function MakeAdmin(db: Db, email: string): (r: Result<(Db, string)>)
    ensures r.Ok? <==> AuthService.GetUserByEmail(db.users, email).Some?
    ensures r.Err? ==> r.status == NotFound
    ensures r.Ok? ==> |r.value.0.users| == |db.users|
                      && r.value.0 == db.(users := r.value.0.users)
                      && r.value.1 == "Usuario " + email + " ahora es ADMIN"
    ensures r.Ok? ==> forall i :: 0 <= i < |db.users| ==>
      r.value.0.users[i] == if i == AuthService.EmailIndex(db.users, email).value
                            then db.users[i].(isAdmin := true) else db.users[i]
  {
    match AuthService.EmailIndex(db.users, email)
    case None => Err(NotFound, "Usuario no encontrado")
    case Some(i) =>
      var user := db.users[i];
      Ok((db.(users := db.users[i := user.(isAdmin := true)]), "Usuario " + user.email + " ahora es ADMIN"))
  }

  /** Registration keeps usernames and e-mails unique. */
  lemma {:induction false} RegisterKeepsAccountsUnique(db: Db, u: UserSchemas.UserCreate, hashedPassword: string)
    requires AuthService.UniqueAccounts(db.users)
    requires Register(db, u, hashedPassword).Ok?
    ensures AuthService.UniqueAccounts(Register(db, u, hashedPassword).value.0.users)
  {
    var users := Register(db, u, hashedPassword).value.0.users;
    var n := |db.users|;
    assert users == db.users + [users[n]];
    assert users[n].username == u.username && users[n].email == u.email;
    forall i, j | 0 <= i < j < |users|
      ensures users[i].username != users[j].username && users[i].email != users[j].email
    {
      if j == n {
        assert users[i] == db.users[i];
      }
    }
  }

  /** The token issued at registration identifies the new account, and that
      account passes the active-user check. */
  lemma {:induction false} RegisteredTokenAuthenticates(db: Db, u: UserSchemas.UserCreate, hashedPassword: string)
    requires Register(db, u, hashedPassword).Ok?
    ensures var (db', t) := Register(db, u, hashedPassword).value;
      Dependencies.GetCurrentActiveUser(db', Some(t.accessToken.subject)) ==
        Ok(AuthService.CreateUser(db, u, hashedPassword).1)
  {
    var (db', t) := Register(db, u, hashedPassword).value;
    var user := AuthService.CreateUser(db, u, hashedPassword).1;
    var n := |db.users|;
    assert db'.users == db.users + [user];
    assert forall i :: 0 <= i < n ==> db'.users[i] == db.users[i];
    var found := AuthService.GetUserByUsername(db'.users, u.username);
    assert db'.users[n].username == u.username;
    assert found.Some?;
    assert found.value == user;
  }

  /** A login token names a user that the current-user check resolves to
      the very account that logged in. */
  lemma LoginTokenResolves(db: Db, username: string, password: string, verify: (string, string) -> bool)
    requires Login(db, username, password, verify).Ok?
    ensures Dependencies.GetCurrentUser(db, Some(Login(db, username, password, verify).value.accessToken.subject))
            == Ok(AuthService.AuthenticateUser(db.users, username, password, verify).value)
  {
  }

  /** Promoting the same e-mail twice is the same as promoting it once. */
  lemma MakeAdminIdempotent(db: Db, email: string)
    requires MakeAdmin(db, email).Ok?
    ensures MakeAdmin(MakeAdmin(db, email).value.0, email) == MakeAdmin(db, email)
  {
    var db1 := MakeAdmin(db, email).value.0;
    var i := AuthService.EmailIndex(db.users, email).value;
    assert forall k :: 0 <= k < |db.users| ==> db1.users[k].email == db.users[k].email;
    assert AuthService.EmailIndex(db1.users, email) == Some(i);
    assert db1.users[i := db1.users[i].(isAdmin := true)] == db1.users;
  }
}
