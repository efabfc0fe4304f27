/** The account lookups and password check of `services/auth_service.py`.
    Hashing and verifying passwords belong to a module that is not part of
    this model: the hash is an input and the verifier a function value. */
module AuthService {
  import opened Wrappers
  import opened Models
  import Seqs
  import UserSchemas

  /** `get_user_by_username`: the first user with exactly that username. */
  function GetUserByUsername(users: seq<User>, username: string): (r: Option<User>)
    ensures r.None? <==> forall i :: 0 <= i < |users| ==> users[i].username != username
    ensures r.Some? ==> r.value in users && r.value.username == username
    ensures r.Some? ==> exists i :: 0 <= i < |users| && users[i] == r.value &&
                         forall j :: 0 <= j < i ==> users[j].username != username
  {
    match Seqs.FindIndex(users, (u: User) => u.username == username)
    case Some(i) => Some(users[i])
    case None => None
  }

  /** Index of the first user with exactly that e-mail. */
  function EmailIndex(users: seq<User>, email: string): (r: Option<nat>)
    ensures r.None? <==> forall i :: 0 <= i < |users| ==> users[i].email != email
    ensures r.Some? ==> r.value < |users| && users[r.value].email == email
    ensures r.Some? ==> forall j :: 0 <= j < r.value ==> users[j].email != email
  {
    Seqs.FindIndex(users, (u: User) => u.email == email)
  }

  /** `get_user_by_email`: the first user with exactly that e-mail. */
  function GetUserByEmail(users: seq<User>, email: string): (r: Option<User>)
    ensures r.None? <==> forall i :: 0 <= i < |users| ==> users[i].email != email
    ensures r.Some? ==> r.value in users && r.value.email == email
    ensures r.Some? ==> exists i :: 0 <= i < |users| && users[i] == r.value &&
                         forall j :: 0 <= j < i ==> users[j].email != email
  {
    match EmailIndex(users, email)
    case Some(i) => Some(users[i])
    case None => None
  }

  /** `create_user`: a new row copying e-mail, username and full name and
      storing only the hash of the password. The account flags take the
      column defaults, active and not admin. */
  function CreateUser(db: Db, u: UserSchemas.UserCreate, hashedPassword: string): (r: (Db, User))
    ensures r.1 == User(db.nextUserId, u.email, u.username, u.fullName, hashedPassword, true, false)
    ensures r.0.users == db.users + [r.1]
    ensures r.0 == db.(users := r.0.users, nextUserId := db.nextUserId + 1)
  {
    var user := User(db.nextUserId, u.email, u.username, u.fullName, hashedPassword, true, false);
    (db.(users := db.users + [user], nextUserId := db.nextUserId + 1), user)
  }

  /** `authenticate_user`: the user with that username, provided the
      password verifies against its stored hash. */
  function AuthenticateUser(users: seq<User>, username: string, password: string,
                            verify: (string, string) -> bool): (r: Option<User>)
    ensures GetUserByUsername(users, username).None? ==> r.None?
    ensures GetUserByUsername(users, username).Some? ==>
      r == (if verify(password, GetUserByUsername(users, username).value.hashedPassword)
            then GetUserByUsername(users, username) else None)
  {
    match GetUserByUsername(users, username)
    case None => None
    case Some(user) => if verify(password, user.hashedPassword) then Some(user) else None
  }

  /** No two accounts share a username or an e-mail. */
  ghost predicate UniqueAccounts(users: seq<User>) {
    forall i, j :: 0 <= i < j < |users| ==>
      users[i].username != users[j].username && users[i].email != users[j].email
  }
}
