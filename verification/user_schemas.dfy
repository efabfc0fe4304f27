/** The request and response shapes of `schemas/user.py` with their field
    bounds. A validator returns the names of the fields that fail, in
    declaration order; an empty list means the request is accepted.
    E-mail syntax (`EmailStr`) is not checked by this model. */
module UserSchemas {
  import opened Wrappers
  import opened Models

  datatype UserCreate = UserCreate(email: string, username: string, fullName: Option<string>, password: string)

  datatype UserUpdate = UserUpdate(email: Option<string>, fullName: Option<string>, password: Option<string>)

  /** `username`: 3 to 50 characters; `password`: at least 6. */
  function ValidateUserCreate(u: UserCreate): (failed: seq<string>)
    ensures failed == [] <==> 3 <= |u.username| <= 50 && |u.password| >= 6
    ensures "username" in failed <==> !(3 <= |u.username| <= 50)
    ensures "password" in failed <==> |u.password| < 6
  {
    (if 3 <= |u.username| <= 50 then [] else ["username"])
    + (if |u.password| >= 6 then [] else ["password"])
  }

  /** Every field optional; a password, when given, has at least 6 characters. */
  function ValidateUserUpdate(u: UserUpdate): (failed: seq<string>)
    ensures failed == [] <==> (u.password.None? || |u.password.value| >= 6)
  {
    if u.password.Some? && |u.password.value| < 6 then ["password"] else []
  }

  /** A signed access token, reduced to its subject claim; signing, expiry
      and encoding are not part of this model. */
  datatype AccessToken = AccessToken(subject: string)

  /** `UserResponse`: the user without the password hash. */
  datatype UserResponse = UserResponse(
    id: int, email: string, username: string, fullName: Option<string>, isActive: bool, isAdmin: bool)

  function ToResponse(u: User): (r: UserResponse)
    ensures r.id == u.id && r.username == u.username && r.email == u.email
    ensures r.fullName == u.fullName && r.isActive == u.isActive && r.isAdmin == u.isAdmin
  {
    UserResponse(u.id, u.email, u.username, u.fullName, u.isActive, u.isAdmin)
  }

  /** `Token`: the access token, its type and the user it was issued to. */
  datatype TokenResponse = TokenResponse(accessToken: AccessToken, tokenType: string, user: UserResponse)

  /** The response of a successful login or registration. */
  function IssueToken(u: User): (t: TokenResponse)
    ensures t.accessToken.subject == u.username && t.tokenType == "bearer"
    ensures t.user.id == u.id && t.user == ToResponse(u)
  {
    TokenResponse(AccessToken(u.username), "bearer", ToResponse(u))
  }
}
