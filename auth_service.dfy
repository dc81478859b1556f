/** `AuthService`: registration, password change, the guard steps of the token refresh
    and the error mapping of login. The password encoder, the token provider and the
    authentication manager are library code; they enter as values holding functions,
    and what the service needs of them is stated as a predicate, not assumed. */
module AuthService {
  import opened Base
  import opened Store
  import opened UserService

  /** A `PasswordEncoder`: `encode` hashes, `matches(raw, encoded)` checks. */
  datatype PasswordEncoder = PasswordEncoder(encode: string -> string, matches: (string, string) -> bool)

  /** What BCrypt promises: a password matches its own encoding. */
  ghost predicate Sound(enc: PasswordEncoder) {
    forall p :: enc.matches(p, enc.encode(p))
  }

  /** The part of `JwtTokenProvider` the refresh path uses. */
  datatype TokenProvider = TokenProvider(validateToken: string -> bool, getUsernameFromToken: string -> string)

  /** `AuthDTO.UserInfo`: the user part of every authentication response. */
  datatype UserInfo = UserInfo(id: int, username: string, email: string,
                               firstName: Option<string>, lastName: Option<string>, roles: set<Role>)

  /** `AuthDTO.MessageResponse`. */
  datatype MessageResponse = MessageResponse(message: string, success: bool)

  datatype RegisterRequest = RegisterRequest(username: string, email: string, password: string,
                                             firstName: Option<string>, lastName: Option<string>)

  function InfoOf(u: UserRow): (info: UserInfo)
    ensures info.id == u.id && info.username == u.fields.username && info.email == u.fields.email
    ensures info.roles == u.fields.roles
  {
    UserInfo(u.id, u.fields.username, u.fields.email, u.fields.firstName, u.fields.lastName, u.fields.roles)
  }

  /** The user `register` builds: the encoded password, every account flag set, and the
      single role `ROLE_USER`. */
  function NewAccount(enc: PasswordEncoder, req: RegisterRequest): (f: UserFields)
    ensures f.username == req.username && f.email == req.email && f.password == enc.encode(req.password)
    ensures f.enabled && f.accountNonExpired && f.accountNonLocked && f.credentialsNonExpired
    ensures f.roles == {RoleUser}
    ensures Sound(enc) ==> enc.matches(req.password, f.password)
  {
    UserFields(req.username, req.email, enc.encode(req.password), req.firstName, req.lastName,
               true, true, true, true, {RoleUser})
  }

  /** The exception the authentication manager throws, as it propagates uncaught. */
  function AuthenticationError(outcome: Authentication): (e: Error)
    requires !outcome.Authenticated?
    ensures outcome.BadCredentialsThrown? ==> e == BadCredentials(outcome.message)
    ensures outcome.OtherAuthenticationError? ==> e == AuthenticationFailure(outcome.message)
  {
    if outcome.BadCredentialsThrown? then BadCredentials(outcome.message) else AuthenticationFailure(outcome.message)
  }

  /** `register`: the username is checked before the email; a new account is saved, the
      new user is authenticated (`login` is the parameter `login`), and the account is
      described in the response. The whole method is one transaction, so an
      authentication failure after the save rolls the new row back: the model then
      writes nothing and fails with the authentication error. */
  method Register(db: Database, enc: PasswordEncoder, req: RegisterRequest, login: Authentication) returns (r: Result<UserInfo>)
    requires db.Valid()
    modifies db`users, db`nextUserId
    ensures db.Valid()
    ensures ExistsByUsername(old(db.users), req.username) ==>
              r == Failure(DuplicateMessage("Username is already taken!"))
    ensures !ExistsByUsername(old(db.users), req.username) && ExistsByEmail(old(db.users), req.email) ==>
              r == Failure(DuplicateMessage("Email is already in use!"))
    ensures !ExistsByUsername(old(db.users), req.username) && !ExistsByEmail(old(db.users), req.email) && !login.Authenticated? ==>
              r == Failure(AuthenticationError(login))
    ensures r.Failure? ==> db.users == old(db.users) && db.nextUserId == old(db.nextUserId)
    ensures r.Success? <==> !ExistsByUsername(old(db.users), req.username) && !ExistsByEmail(old(db.users), req.email)
                            && login.Authenticated?
    ensures r.Success? ==> r.value.id !in old(db.users)
    ensures r.Success? ==> db.users == old(db.users)[r.value.id := UserRow(r.value.id, NewAccount(enc, req))]
    ensures r.Success? ==> r.value == InfoOf(UserRow(r.value.id, NewAccount(enc, req)))
  {
    if ExistsByUsername(db.users, req.username) {
      return Failure(DuplicateMessage("Username is already taken!"));
    }
    if ExistsByEmail(db.users, req.email) {
      return Failure(DuplicateMessage("Email is already in use!"));
    }
    if !login.Authenticated? {
      return Failure(AuthenticationError(login));
    }
    var user := NewAccount(enc, req);
    var savedUser := db.InsertUser(user);
    r := Success(InfoOf(savedUser));
  }

  /** `changePassword`: an unknown user is not found; a wrong current password is rejected
      and nothing changes; otherwise only the stored hash changes, to the new password's. */
  method ChangePassword(db: Database, enc: PasswordEncoder, userId: int, currentPassword: string, newPassword: string)
    returns (r: Result<MessageResponse>)
    requires db.Valid()
    modifies db`users
    ensures db.Valid()
    ensures userId !in old(db.users) ==> r == Failure(NotFoundMessage("User not found"))
    ensures userId in old(db.users) && !enc.matches(currentPassword, old(db.users)[userId].fields.password) ==>
              r == Failure(BadCredentials("Current password is incorrect"))
    ensures r.Failure? ==> db.users == old(db.users)
    ensures r.Success? <==> userId in old(db.users) && enc.matches(currentPassword, old(db.users)[userId].fields.password)
    ensures r.Success? ==> r.value == MessageResponse("Password changed successfully", true)
    ensures r.Success? ==> db.users == old(db.users)[userId := old(db.users)[userId].(fields := old(db.users)[userId].fields.(password := enc.encode(newPassword)))]
    ensures r.Success? && Sound(enc) ==> enc.matches(newPassword, db.users[userId].fields.password)
  {
    if userId !in db.users {
      return Failure(NotFoundMessage("User not found"));
    }
    var user := db.users[userId];
    if !enc.matches(currentPassword, user.fields.password) {
      return Failure(BadCredentials("Current password is incorrect"));
    }
    var changed := user.(fields := user.fields.(password := enc.encode(newPassword)));
    db.PutUser(changed);
    r := Success(MessageResponse("Password changed successfully", true));
  }

  /** The guard steps of `refreshToken`: an invalid token is rejected before any lookup;
      a valid token whose subject names no stored user is not found. */
  function RefreshToken(users: map<int, UserRow>, tp: TokenProvider, refreshToken: string): (r: Result<UserInfo>)
    ensures !tp.validateToken(refreshToken) ==> r == Failure(BadCredentials("Invalid refresh token"))
    ensures tp.validateToken(refreshToken) && !ExistsByUsername(users, tp.getUsernameFromToken(refreshToken)) ==>
              r == Failure(NotFoundMessage("User not found"))
    ensures r.Success? <==> tp.validateToken(refreshToken) && ExistsByUsername(users, tp.getUsernameFromToken(refreshToken))
    ensures r.Success? ==> r.value.username == tp.getUsernameFromToken(refreshToken)
                           && exists k :: k in users && InfoOf(users[k]) == r.value
  {
    if !tp.validateToken(refreshToken) then Failure(BadCredentials("Invalid refresh token"))
    else
      var username := tp.getUsernameFromToken(refreshToken);
      match FindByUsername(users, username)
      case None => Failure(NotFoundMessage("User not found"))
      case Some(user) => Success(InfoOf(user))
  }

  /** What `authenticationManager.authenticate` did: returned a principal, or threw
      `BadCredentialsException`, or threw another `AuthenticationException`. */
  datatype Authentication =
    | Authenticated(principal: UserInfo)
    | BadCredentialsThrown(message: string)
    | OtherAuthenticationError(message: string)

  /** The error mapping of `login`: a bad-credentials failure is rethrown with one fixed
      message; any other authentication failure propagates as it was. */
  function Login(outcome: Authentication): (r: Result<UserInfo>)
    ensures r.Success? <==> outcome.Authenticated?
    ensures r.Success? ==> r.value == outcome.principal
    ensures outcome.BadCredentialsThrown? ==> r == Failure(BadCredentials("Invalid username/email or password"))
    ensures outcome.OtherAuthenticationError? ==> r == Failure(AuthenticationFailure(outcome.message))
  {
    match outcome
    case Authenticated(principal) => Success(principal)
    case BadCredentialsThrown(_) => Failure(BadCredentials("Invalid username/email or password"))
    case OtherAuthenticationError(message) => Failure(AuthenticationFailure(message))
  }
}
