/** Registration, password and federated login, logout and token check
    (backend/controllers/Auth.controller.js), against the user table and the
    CSRF store. bcrypt and `jwt.sign` are oracles passed as functions;
    GoogleLogin's random password arrives already hashed. */
module AuthController {
  import opened Wrappers
  import opened Text
  import opened Http
  import opened Identity
  import opened CsrfGuard
  import opened Db
  import Server

  datatype RegisterBody = RegisterBody(name: Option<string>, email: Option<string>, password: Option<string>)
  datatype LoginBody = LoginBody(email: Option<string>, password: Option<string>)
  datatype GoogleBody = GoogleBody(name: Option<string>, email: Option<string>, avatar: Option<string>)

  /** What a successful login sends: the access-token cookie, the CSRF token
      as cookie, header and body field, and the user without its password. */
  datatype LoginReply = LoginReply(accessCookie: string, csrfCookie: string, csrfHeader: string,
                                   csrfToken: string, user: PublicUser)

  const AllFieldsRequired := "All fields are required."
  const AlreadyRegistered := "User already registered."
  const Registered := "Registration successful."
  const BodyMissing := "Request body is missing. Please ensure Content-Type is set to application/json."
  const CredentialsRequired := "Email and password are required."
  const InvalidCredentials := "Invalid login credentials."
  const GoogleFieldsRequired := "Name and email are required."
  const NotAuthenticated := "Not authenticated."

  /** The claims signed into the access token. */
  function Claims(u: UserRecord): Payload {
    PublicClaims(Public(u))
  }

  function PublicClaims(u: PublicUser): Payload {
    Payload(u.id, u.name, u.email, u.avatar.GetOr(""), u.role)
  }

  /** A user as a registration creates it: role "user", no bookmarks. */
  function NewUser(id: string, name: string, email: string, passwordHash: string, avatar: Option<string>): UserRecord {
    UserRecord(id, "user", name, email, None, avatar, passwordHash, [])
  }

  /** `Register`. Mongo hands out an id no stored user has. */
  method Register(db: UserTable, body: RegisterBody, newId: string, hash: string -> string) returns (r: Reply<string>)
    requires forall k :: 0 <= k < |db.users| ==> db.users[k].id != newId
    modifies db
    ensures !(Truthy(body.name) && Truthy(body.email) && Truthy(body.password)) ==>
              r == Fail(HttpError(400, AllFieldsRequired)) && db.users == old(db.users)
    ensures Truthy(body.name) && Truthy(body.email) && Truthy(body.password)
              && UserIndexByEmail(old(db.users), Normalize(body.email.value)) >= 0 ==>
              r == Fail(HttpError(409, AlreadyRegistered)) && db.users == old(db.users)
    ensures Truthy(body.name) && Truthy(body.email) && Truthy(body.password) ==>
              UserIndexByEmail(old(db.users), Normalize(body.email.value)) == -1 ==> r.Ok?
    ensures r.Ok? ==>
              r == Ok(201, Registered)
              && UserIndexByEmail(old(db.users), Normalize(body.email.value)) == -1
              && db.users == old(db.users) + [NewUser(newId, Trim(body.name.value), Normalize(body.email.value),
                                                      hash(body.password.value), None)]
    ensures r.Fail? ==> db.users == old(db.users)
  {
    if !Truthy(body.name) || !Truthy(body.email) || !Truthy(body.password) {
      return Fail(HttpError(400, AllFieldsRequired));
    }
    var email := Normalize(body.email.value);
    if UserIndexByEmail(db.users, email) >= 0 {
      return Fail(HttpError(409, AlreadyRegistered));
    }
    var hashedPassword := hash(body.password.value);
    var user := NewUser(newId, Trim(body.name.value), email, hashedPassword, None);
    db.users := db.users + [user];
    r := Ok(201, Registered);
  }

  /** Mint the access token and a CSRF token for `u`, store the CSRF token
      under the user's key and build the reply (the shared tail of Login and
      GoogleLogin). */
  method IssueSession(csrf: TokenStore, u: UserRecord, sign: Payload -> string, generated: string)
    returns (reply: LoginReply)
    requires IsHexToken(generated)
    modifies csrf
    ensures csrf.tokens == old(csrf.tokens)[UserKey(u.id) := generated]
    ensures reply == LoginReply(sign(Claims(u)), generated, generated, generated, Public(u))
  {
    var token := sign(Claims(u));
    var csrfToken := generated;
    csrf.SetCsrfTokenForUser(u.id, csrfToken);
    reply := LoginReply(token, csrfToken, csrfToken, csrfToken, Public(u));
  }

  /** `Login`. Unknown e-mail and wrong password answer the same 401. */
  method Login(db: UserTable, csrf: TokenStore, body: Option<LoginBody>, compare: (string, string) -> bool,
               sign: Payload -> string, generated: string) returns (r: Reply<LoginReply>)
    requires IsHexToken(generated)
    modifies csrf
    ensures body.None? ==> r == Fail(HttpError(400, BodyMissing))
    ensures body.Some? && !(Truthy(body.value.email) && Truthy(body.value.password)) ==>
              r == Fail(HttpError(400, CredentialsRequired))
    ensures r.Fail? ==> csrf.tokens == old(csrf.tokens)
    ensures r.Fail? && r.error.status == 401 ==> r.error.message == InvalidCredentials
    ensures body.Some? && Truthy(body.value.email) && Truthy(body.value.password) && !r.Ok? ==>
              r == Fail(HttpError(401, InvalidCredentials))
    ensures r.Ok? <==>
              body.Some? && Truthy(body.value.email) && Truthy(body.value.password)
              && UserIndexByEmail(db.users, Normalize(body.value.email.value)) >= 0
              && compare(body.value.password.value, db.users[UserIndexByEmail(db.users, Normalize(body.value.email.value))].password)
    ensures r.Ok? ==>
              var u := db.users[UserIndexByEmail(db.users, Normalize(body.value.email.value))];
              r == Ok(200, LoginReply(sign(Claims(u)), generated, generated, generated, Public(u)))
              && csrf.tokens == old(csrf.tokens)[UserKey(u.id) := generated]
  {
    if body.None? {
      return Fail(HttpError(400, BodyMissing));
    }
    var email, password := body.value.email, body.value.password;
    if !Truthy(email) || !Truthy(password) {
      return Fail(HttpError(400, CredentialsRequired));
    }
    var i := UserIndexByEmail(db.users, Normalize(email.value));
    if i < 0 {
      return Fail(HttpError(401, InvalidCredentials));
    }
    var user := db.users[i];
    if !compare(password.value, user.password) {
      return Fail(HttpError(401, InvalidCredentials));
    }
    var reply := IssueSession(csrf, user, sign, generated);
    r := Ok(200, reply);
  }

  /** `GoogleLogin`: reuse the user with that normalised e-mail, or create one
      under a fresh id. */
  method GoogleLogin(db: UserTable, csrf: TokenStore, body: GoogleBody, newId: string, randomPasswordHash: string,
                     sign: Payload -> string, generated: string) returns (r: Reply<LoginReply>)
    requires IsHexToken(generated)
    requires forall k :: 0 <= k < |db.users| ==> db.users[k].id != newId
    modifies db, csrf
    ensures !(Truthy(body.name) && Truthy(body.email)) ==>
              r == Fail(HttpError(400, GoogleFieldsRequired))
              && db.users == old(db.users) && csrf.tokens == old(csrf.tokens)
    ensures Truthy(body.name) && Truthy(body.email) ==> r.Ok?
    ensures r.Ok? && UserIndexByEmail(old(db.users), Normalize(body.email.value)) >= 0 ==>
              var u := old(db.users)[UserIndexByEmail(old(db.users), Normalize(body.email.value))];
              db.users == old(db.users)
              && r == Ok(200, LoginReply(sign(Claims(u)), generated, generated, generated, Public(u)))
              && csrf.tokens == old(csrf.tokens)[UserKey(u.id) := generated]
    ensures r.Ok? && UserIndexByEmail(old(db.users), Normalize(body.email.value)) == -1 ==>
              var u := NewUser(newId, Trim(body.name.value), Normalize(body.email.value), randomPasswordHash, body.avatar);
              db.users == old(db.users) + [u]
              && r == Ok(200, LoginReply(sign(Claims(u)), generated, generated, generated, Public(u)))
              && csrf.tokens == old(csrf.tokens)[UserKey(u.id) := generated]
  {
    if !Truthy(body.name) || !Truthy(body.email) {
      return Fail(HttpError(400, GoogleFieldsRequired));
    }
    var email := Normalize(body.email.value);
    var i := UserIndexByEmail(db.users, email);
    var user;
    if i < 0 {
      user := NewUser(newId, Trim(body.name.value), email, randomPasswordHash, body.avatar);
      db.users := db.users + [user];
    } else {
      user := db.users[i];
    }
    var reply := IssueSession(csrf, user, sign, generated);
    r := Ok(200, reply);
  }

  /** What `Logout` answers: the cookies it clears. */
  datatype LogoutReply = LogoutReply(clearedCookies: seq<string>, message: string)

  /** `Logout` clears the access-token cookie only: the CSRF cookie and the
      stored CSRF token stay as they are. */
  function Logout(): (r: LogoutReply)
    ensures "access_token" in r.clearedCookies && "csrf_token" !in r.clearedCookies
  {
    LogoutReply(["access_token"], "Logout successful.")
  }

  /** `VerifyToken`: echo `req.user`, or 401 when the caller is anonymous. */
  function VerifyToken(user: Option<Payload>): (r: Reply<Payload>)
    ensures r.Ok? <==> user.Some?
    ensures r.Ok? ==> r.value == user.value && r.status == 200
    ensures r.Fail? ==> r.error == HttpError(401, NotAuthenticated)
  {
    if user.None? then Fail(HttpError(401, NotAuthenticated)) else Ok(200, user.value)
  }

  /** After a successful login, an unsafe request carrying the access token
      and the CSRF token of the reply passes the pipeline as that user,
      provided `jwt.verify` decodes what `jwt.sign` produced. `d` is the
      outcome of that request, and there is none when the login fails. */
  method LoginThenUnsafeRequest(db: UserTable, csrf: TokenStore, body: Option<LoginBody>,
                                compare: (string, string) -> bool, sign: Payload -> string,
                                verify: string -> VerifyResult, generated: string,
                                req: Server.ApiRequest, nodeEnv: Option<string>, stack: string)
    returns (r: Reply<LoginReply>, d: Option<Server.Dispatch>)
    requires IsHexToken(generated)
    requires forall c :: sign(c) != "" && verify(sign(c)) == Decoded(c)
    requires forall k :: 0 <= k < |db.users| ==> db.users[k].id != ""
    modifies csrf
    ensures d.Some? <==> r.Ok?
    ensures r.Ok? ==> d == Some(Server.Routed(Some(PublicClaims(r.value.user))))
  {
    r := Login(db, csrf, body, compare, sign, generated);
    if r.Ok? {
      ghost var u := db.users[UserIndexByEmail(db.users, Normalize(body.value.email.value))];
      var next := req.(httpMethod := "POST", accessToken := Some(r.value.accessCookie),
                       headerToken := Some(r.value.csrfToken));
      SessionPasses(csrf.tokens, u, r.value, next, verify, sign, generated, nodeEnv, stack);
      var outcome := Server.HandleApiRequest(csrf, next, verify, nodeEnv, stack);
      d := Some(outcome);
    } else {
      d := None;
    }
  }

  /** The cookies and header of a session issued for `u`, sent back while
      its CSRF token is still stored, pass the pipeline as `u`. */
  lemma SessionPasses(tokens: map<string, string>, u: UserRecord, reply: LoginReply, req: Server.ApiRequest,
                      verify: string -> VerifyResult, sign: Payload -> string, generated: string,
                      nodeEnv: Option<string>, stack: string)
    requires IsHexToken(generated) && u.id != ""
    requires reply == LoginReply(sign(Claims(u)), generated, generated, generated, Public(u))
    requires UserKey(u.id) in tokens && tokens[UserKey(u.id)] == generated
    requires verify(sign(Claims(u))) == Decoded(Claims(u)) && sign(Claims(u)) != ""
    requires req.accessToken == Some(reply.accessCookie) && req.headerToken == Some(reply.csrfToken)
    ensures Server.Pipeline(tokens, req, verify, nodeEnv, stack) == Server.Routed(Some(PublicClaims(reply.user)))
  {
    assert generated != "";
    Server.LoggedInTokenPasses(tokens, req, verify, Claims(u), nodeEnv, stack);
  }
}
