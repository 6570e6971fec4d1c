/** The request pipeline of backend/index.js: every API request passes the
    soft identity resolver and then the CSRF guard before any route; the
    token endpoint chains optionalAuth, createCSRFToken and getCSRFToken;
    every error ends in one JSON envelope. */
module Server {
  import opened Wrappers
  import opened Text
  import opened Http
  import opened Identity
  import opened CsrfGuard

  /** An error as it reaches the global handler. */
  datatype RaisedError = RaisedError(statusCode: Option<int>, message: Option<string>, stack: string)

  /** The JSON body the global handler answers with. */
  datatype ErrorEnvelope = ErrorEnvelope(success: bool, statusCode: int, message: string, stack: Option<string>)

  function Raised(e: HttpError, stack: string): RaisedError {
    RaisedError(Some(e.status), Some(e.message), stack)
  }

  /** The global error handler: status defaults to 500, message to
      "Internal server error", and the stack is shown outside production. */
  function Envelope(err: RaisedError, nodeEnv: Option<string>): (e: ErrorEnvelope)
    ensures !e.success
    ensures e.statusCode != 0
    ensures err.statusCode.Some? && err.statusCode.value != 0 ==> e.statusCode == err.statusCode.value
    ensures !(err.statusCode.Some? && err.statusCode.value != 0) ==> e.statusCode == 500
    ensures Truthy(err.message) ==> e.message == err.message.value
    ensures !Truthy(err.message) ==> e.message == "Internal server error"
    ensures e.stack.Some? <==> nodeEnv != Some("production")
    ensures e.stack.Some? ==> e.stack.value == err.stack
  {
    var statusCode := if err.statusCode.Some? && err.statusCode.value != 0 then err.statusCode.value else 500;
    var message := if Truthy(err.message) then err.message.value else "Internal server error";
    ErrorEnvelope(false, statusCode, message, if nodeEnv != Some("production") then Some(err.stack) else None)
  }

  /** An error built by `handleError` with a non-zero status and a message
      reaches the client unchanged. */
  lemma EnvelopeKeepsHandledError(e: HttpError, stack: string, nodeEnv: Option<string>)
    requires e.status != 0 && e.message != ""
    ensures Envelope(Raised(e, stack), nodeEnv).statusCode == e.status
    ensures Envelope(Raised(e, stack), nodeEnv).message == e.message
  {
  }

  /** An API request as it arrives. */
  datatype ApiRequest = ApiRequest(
    httpMethod: string,
    accessToken: Option<string>,
    ip: string,
    userAgent: Option<string>,
    headerToken: Option<string>,
    bodyToken: Option<string>,
    queryToken: Option<string>)

  /** Where the pipeline leaves a request: at the routes with `req.user` set,
      or answered by the error handler. */
  datatype Dispatch = Routed(user: Option<Payload>) | Answered(envelope: ErrorEnvelope)

  function GuardView(req: ApiRequest, user: Option<Payload>): GuardRequest {
    GuardRequest(req.httpMethod, user, req.ip, req.userAgent, req.headerToken, req.bodyToken, req.queryToken)
  }

  /** The outcome of `app.use(optionalAuth)` followed by `app.use(verifyCSRF)`
      against a store holding `tokens`. */
  function Pipeline(tokens: map<string, string>, req: ApiRequest, verify: string -> VerifyResult,
                    nodeEnv: Option<string>, stack: string): (d: Dispatch)
    ensures d.Routed? ==> d.user == OptionalAuth(req.accessToken, verify)
    ensures d.Answered? ==> d.envelope.statusCode == 403 && !IsSafeMethod(req.httpMethod)
    ensures d.Routed? <==>
              IsSafeMethod(req.httpMethod)
              || (var k := SessionId(OptionalAuth(req.accessToken, verify), req.ip, req.userAgent);
                  var t := SuppliedToken(req.headerToken, req.bodyToken, req.queryToken);
                  Truthy(t) && k in tokens && tokens[k] != "" && t == Some(tokens[k]))
  {
    var user := OptionalAuth(req.accessToken, verify);
    var key := SessionId(user, req.ip, req.userAgent);
    var stored := if key in tokens then Some(tokens[key]) else None;
    var v := Check(req.httpMethod, SuppliedToken(req.headerToken, req.bodyToken, req.queryToken), stored);
    match VerdictError(v)
    case None => Routed(user)
    case Some(e) => Answered(Envelope(Raised(e, stack), nodeEnv))
  }

  /** Every API request: identity first, then the guard keyed by that identity. */
  method HandleApiRequest(store: TokenStore, req: ApiRequest, verify: string -> VerifyResult,
                          nodeEnv: Option<string>, stack: string) returns (d: Dispatch)
    ensures d == Pipeline(store.tokens, req, verify, nodeEnv, stack)
  {
    var user := OptionalAuth(req.accessToken, verify);
    var err := store.VerifyCsrf(GuardView(req, user));
    if err.Some? {
      d := Answered(Envelope(Raised(err.value, stack), nodeEnv));
    } else {
      d := Routed(user);
    }
  }

  /** Safe methods always reach the routes, whatever the tokens. */
  lemma SafeMethodsReachRoutes(tokens: map<string, string>, req: ApiRequest, verify: string -> VerifyResult,
                               nodeEnv: Option<string>, stack: string)
    requires IsSafeMethod(req.httpMethod)
    ensures Pipeline(tokens, req, verify, nodeEnv, stack) == Routed(OptionalAuth(req.accessToken, verify))
  {
  }

  /** A logged-in caller whose header carries the token stored under its
      user key reaches the routes as that user. */
  lemma LoggedInTokenPasses(tokens: map<string, string>, req: ApiRequest, verify: string -> VerifyResult,
                            p: Payload, nodeEnv: Option<string>, stack: string)
    requires Truthy(req.accessToken) && verify(req.accessToken.value) == Decoded(p) && p.id != ""
    requires UserKey(p.id) in tokens && req.headerToken == Some(tokens[UserKey(p.id)])
    requires tokens[UserKey(p.id)] != ""
    ensures Pipeline(tokens, req, verify, nodeEnv, stack) == Routed(Some(p))
  {
  }

  /** When the access token no longer verifies (for instance it expired),
      the guard looks up the anonymous key instead of the user's, so the
      token issued at login no longer counts. */
  lemma UnverifiedCookieUsesAnonymousKey(tokens: map<string, string>, req: ApiRequest, verify: string -> VerifyResult,
                                         nodeEnv: Option<string>, stack: string)
    requires !IsSafeMethod(req.httpMethod) && Truthy(req.headerToken)
    requires Truthy(req.accessToken) && !verify(req.accessToken.value).Decoded?
    requires SessionId(None, req.ip, req.userAgent) !in tokens
    ensures Pipeline(tokens, req, verify, nodeEnv, stack).Answered?
    ensures Pipeline(tokens, req, verify, nodeEnv, stack).envelope.message == NotFoundMessage
  {
  }

  /** `GET /api/csrf-token`: optionalAuth, createCSRFToken, getCSRFToken.
      The first middleware always stores a new token, so the second finds
      it and never generates one: each call rotates the caller's token. */
  method CsrfTokenEndpoint(store: TokenStore, req: ApiRequest, verify: string -> VerifyResult,
                           generated: string, unused: string) returns (res: CsrfResponse)
    requires IsHexToken(generated) && IsHexToken(unused)
    modifies store
    ensures store.tokens ==
              old(store.tokens)[SessionId(OptionalAuth(req.accessToken, verify), req.ip, req.userAgent) := generated]
    ensures res == CsrfResponse(Some(generated), Some(generated), Some(generated))
  {
    var user := OptionalAuth(req.accessToken, verify);
    var g := GuardView(req, user);
    var res0 := store.CreateCsrfToken(g, CsrfResponse(None, None, None), generated);
    res := store.GetCsrfToken(g, res0, unused);
  }

  /** Two calls to the token endpoint from the same caller answer two
      different tokens, and only the second passes the guard afterwards. */
  method RotationScenario(store: TokenStore, req: ApiRequest, verify: string -> VerifyResult,
                          t1: string, t2: string, u1: string, u2: string,
                          nodeEnv: Option<string>, stack: string) returns (r1: CsrfResponse, r2: CsrfResponse)
    requires IsHexToken(t1) && IsHexToken(t2) && IsHexToken(u1) && IsHexToken(u2) && t1 != t2
    modifies store
    ensures r1.body == Some(t1) && r2.body == Some(t2)
    ensures Pipeline(store.tokens, req.(httpMethod := "POST", headerToken := Some(t1)), verify, nodeEnv, stack)
            == Answered(Envelope(Raised(HttpError(403, InvalidMessage), stack), nodeEnv))
    ensures Pipeline(store.tokens, req.(httpMethod := "POST", headerToken := Some(t2)), verify, nodeEnv, stack)
            == Routed(OptionalAuth(req.accessToken, verify))
  {
    r1 := CsrfTokenEndpoint(store, req, verify, t1, u1);
    r2 := CsrfTokenEndpoint(store, req, verify, t2, u2);
  }
}
