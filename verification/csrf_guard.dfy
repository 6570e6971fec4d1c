/** The server-side CSRF scheme (backend/middleware/csrf.js): a process-wide
    map from session key to token, the issuing middlewares and the guard
    that every non-safe request must pass. `crypto.randomBytes(32)` is an
    oracle: each issuing operation receives the freshly generated token as a
    parameter, 64 lower-case hexadecimal digits. */
module CsrfGuard {
  import opened Wrappers
  import opened Text
  import opened Http
  import opened Identity

  const UserAgentKeyLength := 50

  /** What `generateCSRFToken` returns: 32 random bytes in hexadecimal. */
  predicate IsHexToken(t: string) {
    |t| == 64 && forall i :: 0 <= i < |t| ==> t[i] in "0123456789abcdef"
  }

  /** The request as the guard sees it. */
  datatype GuardRequest = GuardRequest(
    httpMethod: string,
    user: Option<Payload>,           // req.user as optionalAuth left it
    ip: string,
    userAgent: Option<string>,
    headerToken: Option<string>,     // X-CSRF-Token header
    bodyToken: Option<string>,       // req.body.csrfToken
    queryToken: Option<string>)      // req.query.csrfToken

  /** The parts of the response the issuing middlewares write. */
  datatype CsrfResponse = CsrfResponse(cookie: Option<string>, header: Option<string>, body: Option<string>)

  /** The key `setCSRFTokenForUser` and `getCSRFTokenForUser` use. */
  function UserKey(userId: string): (k: string)
    ensures |k| == 5 + |userId| && k[..5] == "user_" && k[5..] == userId
  {
    "user_" + userId
  }

  predicate IsUserKey(k: string) {
    |k| >= 5 && k[..5] == "user_"
  }

  /** The user-agent part of an anonymous key: its first 50 characters, or
      "unknown" when the header is absent or empty. */
  function AgentPart(userAgent: Option<string>): (a: string)
    ensures Truthy(userAgent) ==> a == userAgent.value[..if |userAgent.value| < UserAgentKeyLength then |userAgent.value| else UserAgentKeyLength]
    ensures !Truthy(userAgent) ==> a == "unknown"
  {
    if Truthy(userAgent) then
      var ua := userAgent.value;
      ua[..if |ua| < UserAgentKeyLength then |ua| else UserAgentKeyLength]
    else
      "unknown"
  }

  /** `getSessionId`: the user's key when `req.user._id` is truthy, otherwise
      a key made of the client address and the user agent. */
  function SessionId(user: Option<Payload>, ip: string, userAgent: Option<string>): (k: string)
    ensures IsUserKey(k) <==> user.Some? && user.value.id != ""
    ensures user.Some? && user.value.id != "" ==> k == UserKey(user.value.id)
    ensures !(user.Some? && user.value.id != "") ==> k == "anon_" + ip + "_" + AgentPart(userAgent)
  {
    if user.Some? && user.value.id != "" then UserKey(user.value.id)
    else
      var k := "anon_" + ip + "_" + AgentPart(userAgent);
      assert k[..5] == "anon_";
      k
  }

  function RequestKey(req: GuardRequest): string {
    SessionId(req.user, req.ip, req.userAgent)
  }

  /** Two user keys are equal only for the same user id. */
  lemma UserKeyInjective(a: string, b: string)
    requires UserKey(a) == UserKey(b)
    ensures a == b
  {
    assert a == UserKey(a)[5..];
  }

  /** Anonymous callers at the same address whose user agents agree on their
      first 50 characters share one key, hence one token. */
  lemma AnonymousKeysCollide(ip: string, ua1: string, ua2: string)
    requires |ua1| >= UserAgentKeyLength && |ua2| >= UserAgentKeyLength
    requires ua1[..UserAgentKeyLength] == ua2[..UserAgentKeyLength]
    ensures SessionId(None, ip, Some(ua1)) == SessionId(None, ip, Some(ua2))
  {
    assert ua1 != "" && ua2 != "";
  }

  /** GET, HEAD and OPTIONS skip the guard. TRACE, safe by section 9.2.1 of
      RFC 9110, is not in the list. */
  predicate IsSafeMethod(m: string) {
    m == "GET" || m == "HEAD" || m == "OPTIONS"
  }

  /** The token the caller supplies: the header, else the body field, else
      the query parameter; an empty string falls through to the next source. */
  function SuppliedToken(header: Option<string>, body: Option<string>, query: Option<string>): (t: Option<string>)
    ensures Truthy(t) <==> Truthy(header) || Truthy(body) || Truthy(query)
    ensures Truthy(header) ==> t == header
    ensures !Truthy(header) && Truthy(body) ==> t == body
    ensures !Truthy(header) && !Truthy(body) ==> t == query
  {
    if Truthy(header) then header else if Truthy(body) then body else query
  }

  datatype Verdict = Proceed | Missing | NotFound | Invalid

  /** The guard's decision for a method, a supplied and a stored token. */
  function Check(httpMethod: string, supplied: Option<string>, stored: Option<string>): (v: Verdict)
    ensures IsSafeMethod(httpMethod) ==> v == Proceed
    ensures v == Proceed <==>
              IsSafeMethod(httpMethod) || (Truthy(supplied) && Truthy(stored) && supplied == stored)
    ensures v == Missing <==> !IsSafeMethod(httpMethod) && !Truthy(supplied)
    ensures v == NotFound <==> !IsSafeMethod(httpMethod) && Truthy(supplied) && !Truthy(stored)
  {
    if IsSafeMethod(httpMethod) then Proceed
    else if !Truthy(supplied) then Missing
    else if !Truthy(stored) then NotFound
    else if supplied.value != stored.value then Invalid
    else Proceed
  }

  /** The advice every refusal ends with. */
  const RefreshHint := " Please refresh the page."
  const MissingMessage := "CSRF token missing." + RefreshHint
  const NotFoundMessage := "CSRF token not found." + RefreshHint
  const InvalidMessage := "Invalid CSRF token." + RefreshHint

  /** The error `verifyCSRF` passes to `next`, if any; every refusal is a 403. */
  function VerdictError(v: Verdict): (e: Option<HttpError>)
    ensures e.None? <==> v == Proceed
    ensures e.Some? ==> e.value.status == 403
  {
    match v
    case Proceed => None
    case Missing => Some(HttpError(403, MissingMessage))
    case NotFound => Some(HttpError(403, NotFoundMessage))
    case Invalid => Some(HttpError(403, InvalidMessage))
  }

  /** The three refusals carry three different messages. */
  lemma RefusalsAreDistinguished(v: Verdict, w: Verdict)
    requires v != Proceed && w != Proceed && v != w
    ensures VerdictError(v).value.message != VerdictError(w).value.message
  {
    assert MissingMessage[0] != InvalidMessage[0];
    assert MissingMessage[11] != NotFoundMessage[11];
    assert NotFoundMessage[0] != InvalidMessage[0];
  }

  /** Re-issuing a token for a key makes the token it replaced fail on every
      unsafe method. */
  lemma ReissueInvalidatesOldToken(httpMethod: string, previous: string, current: string)
    requires !IsSafeMethod(httpMethod) && previous != "" && IsHexToken(current) && previous != current
    ensures Check(httpMethod, Some(previous), Some(current)) == Invalid
    ensures Check(httpMethod, Some(current), Some(current)) == Proceed
  {
  }

  /** The in-memory store `csrfTokens`. */
  class TokenStore {
    var tokens: map<string, string>

    constructor ()
      ensures tokens == map[]
    {
      tokens := map[];
    }

    /** `csrfTokens.get(key)`. */
    function Lookup(key: string): (t: Option<string>)
      reads this
      ensures t.Some? <==> key in tokens
      ensures t.Some? ==> t.value == tokens[key]
    {
      if key in tokens then Some(tokens[key]) else None
    }

    /** `setCSRFTokenForUser`: overwrite the user's entry, nothing else. */
    method SetCsrfTokenForUser(userId: string, token: string)
      modifies this
      ensures tokens == old(tokens)[UserKey(userId) := token]
    {
      tokens := tokens[UserKey(userId) := token];
    }

    /** `getCSRFTokenForUser`. */
    method GetCsrfTokenForUser(userId: string) returns (t: Option<string>)
      ensures t.Some? <==> UserKey(userId) in tokens
      ensures t.Some? ==> t.value == tokens[UserKey(userId)]
    {
      var key := UserKey(userId);
      if key in tokens {
        t := Some(tokens[key]);
      } else {
        t := None;
      }
    }

    /** `createCSRFToken`: store a fresh token under the caller's key,
        replacing any earlier one, and send it as cookie and header. */
    method CreateCsrfToken(req: GuardRequest, res: CsrfResponse, generated: string) returns (res': CsrfResponse)
      requires IsHexToken(generated)
      modifies this
      ensures tokens == old(tokens)[RequestKey(req) := generated]
      ensures res' == res.(cookie := Some(generated), header := Some(generated))
    {
      var sessionId := SessionId(req.user, req.ip, req.userAgent);
      tokens := tokens[sessionId := generated];
      res' := res.(cookie := Some(generated));
      res' := res'.(header := Some(generated));
    }

    /** `verifyCSRF`: reads the store and never changes it. */
    method VerifyCsrf(req: GuardRequest) returns (err: Option<HttpError>)
      ensures err == VerdictError(Check(req.httpMethod, SuppliedToken(req.headerToken, req.bodyToken, req.queryToken), Lookup(RequestKey(req))))
    {
      if IsSafeMethod(req.httpMethod) {
        return None;
      }
      var sessionId := SessionId(req.user, req.ip, req.userAgent);
      var storedToken := if sessionId in tokens then Some(tokens[sessionId]) else None;
      var token := SuppliedToken(req.headerToken, req.bodyToken, req.queryToken);
      if !Truthy(token) {
        return Some(HttpError(403, MissingMessage));
      }
      if !Truthy(storedToken) {
        return Some(HttpError(403, NotFoundMessage));
      }
      if token.value != storedToken.value {
        return Some(HttpError(403, InvalidMessage));
      }
      err := None;
    }

    /** `getCSRFToken`: answer the stored token, creating one only when none
        is stored; the header and the body always carry the same token. */
    method GetCsrfToken(req: GuardRequest, res: CsrfResponse, generated: string) returns (res': CsrfResponse)
      requires IsHexToken(generated)
      modifies this
      ensures Truthy(old(Lookup(RequestKey(req)))) ==>
                tokens == old(tokens)
                && res' == res.(header := Some(old(tokens)[RequestKey(req)]), body := Some(old(tokens)[RequestKey(req)]))
      ensures !Truthy(old(Lookup(RequestKey(req)))) ==>
                tokens == old(tokens)[RequestKey(req) := generated]
                && res' == CsrfResponse(Some(generated), Some(generated), Some(generated))
      ensures res'.header == res'.body && Truthy(res'.body)
    {
      var sessionId := SessionId(req.user, req.ip, req.userAgent);
      var token := if sessionId in tokens then Some(tokens[sessionId]) else None;
      res' := res;
      if !Truthy(token) {
        token := Some(generated);
        tokens := tokens[sessionId := generated];
        res' := res'.(cookie := Some(generated));
      }
      res' := res'.(header := token);
      res' := res'.(body := token);
    }
  }

  /** `setCSRFTokenForUser(id, t)` then `getCSRFTokenForUser(id)` answers `t`,
      and every other key keeps its entry. */
  method SetThenGetForUser(store: TokenStore, userId: string, token: string) returns (t: Option<string>)
    modifies store
    ensures t == Some(token)
    ensures forall k :: k != UserKey(userId) ==> store.Lookup(k) == old(store.Lookup(k))
  {
    store.SetCsrfTokenForUser(userId, token);
    t := store.GetCsrfTokenForUser(userId);
  }
}
