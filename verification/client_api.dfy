/** The browser's request wrapper (client/src/helpers/api.js): attach the
    CSRF token, send, and on a CSRF refusal refresh the token and send once
    more. Each network exchange is an input: the outcome of each `fetch`
    and, for each token refresh, the outcome of `fetchCSRFToken`'s own call. */
module ClientApi {
  import opened Wrappers
  import opened Text
  import opened Http
  import opened ClientCsrf
  import CsrfGuard
  import Identity
  import Server

  const ContentType := "Content-Type"
  const Json := "application/json"
  const RetryMarker := "CSRF"

  /** A response body as `response.json()` reads it: a JSON object with an
      optional string `message`, or a parse failure with its error text. */
  datatype JsonBody = JsonObject(message: Option<string>) | NotJson(parseError: string)

  /** What a `fetch` settles to. */
  datatype FetchResult = NetworkFailure(error: string) | Response(status: int, body: JsonBody)

  /** The `options` a caller passes: its own headers and whether the body
      is a `FormData`. */
  datatype RequestOptions = RequestOptions(headers: map<string, string>, formData: bool)

  /** The headers before the token: a JSON content type unless the body is
      form data, then the caller's headers on top. */
  function BaseHeaders(options: RequestOptions): (h: map<string, string>)
    ensures ContentType in h <==> !options.formData || ContentType in options.headers
    ensures ContentType in h && ContentType !in options.headers ==> h[ContentType] == Json
    ensures forall k :: k in options.headers ==> k in h && h[k] == options.headers[k]
    ensures forall k :: k in h ==> k in options.headers || k == ContentType
  {
    (if options.formData then map[] else map[ContentType := Json]) + options.headers
  }

  /** A 403 whose JSON message mentions CSRF: the only answer that is retried. */
  predicate IsCsrfRefusal(r: FetchResult) {
    r.Response? && r.status == 403 && r.body.JsonObject? && r.body.message.Some?
    && Contains(r.body.message.value, RetryMarker)
  }

  /** The token the first request carries: the cached or cookie token, or
      else the one a refresh returns. */
  function InitialToken(stored: Option<string>, cookie: string, initial: TokenFetch): Option<string> {
    var t := ReadToken(stored, cookie);
    if Usable(t) then t else FetchedToken(initial)
  }

  /** A usable first token is also what the cache holds afterwards, so the
      next request reads the same token. */
  lemma InitialTokenIsCached(stored: Option<string>, cookie: string, initial: TokenFetch)
    requires Usable(InitialToken(stored, cookie, initial))
    ensures CachedAfterRead(stored, cookie, initial) == InitialToken(stored, cookie, initial)
  {
  }

  /** `apiFetch`: the response handed back and the headers of each request
      sent, in order. `cookie` is what `getCSRFToken` reads; `initial` is
      the refresh made when no token is cached; `refresh` the one made after
      a CSRF refusal. */
  method ApiFetch(cache: TokenCache, options: RequestOptions, cookie: string, initial: TokenFetch,
                  first: FetchResult, refresh: TokenFetch, retry: FetchResult)
    returns (response: FetchResult, sent: seq<map<string, string>>)
    modifies cache
    ensures 1 <= |sent| <= 2
    ensures |sent| == 2 <==> IsCsrfRefusal(first) && Usable(FetchedToken(refresh))
    ensures |sent| == 1 ==> response == first
    ensures |sent| == 2 ==> response == retry
    ensures var t := InitialToken(old(cache.csrfToken), cookie, initial);
            (Usable(t) ==> sent[0] == BaseHeaders(options)[CsrfHeader := t.value])
            && (!Usable(t) ==> sent[0] == BaseHeaders(options))
    ensures |sent| == 2 ==> sent[1] == sent[0][CsrfHeader := FetchedToken(refresh).value]
    ensures !IsCsrfRefusal(first) ==> cache.csrfToken == CachedAfterRead(old(cache.csrfToken), cookie, initial)
    ensures IsCsrfRefusal(first) ==>
              cache.csrfToken == StoredAfterFetch(CachedAfterRead(old(cache.csrfToken), cookie, initial), refresh)
    ensures |sent| == 2 ==> cache.csrfToken == FetchedToken(refresh)
  {
    var csrfToken := cache.GetCsrfToken(cookie);
    if !Usable(csrfToken) {
      csrfToken := cache.FetchCsrfToken(initial);
    }
    var headers := BaseHeaders(options);
    if Usable(csrfToken) {
      headers := headers[CsrfHeader := csrfToken.value];
    }
    sent := [headers];
    response := first;
    if first.Response? && first.status == 403 {
      if first.body.JsonObject? && first.body.message.Some? && Contains(first.body.message.value, RetryMarker) {
        var newToken := cache.FetchCsrfToken(refresh);
        if Usable(newToken) {
          headers := headers[CsrfHeader := newToken.value];
          sent := sent + [headers];
          response := retry;
        }
      }
    }
  }

  /** What `apiCall` resolves to. */
  datatype CallResult = Success(data: JsonBody) | Failure(error: string)

  /** `response.ok`. */
  predicate IsOk(status: int) {
    200 <= status <= 299
  }

  /** `${status}` for an integer. */
  function StatusText(status: int): (t: string)
    ensures |t| > 0
  {
    if status < 0 then "-" + NatToString(-status) else NatToString(status)
  }

  /** `apiCall`'s shaping of the response `apiFetch` settled to. */
  function ApiCall(r: FetchResult): (c: CallResult)
    ensures c.Success? <==> r.Response? && r.body.JsonObject? && IsOk(r.status)
    ensures c.Success? ==> c.data == r.body
    ensures r.Response? && r.body.JsonObject? && !IsOk(r.status) && Truthy(r.body.message) ==>
              c == Failure(r.body.message.value)
    ensures r.Response? && r.body.JsonObject? && !IsOk(r.status) && !Truthy(r.body.message) ==>
              c.Failure? && c.error == "Request failed with status " + StatusText(r.status)
    ensures r.NetworkFailure? ==> c == Failure(r.error)
    ensures r.Response? && r.body.NotJson? ==> c == Failure(r.body.parseError)
  {
    match r
    case NetworkFailure(e) => Failure(e)
    case Response(status, body) =>
      match body
      case NotJson(e) => Failure(e)
      case JsonObject(message) =>
        if IsOk(status) then Success(body)
        else Failure(if Truthy(message) then message.value else "Request failed with status " + StatusText(status))
  }

  /** A failed call always reports a non-empty reason when the server
      answered with JSON. */
  lemma FailureExplained(r: FetchResult)
    requires r.Response? && r.body.JsonObject? && !IsOk(r.status)
    ensures ApiCall(r).Failure? && ApiCall(r).error != ""
  {
  }

  /** The server's answer to a request the CSRF guard refuses, as the
      browser receives it: the error envelope with the guard's status. */
  function GuardAnswer(e: HttpError, stack: string, nodeEnv: Option<string>): FetchResult {
    var env := Server.Envelope(Server.Raised(e, stack), nodeEnv);
    Response(env.statusCode, JsonObject(Some(env.message)))
  }

  /** Every refusal of the server's CSRF guard is recognised by the client
      as a CSRF refusal, so the client refreshes its token and retries. */
  lemma GuardRefusalsAreRetried(v: CsrfGuard.Verdict, stack: string, nodeEnv: Option<string>)
    requires v != CsrfGuard.Proceed
    ensures CsrfGuard.VerdictError(v).Some?
    ensures IsCsrfRefusal(GuardAnswer(CsrfGuard.VerdictError(v).value, stack, nodeEnv))
  {
    var e := CsrfGuard.VerdictError(v).value;
    GuardMessageMentionsCsrf(v);
    Server.EnvelopeKeepsHandledError(e, stack, nodeEnv);
    assert GuardAnswer(e, stack, nodeEnv) == Response(403, JsonObject(Some(e.message)));
  }

  /** Each of the guard's three messages contains "CSRF". */
  lemma GuardMessageMentionsCsrf(v: CsrfGuard.Verdict)
    requires v != CsrfGuard.Proceed
    ensures Contains(CsrfGuard.VerdictError(v).value.message, RetryMarker)
  {
    match v
    case Missing => LeadingMarker(CsrfGuard.MissingMessage);
    case NotFound => LeadingMarker(CsrfGuard.NotFoundMessage);
    case Invalid => MarkerAfterInvalid(CsrfGuard.InvalidMessage);
  }

  lemma LeadingMarker(m: string)
    requires m == CsrfGuard.MissingMessage || m == CsrfGuard.NotFoundMessage
    ensures Contains(m, RetryMarker)
  {
    assert m[0] == 'C' && m[1] == 'S' && m[2] == 'R' && m[3] == 'F';
    MarkerAt(m, 0);
  }

  lemma MarkerAfterInvalid(m: string)
    requires m == CsrfGuard.InvalidMessage
    ensures Contains(m, RetryMarker)
  {
    assert m[8] == 'C' && m[9] == 'S' && m[10] == 'R' && m[11] == 'F';
    MarkerAt(m, 8);
  }

  lemma MarkerAt(s: string, i: int)
    requires 0 <= i <= |s| - 4
    requires s[i] == 'C' && s[i + 1] == 'S' && s[i + 2] == 'R' && s[i + 3] == 'F'
    ensures Contains(s, RetryMarker)
  {
    assert s[i..i + 4] == RetryMarker;
    assert OccursAt(s, RetryMarker, i);
  }

  /** The admin gate's 403 does not mention CSRF, so it is never retried. */
  lemma AdminRefusalIsNotRetried(stack: string, nodeEnv: Option<string>)
    ensures !IsCsrfRefusal(GuardAnswer(HttpError(403, Identity.NotAdmin), stack, nodeEnv))
  {
    var e := HttpError(403, Identity.NotAdmin);
    Server.EnvelopeKeepsHandledError(e, stack, nodeEnv);
    assert 'C' !in Identity.NotAdmin;
    forall i | 0 <= i <= |Identity.NotAdmin| - |RetryMarker|
      ensures !OccursAt(Identity.NotAdmin, RetryMarker, i)
    {
      assert Identity.NotAdmin[i..i + |RetryMarker|][0] == Identity.NotAdmin[i] != RetryMarker[0];
    }
  }
}
