/** Identity resolution from the `access_token` cookie
    (backend/middleware/authenticate.js and backend/middleware/onlyadmin.js).
    `jwt.verify` is an oracle: it either decodes the token's claims or throws
    one of jsonwebtoken's errors; expiry is the `exp` claim of RFC 7519,
    section 4.1.4. `req.user` is returned instead of being assigned. */
module Identity {
  import opened Wrappers
  import opened Text
  import opened Http

  /** The claims a login signs into the access token. */
  datatype Payload = Payload(id: string, name: string, email: string, avatar: string, role: string)

  /** What `jwt.verify(token, secret)` does with a token. */
  datatype VerifyResult =
    | Decoded(payload: Payload)
    | Expired(message: string)       // TokenExpiredError
    | Malformed(message: string)     // JsonWebTokenError: bad signature or format
    | OtherFailure(message: string)  // any other error, rethrown

  /** A middleware's decision: continue with `req.user` set, or `next(error)`. */
  datatype Gate = Pass(user: Payload) | Reject(error: HttpError)

  const AuthRequired := "Authentication required. Please log in."
  const SessionExpired := "Session expired. Please log in again."
  const InvalidToken := "Invalid token. Please log in again."
  const TokenMissing := "Unauthorized - token missing"
  const NotAdmin := "Unathorized"

  /** `authenticate`: the strict resolver guarding the user and like routes. */
  function Authenticate(accessToken: Option<string>, verify: string -> VerifyResult): (g: Gate)
    ensures !Truthy(accessToken) ==> g == Reject(HttpError(401, AuthRequired))
    ensures g.Pass? <==> Truthy(accessToken) && verify(accessToken.value).Decoded?
    ensures g.Pass? ==> g.user == verify(accessToken.value).payload
    ensures g.Reject? ==> g.error.status == 401 || g.error.status == 500
    ensures g.Reject? && g.error.status == 500 <==>
              Truthy(accessToken) && verify(accessToken.value).OtherFailure?
    ensures Truthy(accessToken) && verify(accessToken.value).Expired? ==>
              g == Reject(HttpError(401, SessionExpired))
    ensures Truthy(accessToken) && verify(accessToken.value).Malformed? ==>
              g == Reject(HttpError(401, InvalidToken))
  {
    if !Truthy(accessToken) then Reject(HttpError(401, AuthRequired))
    else
      match verify(accessToken.value)
      case Decoded(p) => Pass(p)
      case Expired(_) => Reject(HttpError(401, SessionExpired))
      case Malformed(_) => Reject(HttpError(401, InvalidToken))
      case OtherFailure(m) => Reject(HttpError(500, m))
  }

  /** `optionalAuth`: `req.user` is the decoded payload or `null`; it never fails. */
  function OptionalAuth(accessToken: Option<string>, verify: string -> VerifyResult): (user: Option<Payload>)
    ensures user.Some? <==> Truthy(accessToken) && verify(accessToken.value).Decoded?
    ensures user.Some? ==> user.value == verify(accessToken.value).payload
  {
    if Truthy(accessToken) && verify(accessToken.value).Decoded? then
      Some(verify(accessToken.value).payload)
    else
      None
  }

  /** `onlyadmin`: a verified token whose role is "admin". Any exception of
      `jwt.verify`, expiry included, lands in the catch-all 500. */
  function OnlyAdmin(accessToken: Option<string>, verify: string -> VerifyResult): (g: Gate)
    ensures !Truthy(accessToken) ==> g == Reject(HttpError(401, TokenMissing))
    ensures g.Pass? <==> Truthy(accessToken) && verify(accessToken.value).Decoded?
                         && verify(accessToken.value).payload.role == "admin"
    ensures g.Pass? ==> g.user == verify(accessToken.value).payload
    ensures Truthy(accessToken) && verify(accessToken.value).Decoded?
              && verify(accessToken.value).payload.role != "admin"
            ==> g == Reject(HttpError(403, NotAdmin))
    ensures Truthy(accessToken) && !verify(accessToken.value).Decoded? ==> g.Reject? && g.error.status == 500
  {
    if !Truthy(accessToken) then Reject(HttpError(401, TokenMissing))
    else
      match verify(accessToken.value)
      case Decoded(p) => if p.role == "admin" then Pass(p) else Reject(HttpError(403, NotAdmin))
      case Expired(m) => Reject(HttpError(500, m))
      case Malformed(m) => Reject(HttpError(500, m))
      case OtherFailure(m) => Reject(HttpError(500, m))
  }

  /** The soft resolver yields exactly the identity the strict one accepts,
      and anonymous wherever the strict one would fail. */
  lemma OptionalAuthAgreesWithAuthenticate(accessToken: Option<string>, verify: string -> VerifyResult)
    ensures OptionalAuth(accessToken, verify) ==
            (match Authenticate(accessToken, verify)
             case Pass(p) => Some(p)
             case Reject(_) => None)
  {
  }

  /** Passing the admin gate implies passing the strict resolver with the same
      identity, whose role is "admin". */
  lemma OnlyAdminRefinesAuthenticate(accessToken: Option<string>, verify: string -> VerifyResult)
    ensures OnlyAdmin(accessToken, verify).Pass? ==>
              Authenticate(accessToken, verify) == OnlyAdmin(accessToken, verify)
              && OnlyAdmin(accessToken, verify).user.role == "admin"
  {
  }

  /** An expired token is a 401 for `authenticate` with a message distinct from
      the invalid-token one, but a 500 for `onlyadmin`. */
  lemma ExpiredTokenAnswers(accessToken: Option<string>, verify: string -> VerifyResult)
    requires Truthy(accessToken) && verify(accessToken.value).Expired?
    ensures Authenticate(accessToken, verify).error == HttpError(401, SessionExpired)
    ensures SessionExpired != InvalidToken
    ensures OnlyAdmin(accessToken, verify).error.status == 500
  {
  }
}
