/** The browser side of the CSRF protocol (client/src/helpers/csrf.js): the
    module-level `csrfToken` variable, the cookie lookup, and the three ways
    a token is obtained. `document.cookie` is passed in as the string it
    reads at that moment, and a call to `/csrf-token` as its outcome. */
module ClientCsrf {
  import opened Wrappers
  import opened Text

  const CsrfCookie := "csrf_token"
  const CsrfHeader := "X-CSRF-Token"

  /** The first position where `sep` occurs in `s`, or -1. */
  function Find(s: string, sep: string): (i: int)
    requires |sep| > 0
    ensures i == -1 || 0 <= i <= |s| - |sep|
    decreases |s|
  {
    if |s| < |sep| then -1
    else if s[..|sep|] == sep then 0
    else
      var k := Find(s[1..], sep);
      if k == -1 then -1 else k + 1
  }

  /** Dropping the first character moves every later occurrence one place
      to the left. */
  lemma OccursShift(s: string, sep: string, j: int)
    requires |s| > 0 && 0 < j
    ensures OccursAt(s, sep, j) <==> OccursAt(s[1..], sep, j - 1)
  {
    if j <= |s| - |sep| {
      assert s[1..][j - 1..j - 1 + |sep|] == s[j..j + |sep|];
    }
  }

  /** A position `Find` returns is an occurrence. */
  lemma {:induction false} FindOccurs(s: string, sep: string)
    requires |sep| > 0 && Find(s, sep) >= 0
    ensures OccursAt(s, sep, Find(s, sep))
    decreases |s|
  {
    if |s| >= |sep| && s[..|sep|] != sep {
      FindOccurs(s[1..], sep);
      OccursShift(s, sep, Find(s, sep));
    }
  }

  /** No occurrence comes before the position `Find` returns, and there is
      none at all when it returns -1. */
  lemma {:induction false} FindBefore(s: string, sep: string, j: int)
    requires |sep| > 0 && 0 <= j
    requires Find(s, sep) == -1 || j < Find(s, sep)
    ensures !OccursAt(s, sep, j)
    decreases |s|
  {
    if |s| >= |sep| && s[..|sep|] != sep && j > 0 {
      FindBefore(s[1..], sep, j - 1);
      OccursShift(s, sep, j);
    }
  }

  /** Pieces glued back together with `sep` between them. */
  function JoinWith(parts: seq<string>, sep: string): string {
    if parts == [] then []
    else if |parts| == 1 then parts[0]
    else parts[0] + sep + JoinWith(parts[1..], sep)
  }

  /** Joining a first piece onto at least one more puts `sep` between. */
  lemma JoinCons(x: string, tail: seq<string>, sep: string)
    requires |tail| >= 1
    ensures JoinWith([x] + tail, sep) == x + sep + JoinWith(tail, sep)
  {
    assert ([x] + tail)[1..] == tail;
  }

  /** `s.split(sep)` for a non-empty separator: cut at each occurrence,
      scanning from the left, never reusing the characters of a cut. */
  function Split(s: string, sep: string): (parts: seq<string>)
    requires |sep| > 0
    ensures |parts| >= 1
    decreases |s|
  {
    var i := Find(s, sep);
    if i < 0 then [s] else [s[..i]] + Split(s[i + |sep|..], sep)
  }

  /** A split at a found separator: the text before it, then the split of
      the rest. */
  lemma SplitFound(s: string, sep: string)
    requires |sep| > 0 && Find(s, sep) >= 0
    ensures var n := Find(s, sep);
            Split(s, sep) == [s[..n]] + Split(s[n + |sep|..], sep)
  {
  }

  /** The pieces of a split join back to the input. */
  lemma {:induction false} SplitJoin(s: string, sep: string)
    requires |sep| > 0
    ensures JoinWith(Split(s, sep), sep) == s
    decreases |s|
  {
    var i := Find(s, sep);
    if i >= 0 {
      FindOccurs(s, sep);
      var rest := s[i + |sep|..];
      var tail := Split(rest, sep);
      SplitJoin(rest, sep);
      JoinCons(s[..i], tail, sep);
      assert s == s[..i] + s[i..i + |sep|] + rest;
    }
  }

  /** No piece of a split contains the separator. */
  lemma {:induction false} SplitPartsClean(s: string, sep: string)
    requires |sep| > 0
    ensures forall k :: 0 <= k < |Split(s, sep)| ==> !Contains(Split(s, sep)[k], sep)
    decreases |s|
  {
    var i := Find(s, sep);
    if i < 0 {
      forall j | 0 <= j <= |s| - |sep|
        ensures !OccursAt(s, sep, j)
      {
        FindBefore(s, sep, j);
      }
    } else {
      var rest := s[i + |sep|..];
      SplitPartsClean(rest, sep);
      PrefixBeforeFirst(s, sep, i);
      var parts := Split(s, sep);
      forall k | 0 <= k < |parts|
        ensures !Contains(parts[k], sep)
      {
        if k > 0 {
          assert parts[k] == Split(rest, sep)[k - 1];
        }
      }
    }
  }

  /** Text before the first occurrence holds no occurrence. */
  lemma PrefixBeforeFirst(s: string, sep: string, i: int)
    requires |sep| > 0 && 0 <= i == Find(s, sep)
    ensures !Contains(s[..i], sep)
  {
    forall j | 0 <= j <= i - |sep|
      ensures !OccursAt(s[..i], sep, j)
    {
      FindBefore(s, sep, j);
      assert s[..i][j..j + |sep|] == s[j..j + |sep|];
    }
  }

  /** `getCookie(name)`: split `"; " + document.cookie` at `"; name="`; when
      that gives exactly two parts, the value is the second part up to its
      first `;`. */
  function GetCookie(cookie: string, name: string): (v: Option<string>)
    ensures v.Some? ==> ';' !in v.value
  {
    var parts := Split(Jar(cookie), Marker(name));
    if |parts| == 2 then FirstSegmentIsPrefix(parts[1]); ValueOf(parts) else None
  }

  /** `` `; ${document.cookie}` ``. */
  function Jar(cookie: string): string {
    "; " + cookie
  }

  /** `` `; ${name}=` ``. */
  function Marker(name: string): (m: string)
    ensures |m| > 0
  {
    "; " + name + "="
  }

  /** `parts.length === 2 ? parts.pop().split(";").shift() : null`. */
  function ValueOf(parts: seq<string>): Option<string> {
    if |parts| == 2 then Some(Split(parts[1], ";")[0]) else None
  }

  /** A value that `getCookie` returns sits right after `; name=` in the
      cookie string and stops before any `;`. */
  lemma CookieValueIsInCookie(cookie: string, name: string, v: string)
    requires GetCookie(cookie, name) == Some(v)
    ensures ';' !in v
    ensures Contains(Jar(cookie), Marker(name) + v)
  {
    var parts := Split(Jar(cookie), Marker(name));
    assert |parts| == 2 && v == Split(parts[1], ";")[0];
    FirstSegmentIsPrefix(parts[1]);
    SecondPartFollowsMarker(Jar(cookie), Marker(name), v);
  }

  /** When a split gives two parts, the separator followed by any prefix of
      the second part occurs in the string. */
  lemma SecondPartFollowsMarker(s: string, sep: string, v: string)
    requires |sep| > 0
    requires var parts := Split(s, sep);
             |parts| == 2 && |v| <= |parts[1]| && parts[1][..|v|] == v
    ensures Contains(s, sep + v)
  {
    var parts := Split(s, sep);
    SplitJoin(s, sep);
    assert JoinWith(parts[1..], sep) == parts[1];
    assert s == parts[0] + sep + parts[1];
    assert s[|parts[0]|..|parts[0]| + |sep + v|] == sep + v;
    assert OccursAt(s, sep + v, |parts[0]|);
  }

  /** The text before the first `;` is a prefix without `;`. */
  lemma FirstSegmentIsPrefix(t: string)
    ensures var v := Split(t, ";")[0];
            ';' !in v && |v| <= |t| && t[..|v|] == v
  {
    var pieces := Split(t, ";");
    var v := pieces[0];
    SplitJoin(t, ";");
    SplitPartsClean(t, ";");
    assert !Contains(v, ";");
    if |pieces| == 1 {
      assert t == v;
    } else {
      assert t == v + ";" + JoinWith(pieces[1..], ";");
    }
    if ';' in v {
      var j :| 0 <= j < |v| && v[j] == ';';
      assert v[j..j + 1] == ";";
      assert OccursAt(v, ";", j);
    }
  }

  /** When `; name=` does not occur, there is no such cookie. */
  lemma AbsentCookie(cookie: string, name: string)
    requires !Contains(Jar(cookie), Marker(name))
    ensures GetCookie(cookie, name) == None
  {
    if Find(Jar(cookie), Marker(name)) >= 0 {
      FindOccurs(Jar(cookie), Marker(name));
    }
  }

  /** A string with an occurrence of `sep` splits into at least two parts. */
  lemma SplitAtOccurrence(s: string, sep: string, i: int)
    requires |sep| > 0 && OccursAt(s, sep, i)
    ensures |Split(s, sep)| >= 2
  {
    FindAtMost(s, sep, i);
  }

  /** `Find` stops at or before any occurrence. */
  lemma FindAtMost(s: string, sep: string, i: int)
    requires |sep| > 0 && OccursAt(s, sep, i)
    ensures 0 <= Find(s, sep) <= i
  {
    if Find(s, sep) == -1 || i < Find(s, sep) {
      FindBefore(s, sep, i);
    }
  }

  /** Two separate occurrences of `; name=` (as when two cookies share the
      name) make `getCookie` return nothing. */
  lemma DuplicateCookie(cookie: string, name: string, i: int, j: int)
    requires var s, sep := Jar(cookie), Marker(name);
             OccursAt(s, sep, i) && OccursAt(s, sep, j) && i + |sep| <= j
    ensures GetCookie(cookie, name) == None
  {
    SplitAtTwo(Jar(cookie), Marker(name), i, j);
  }

  /** Two separate occurrences give at least three pieces. */
  lemma SplitAtTwo(s: string, sep: string, i: int, j: int)
    requires |sep| > 0 && OccursAt(s, sep, i) && OccursAt(s, sep, j) && i + |sep| <= j
    ensures |Split(s, sep)| >= 3
  {
    FindAtMost(s, sep, i);
    var n := Find(s, sep) + |sep|;
    OccursInSuffix(s, sep, n, j);
    SplitAtOccurrence(s[n..], sep, j - n);
    SplitFound(s, sep);
  }

  /** A separator that occurs exactly once cuts the string in two. */
  lemma SplitOnce(s: string, sep: string, k: int)
    requires |sep| > 0 && OccursAt(s, sep, k)
    requires forall i :: OccursAt(s, sep, i) ==> i == k
    ensures Split(s, sep) == [s[..k], s[k + |sep|..]]
  {
    FindOnly(s, sep, k);
    NoneAfterOnly(s, sep, k);
  }

  /** The only occurrence is the one `Find` returns. */
  lemma FindOnly(s: string, sep: string, k: int)
    requires |sep| > 0 && OccursAt(s, sep, k)
    requires forall i :: OccursAt(s, sep, i) ==> i == k
    ensures Find(s, sep) == k
  {
    FindAtMost(s, sep, k);
    FindOccurs(s, sep);
  }

  /** After the only occurrence there is none. */
  lemma NoneAfterOnly(s: string, sep: string, k: int)
    requires |sep| > 0 && OccursAt(s, sep, k)
    requires forall i :: OccursAt(s, sep, i) ==> i == k
    ensures Find(s[k + |sep|..], sep) == -1
  {
    var tail := s[k + |sep|..];
    forall g
      ensures !OccursAt(tail, sep, g)
    {
      NotAfterOnly(s, sep, k, g);
    }
    NotFound(tail, sep);
  }

  lemma NotAfterOnly(s: string, sep: string, k: int, g: int)
    requires |sep| > 0 && 0 <= k <= |s| - |sep|
    requires forall i :: OccursAt(s, sep, i) ==> i == k
    ensures !OccursAt(s[k + |sep|..], sep, g)
  {
    OccursInTail(s, sep, k + |sep|, g);
  }

  /** Without an occurrence, `Find` gives -1. */
  lemma NotFound(s: string, sep: string)
    requires |sep| > 0 && forall g :: !OccursAt(s, sep, g)
    ensures Find(s, sep) == -1
  {
    if Find(s, sep) >= 0 {
      FindOccurs(s, sep);
    }
  }

  /** An occurrence at or after `n` is an occurrence in the suffix from `n`. */
  lemma OccursInSuffix(s: string, sep: string, n: int, j: int)
    requires 0 <= n <= j
    ensures OccursAt(s, sep, j) ==> OccursAt(s[n..], sep, j - n)
  {
    if OccursAt(s, sep, j) {
      assert s[n..][j - n..j - n + |sep|] == s[j..j + |sep|];
    }
  }

  /** The separator sits right after `x`, and `z` follows it. */
  lemma Pieces4(x: string, sep: string, z: string)
    ensures OccursAt(x + sep + z, sep, |x|)
    ensures (x + sep + z)[..|x|] == x && (x + sep + z)[|x| + |sep|..] == z
  {
    var s := x + sep + z;
    assert s[|x|..|x| + |sep|] == sep;
  }

  /** An occurrence in a suffix is an occurrence in the whole string. */
  lemma OccursInTail(s: string, sep: string, n: int, g: int)
    requires 0 <= n <= |s|
    ensures OccursAt(s[n..], sep, g) ==> OccursAt(s, sep, n + g)
  {
    if OccursAt(s[n..], sep, g) {
      assert s[n + g..n + g + |sep|] == s[n..][g..g + |sep|];
    }
  }

  lemma NoSemicolonAt(v: string, y: string, f: int)
    requires ';' !in v && 0 <= f < |v|
    ensures !OccursAt(v + y, ";", f)
  {
    assert (v + y)[f] == v[f];
  }

  /** The text before the first `;` of `v + y` is `v`. */
  lemma FirstSegment(v: string, y: string)
    requires ';' !in v && (y == [] || y[0] == ';')
    ensures Split(v + y, ";")[0] == v
  {
    var s := v + y;
    var f := Find(s, ";");
    if 0 <= f < |v| {
      NoSemicolonAt(v, y, f);
      FindOccurs(s, ";");
    }
    if y == [] {
      assert s == v;
    } else {
      assert s[|v|..|v| + 1] == ";";
      if f == -1 || |v| < f {
        FindBefore(s, ";", |v|);
      }
      assert s[..|v|] == v;
    }
  }

  /** With `name=v` written once in the cookie string and `v` ending at a
      `;` or at the end, `getCookie` returns `v`. */
  lemma PresentCookie(cookie: string, name: string, x: string, v: string, y: string)
    requires Jar(cookie) == x + Marker(name) + v + y
    requires forall i :: OccursAt(Jar(cookie), Marker(name), i) ==> i == |x|
    requires ';' !in v && (y == [] || y[0] == ';')
    ensures GetCookie(cookie, name) == Some(v)
  {
    var s, sep := Jar(cookie), Marker(name);
    Pieces4(x, sep, v + y);
    assert s == x + sep + (v + y);
    SplitOnce(s, sep, |x|);
    FirstSegment(v, y);
  }

  /** A token as `if (token)` sees it. */
  predicate Usable(t: Option<string>) {
    Truthy(t)
  }

  /** The outcome of `fetch(.../csrf-token)` together with the cookie string
      the browser shows afterwards. `Failed` covers a network error, a
      response that is not ok and a body that is not JSON: all three end
      in the same `catch`. */
  datatype TokenFetch =
    | Failed(cookie: string)
    | Fetched(body: Option<string>, header: Option<string>, cookie: string)

  /** The token `fetchCSRFToken` returns. On success the header beats the
      cookie, which beats the body; on failure only the cookie counts. */
  function FetchedToken(o: TokenFetch): (t: Option<string>)
    ensures o.Fetched? && Usable(o.header) ==> t == o.header
    ensures o.Fetched? && !Usable(o.header) && Usable(GetCookie(o.cookie, CsrfCookie)) ==> t == GetCookie(o.cookie, CsrfCookie)
    ensures o.Fetched? && !Usable(o.header) && !Usable(GetCookie(o.cookie, CsrfCookie)) ==> t == o.body
    ensures o.Failed? && Usable(GetCookie(o.cookie, CsrfCookie)) ==> t == GetCookie(o.cookie, CsrfCookie)
    ensures o.Failed? && !Usable(GetCookie(o.cookie, CsrfCookie)) ==> t == None
  {
    var c := GetCookie(o.cookie, CsrfCookie);
    match o
    case Fetched(body, header, _) =>
      if Usable(header) then header else if Usable(c) then c else body
    case Failed(_) =>
      if Usable(c) then c else None
  }

  /** The stored variable after `fetchCSRFToken`: the returned token, except
      that a failure without a cookie leaves the old value in place. */
  function StoredAfterFetch(stored: Option<string>, o: TokenFetch): (s: Option<string>)
    ensures s == FetchedToken(o) || (o.Failed? && s == stored && FetchedToken(o) == None)
    ensures Usable(FetchedToken(o)) ==> s == FetchedToken(o)
  {
    if o.Fetched? || Usable(GetCookie(o.cookie, CsrfCookie)) then FetchedToken(o) else stored
  }

  /** The cached token after `getCSRFToken` and, when that gives no usable
      token, `fetchCSRFToken` with outcome `o`. */
  function CachedAfterRead(stored: Option<string>, cookie: string, o: TokenFetch): Option<string> {
    var t := ReadToken(stored, cookie);
    if Usable(t) then t else StoredAfterFetch(t, o)
  }

  /** The token `getCSRFToken` returns: the cookie when it is usable,
      otherwise the stored variable, whatever it holds. */
  function ReadToken(stored: Option<string>, cookie: string): (t: Option<string>)
    ensures Usable(GetCookie(cookie, CsrfCookie)) ==> t == GetCookie(cookie, CsrfCookie)
    ensures !Usable(GetCookie(cookie, CsrfCookie)) ==> t == stored
  {
    var c := GetCookie(cookie, CsrfCookie);
    if Usable(c) then c else stored
  }

  /** After `setCSRFToken(t)`, `getCSRFToken` answers `t` exactly when no
      usable cookie overrides it, and otherwise the cookie. */
  lemma SetThenRead(t: Option<string>, cookie: string)
    ensures !Usable(GetCookie(cookie, CsrfCookie)) ==> ReadToken(t, cookie) == t
    ensures Usable(GetCookie(cookie, CsrfCookie)) ==> ReadToken(t, cookie) == GetCookie(cookie, CsrfCookie)
  {
  }

  /** When the token endpoint hands out one token `g` in its header and its
      body, and the cookie string shows either no csrf cookie or that same
      token, the client settles on `g` and reads it back. */
  lemma FetchAgreesWithServer(stored: Option<string>, g: string, cookie: string)
    requires g != ""
    requires GetCookie(cookie, CsrfCookie) == None || GetCookie(cookie, CsrfCookie) == Some(g)
    ensures var o := Fetched(Some(g), Some(g), cookie);
            FetchedToken(o) == Some(g)
            && StoredAfterFetch(stored, o) == Some(g)
            && ReadToken(StoredAfterFetch(stored, o), cookie) == Some(g)
  {
  }

  /** The module-level token variable. */
  class TokenCache {
    var csrfToken: Option<string>

    constructor ()
      ensures csrfToken == None
    {
      csrfToken := None;
    }

    /** `getCSRFToken`: a usable cookie wins and is also stored. */
    method GetCsrfToken(cookie: string) returns (t: Option<string>)
      modifies this
      ensures t == ReadToken(old(csrfToken), cookie)
      ensures csrfToken == t
    {
      var cookieToken := GetCookie(cookie, CsrfCookie);
      if Usable(cookieToken) {
        csrfToken := cookieToken;
        return csrfToken;
      }
      return csrfToken;
    }

    /** `setCSRFToken`. */
    method SetCsrfToken(token: Option<string>)
      modifies this
      ensures csrfToken == token
    {
      csrfToken := token;
    }

    /** `fetchCSRFToken`, step by step. */
    method FetchCsrfToken(o: TokenFetch) returns (t: Option<string>)
      modifies this
      ensures t == FetchedToken(o)
      ensures csrfToken == StoredAfterFetch(old(csrfToken), o)
    {
      match o {
        case Fetched(body, header, cookie) =>
          csrfToken := body;
          var cookieToken := GetCookie(cookie, CsrfCookie);
          if Usable(cookieToken) {
            csrfToken := cookieToken;
          }
          if Usable(header) {
            csrfToken := header;
          }
          return csrfToken;
        case Failed(cookie) =>
          var cookieToken := GetCookie(cookie, CsrfCookie);
          if Usable(cookieToken) {
            csrfToken := cookieToken;
            return csrfToken;
          }
          return None;
      }
    }

    /** `fetchWithCSRF`: the headers the request goes out with. The header
        is always present, empty when no token could be had. */
    method FetchWithCsrf(cookie: string, o: TokenFetch, headers: map<string, string>) returns (sent: map<string, string>)
      modifies this
      ensures CsrfHeader in sent
      ensures Usable(ReadToken(old(csrfToken), cookie)) ==> sent[CsrfHeader] == ReadToken(old(csrfToken), cookie).value
      ensures !Usable(ReadToken(old(csrfToken), cookie)) && Usable(FetchedToken(o)) ==> sent[CsrfHeader] == FetchedToken(o).value
      ensures !Usable(ReadToken(old(csrfToken), cookie)) && !Usable(FetchedToken(o)) ==> sent[CsrfHeader] == ""
      ensures forall k :: k in headers && k != CsrfHeader ==> k in sent && sent[k] == headers[k]
      ensures forall k :: k in sent ==> k in headers || k == CsrfHeader
      ensures csrfToken == CachedAfterRead(old(csrfToken), cookie, o)
      ensures sent[CsrfHeader] != "" ==> csrfToken == Some(sent[CsrfHeader])
    {
      var token := GetCsrfToken(cookie);
      if !Usable(token) {
        token := FetchCsrfToken(o);
      }
      sent := headers[CsrfHeader := if Usable(token) then token.value else ""];
    }
  }
}
