/** Session verification (lib/auth.ts): the token is taken from an
    `Authorization: Bearer <token>` header or, failing that, from a `token`
    cookie; it is checked by the signature library, and the caller's identity
    is read from the first present claim among `userId`, `id` and `_id`.
    Every failure yields "no identity". The signature check is the
    parameter `verify`: it gives the decoded payload of a genuine, unexpired
    token and None otherwise. */
module Auth {
  import opened Base

  /** A JSON value as it can appear in a decoded token payload. A number is
      any finite real (JSON has no NaN); an object is its list of members. */
  datatype Json =
    | JNull
    | JBool(b: bool)
    | JNum(n: real)
    | JStr(s: string)
    | JArray(items: seq<Json>)
    | JObject(members: seq<(string, Json)>)

  /** The payload fields the verifier looks at; None is a missing field.
      `mongoId` stands for the field named `_id`. */
  datatype Payload = Payload(userId: Option<Json>, id: Option<Json>, mongoId: Option<Json>)

  /** JavaScript truthiness of a JSON value. */
  predicate Truthy(v: Json) {
    match v
    case JNull => false
    case JBool(b) => b
    case JNum(n) => n != 0.0
    case JStr(s) => s != ""
    case JArray(_) => true
    case JObject(_) => true
  }

  /** `undefined` or `null`: what the `??` operator skips. */
  predicate Nullish(v: Option<Json>) {
    v.None? || v.value.JNull?
  }

  /** The longest prefix of `s` that does not contain `stop`. */
  function TakeUntil(s: string, stop: char): (r: string)
    ensures |r| <= |s| && r == s[..|r|]
    ensures stop !in r
    ensures |r| < |s| ==> s[|r|] == stop
  {
    if s == [] || s[0] == stop then [] else [s[0]] + TakeUntil(s[1..], stop)
  }

  /** `s.split(sep)` for a one-character separator: the pieces between
      occurrences of `sep`. */
  function Split(s: string, sep: char): (parts: seq<string>)
    ensures |parts| >= 1 && parts[0] == TakeUntil(s, sep)
    decreases |s|
  {
    var first := TakeUntil(s, sep);
    if |first| == |s| then [s] else [first] + Split(s[|first| + 1..], sep)
  }

  const BearerPrefix: string := "Bearer "

  /** The token of the Authorization header: when the header starts with
      exactly "Bearer ", the text after the first space up to the next space
      (`split(" ")[1]`); otherwise none (""). */
  function HeaderToken(header: Option<string>): (token: string)
    ensures !StartsWith(header.GetOr(""), BearerPrefix) ==> token == ""
    ensures StartsWith(header.GetOr(""), BearerPrefix) ==>
      var rest := header.value[|BearerPrefix|..];
      |token| <= |rest| && token == rest[..|token|] && ' ' !in token &&
      (|token| < |rest| ==> rest[|token|] == ' ')
  {
    var h := header.GetOr("");
    if StartsWith(h, BearerPrefix) then TakeUntil(h[|BearerPrefix|..], ' ') else ""
  }

  /** The cookie pattern `(?:^|; )token=([^;]+)` matches with `token=` at
      index `q`: at the start of the header or right after "; ", followed by
      at least one character other than ';'. */
  predicate TokenCookieAt(cookie: string, q: nat) {
    q + 6 < |cookie| && cookie[q..q + 6] == "token=" && cookie[q + 6] != ';' &&
    (q == 0 || (q >= 2 && cookie[q - 2..q] == "; "))
  }

  /** The least index from `from` on where the cookie pattern matches.
      The leftmost match of the regular expression is the one with the least
      such index: the two alternatives start at `q` (for q = 0) and `q - 2`. */
  function FirstTokenCookie(cookie: string, from: nat): (q: Option<nat>)
    ensures q.Some? ==>
      from <= q.value && TokenCookieAt(cookie, q.value) &&
      forall p :: from <= p < q.value ==> !TokenCookieAt(cookie, p)
    ensures q.None? ==> forall p :: from <= p ==> !TokenCookieAt(cookie, p)
    decreases |cookie| - from
  {
    if |cookie| <= from + 6 then None
    else if TokenCookieAt(cookie, from) then Some(from)
    else FirstTokenCookie(cookie, from + 1)
  }

  /** The value the cookie pattern captures: the run of characters after the
      first matching `token=` up to the next ';' or the end. */
  function CookieToken(cookie: string): (token: Option<string>)
    ensures token.None? <==> forall q: nat :: !TokenCookieAt(cookie, q)
    ensures token.Some? ==>
      token.value != "" && ';' !in token.value &&
      exists q: nat :: TokenCookieAt(cookie, q) &&
        (forall p: nat :: p < q ==> !TokenCookieAt(cookie, p)) &&
        q + 6 + |token.value| <= |cookie| &&
        cookie[q + 6..q + 6 + |token.value|] == token.value &&
        (q + 6 + |token.value| == |cookie| || cookie[q + 6 + |token.value|] == ';')
  {
    match FirstTokenCookie(cookie, 0)
    case None => None
    case Some(q) => Some(TakeUntil(cookie[q + 6..], ';'))
  }

  /** The token the verifier checks: the header's, unless that is empty;
      then the cookie's; "" when neither gives one. */
  function ExtractToken(authHeader: Option<string>, cookieHeader: Option<string>): (token: string)
    ensures HeaderToken(authHeader) != "" ==> token == HeaderToken(authHeader)
    ensures HeaderToken(authHeader) == "" ==>
      token == CookieToken(cookieHeader.GetOr("")).GetOr("")
  {
    var fromHeader := HeaderToken(authHeader);
    if fromHeader != "" then fromHeader
    else
      match CookieToken(cookieHeader.GetOr(""))
      case Some(v) => v
      case None => ""
  }

  /** `decoded?.userId ?? decoded?.id ?? decoded?._id` */
  function IdentityClaim(p: Payload): Option<Json> {
    if !Nullish(p.userId) then p.userId
    else if !Nullish(p.id) then p.id
    else p.mongoId
  }

  /** The identity a request carries, or None: no token, a token the
      signature check refuses, or a falsy identity claim. */
  function VerifyToken(authHeader: Option<string>, cookieHeader: Option<string>,
                       verify: string -> Option<Payload>): (identity: Option<Json>)
    ensures identity.Some? ==> Truthy(identity.value)
    ensures ExtractToken(authHeader, cookieHeader) == "" ==> identity.None?
    ensures identity.Some? <==>
      var token := ExtractToken(authHeader, cookieHeader);
      token != "" && verify(token).Some? &&
      IdentityClaim(verify(token).value).Some? &&
      Truthy(IdentityClaim(verify(token).value).value)
    ensures identity.Some? ==>
      identity == IdentityClaim(verify(ExtractToken(authHeader, cookieHeader)).value)
  {
    var token := ExtractToken(authHeader, cookieHeader);
    if token == "" then None
    else
      match verify(token)
      case None => None
      case Some(payload) =>
        var claim := IdentityClaim(payload);
        if claim.Some? && Truthy(claim.value) then claim else None
  }

  /** When the header starts with "Bearer ", its token is the second field of
      `split(" ")`. */
  lemma HeaderTokenIsSecondField(header: string)
    requires StartsWith(header, BearerPrefix)
    ensures |Split(header, ' ')| >= 2 && HeaderToken(Some(header)) == Split(header, ' ')[1]
  {
    var first := TakeUntil(header, ' ');
    assert header[6] == ' ' && header[..6] == "Bearer";
    assert |first| == 6;
    assert header[|first| + 1..] == header[|BearerPrefix|..];
  }

  /** A doubled space after "Bearer" leaves the header token empty, so the
      cookie is consulted. */
  lemma DoubledSpaceFallsBackToCookie(cookieHeader: Option<string>, verify: string -> Option<Payload>)
    ensures HeaderToken(Some("Bearer  x")) == ""
    ensures VerifyToken(Some("Bearer  x"), cookieHeader, verify) ==
            VerifyToken(None, cookieHeader, verify)
  {
    var h := "Bearer  x";
    assert StartsWith(h, BearerPrefix);
    assert h[|BearerPrefix|..][0] == ' ';
  }

  /** A token without spaces, sent as "Bearer <token>", is extracted as is. */
  lemma {:induction false} HeaderRoundTrip(token: string)
    requires ' ' !in token
    ensures HeaderToken(Some(BearerPrefix + token)) == token
  {
    var h := BearerPrefix + token;
    assert StartsWith(h, BearerPrefix);
    assert h[|BearerPrefix|..] == token;
    TakeUntilWhole(token, ' ');
  }

  lemma {:induction false} TakeUntilWhole(s: string, stop: char)
    requires stop !in s
    ensures TakeUntil(s, stop) == s
  {
    if s != [] {
      assert s[0] != stop;
      TakeUntilWhole(s[1..], stop);
    }
  }

  /** A cookie header whose first pair is `token=<v>` yields `v`, whatever
      the pairs after it are. */
  lemma CookieRoundTrip(v: string, rest: string)
    requires v != "" && ';' !in v
    ensures rest == [] || rest[0] == ';' ==> CookieToken("token=" + v + rest) == Some(v)
  {
    var c := "token=" + v + rest;
    assert TokenCookieAt(c, 0);
    assert c[6..] == v + rest;
    if rest == [] || rest[0] == ';' {
      var t := TakeUntil(c[6..], ';');
      assert c[6..] == v + rest;
      assert forall i :: 0 <= i < |v| ==> c[6..][i] == v[i] && c[6..][i] != ';';
      assert rest != [] ==> c[6..][|v|] == rest[0];
      assert |t| == |v|;
      assert t == v;
    }
  }

  /** A non-empty header token decides the outcome: the cookie is not read. */
  lemma HeaderTakesPrecedence(authHeader: Option<string>, cookie1: Option<string>,
                              cookie2: Option<string>, verify: string -> Option<Payload>)
    requires HeaderToken(authHeader) != ""
    ensures VerifyToken(authHeader, cookie1, verify) == VerifyToken(authHeader, cookie2, verify)
  {
  }

  /** A present but falsy `userId` claim ends the search: `id` and `_id` are
      not consulted and there is no identity. */
  lemma FalsyUserIdHasNoFallback(p: Payload, authHeader: Option<string>,
                                 cookieHeader: Option<string>, verify: string -> Option<Payload>)
    requires p.userId == Some(JStr(""))
    requires verify(ExtractToken(authHeader, cookieHeader)) == Some(p)
    ensures VerifyToken(authHeader, cookieHeader, verify).None?
  {
  }
}
