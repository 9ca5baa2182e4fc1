/** The SMART App Launch helpers the form page relies on: the issuer
    normalisation, the base64url padding before `atob`, the launch context read
    from the token response, the session built from it and the expiry test.
    `Date.now()` is a parameter, and so is the decoding of the id token. */
module Smart {
  import opened Common
  import opened Numbers

  datatype Result<T> = Success(value: T) | Failure(error: string)

  // ---------------------------------------------------------------------------
  // `normalizeIss`

  /** `normalizeIss(iss)`: the issuer without its trailing slashes; a missing or
      empty issuer gives `''`. */
  function NormalizeIss(iss: Option<string>): (r: string)
    ensures !Truthy(iss) ==> r == ""
    ensures Truthy(iss) ==>
      |r| <= |iss.value| && r == iss.value[..|r|] && (r == [] || r[|r| - 1] != '/')
      && forall k :: |r| <= k < |iss.value| ==> iss.value[k] == '/'
  {
    if !Truthy(iss) then ""
    else
      StripTrailingSlashesSpec(iss.value);
      StripTrailingSlashes(iss.value)
  }

  lemma NormalizeIssIdempotent(iss: Option<string>)
    ensures NormalizeIss(Some(NormalizeIss(iss))) == NormalizeIss(iss)
  {
    if Truthy(iss) {
      StripTrailingSlashesIdempotent(iss.value);
    }
  }

  // ---------------------------------------------------------------------------
  // base64url (section 5 of RFC 4648) back to base64 before `atob`

  /** The base64 alphabet of section 4 of RFC 4648. */
  predicate Base64Char(c: char) {
    ('A' <= c <= 'Z') || ('a' <= c <= 'z') || ('0' <= c <= '9') || c == '+' || c == '/'
  }

  function FromUrlSafe(c: char): char {
    if c == '-' then '+' else if c == '_' then '/' else c
  }

  function ToUrlSafe(c: char): char {
    if c == '+' then '-' else if c == '/' then '_' else c
  }

  function Repeat(c: char, n: nat): (r: string)
    ensures |r| == n && forall k :: 0 <= k < n ==> r[k] == c
  {
    if n == 0 then [] else [c] + Repeat(c, n - 1)
  }

  /** `(4 - (n % 4)) % 4`. */
  function PadLength(n: nat): (p: nat)
    ensures p < 4 && (n + p) % 4 == 0
  {
    (4 - n % 4) % 4
  }

  /** The string `base64UrlDecode` hands to `atob`: '-' and '_' back to '+' and
      '/', then padded with '=' to a multiple of four characters; the empty input
      stays empty. */
  function Base64UrlToBase64(s: string): (r: string)
    ensures |r| % 4 == 0 && |s| <= |r| < |s| + 4
    ensures forall k :: 0 <= k < |s| ==> r[k] == FromUrlSafe(s[k])
    ensures forall k :: |s| <= k < |r| ==> r[k] == '='
    ensures '-' !in r && '_' !in r
  {
    if s == "" then ""
    else seq(|s|, k requires 0 <= k < |s| => FromUrlSafe(s[k])) + Repeat('=', PadLength(|s|))
  }

  /** `s.replace(/=+$/g, '')`. */
  function StripPadding(s: string): (r: string)
    ensures |r| <= |s| && r == s[..|r|]
    ensures forall k :: |r| <= k < |s| ==> s[k] == '='
    ensures r == [] || r[|r| - 1] != '='
  {
    if |s| > 0 && s[|s| - 1] == '=' then StripPadding(s[..|s| - 1]) else s
  }

  /** What `base64UrlEncode` makes of the output of `btoa`: '+' and '/' to '-'
      and '_', the padding dropped. */
  function Base64ToUrl(b: string): string {
    StripPadding(seq(|b|, k requires 0 <= k < |b| => ToUrlSafe(b[k])))
  }

  /** A padded base64 text: a multiple of four characters, at most two '=' at
      the end and alphabet characters before them. */
  predicate PaddedBase64(b: string, p: nat) {
    p <= 2 && p <= |b| && |b| % 4 == 0
    && (forall k :: 0 <= k < |b| - p ==> Base64Char(b[k]))
    && (forall k :: |b| - p <= k < |b| ==> b[k] == '=')
  }

  lemma StripPaddingOf(t: string, n: nat)
    requires n <= |t| && (n == 0 || t[n - 1] != '=')
    requires forall k :: n <= k < |t| ==> t[k] == '='
    ensures StripPadding(t) == t[..n]
    decreases |t|
  {
    if |t| > n {
      StripPaddingOf(t[..|t| - 1], n);
      assert t[..|t| - 1][..n] == t[..n];
    }
  }

  /** Restoring the padding undoes the base64url encoding: the text `atob` is
      given is the base64 text the encoder started from. */
  lemma Base64UrlRoundTrip(b: string, p: nat)
    requires PaddedBase64(b, p)
    ensures Base64UrlToBase64(Base64ToUrl(b)) == b
  {
    var n := |b| - p;
    var t := seq(|b|, k requires 0 <= k < |b| => ToUrlSafe(b[k]));
    StripPaddingOf(t, n);
    var u := Base64ToUrl(b);
    assert u == t[..n];
    if n == 0 {
      assert b == [];
    } else {
      var r := Base64UrlToBase64(u);
      assert (n + p) % 4 == 0;
      assert |r| == |b|;
      forall k | 0 <= k < |b|
        ensures r[k] == b[k]
      {
        if k < n {
          assert r[k] == FromUrlSafe(ToUrlSafe(b[k]));
        }
      }
    }
  }

  // ---------------------------------------------------------------------------
  // The token response and its launch context

  /** `fhirContext` (or `fhir_context`) as far as the code reads it. An array, as
      later versions of the launch framework send, reads as an object without
      these members. */
  datatype LaunchContext = LaunchContext(patient: Option<string>, encounter: Option<string>, location: Option<string>)

  /** `expires_in`: missing (or `null`), a JSON number or a string. */
  datatype ExpiresIn = ExpiresAbsent | ExpiresNumber(n: Decimal) | ExpiresString(s: string)

  /** The members of the token response the session is built from. */
  datatype TokenResponse = TokenResponse(
    accessToken: Option<string>,        // access_token
    tokenType: Option<string>,          // token_type
    scope: Option<string>,
    expiresIn: ExpiresIn,               // expires_in
    refreshToken: Option<string>,       // refresh_token
    idToken: Option<string>,            // id_token
    needPatientBanner: Option<bool>,    // need_patient_banner
    smartStyleUrl: Option<string>,      // smart_style_url
    patient: Option<string>,
    encounter: Option<string>,
    location: Option<string>,
    fhirContext: Option<LaunchContext>,
    fhirContextSnake: Option<LaunchContext>,  // fhir_context
    fhirUser: Option<string>,
    fhirUserSnake: Option<string>)      // fhir_user

  /** The launch context of the session; `None` is a member that was never set. */
  datatype Context = Context(
    patient: Option<string>,
    encounter: Option<string>,
    location: Option<string>,
    fhirUser: Option<string>,
    user: Option<string>,
    profile: Option<string>)

  const EmptyContext: Context := Context(None, None, None, None, None, None)

  /** `tokenResponse?.fhirContext || tokenResponse?.fhir_context`: an object is
      truthy, so a present `fhirContext` hides `fhir_context` entirely. */
  function ChosenLaunchContext(tr: TokenResponse): Option<LaunchContext> {
    if tr.fhirContext.Some? then tr.fhirContext else tr.fhirContextSnake
  }

  /** A top-level value, else the launch-context one, each only when non-empty. */
  function Prefer(top: Option<string>, fallback: Option<string>): Option<string> {
    if Truthy(top) then top else if Truthy(fallback) then fallback else None
  }

  /** The context `readContextFromToken` fills in. */
  function ContextFromToken(tr: TokenResponse): Context {
    var lc := ChosenLaunchContext(tr);
    Context(
      Prefer(tr.patient, if lc.Some? then lc.value.patient else None),
      Prefer(tr.encounter, if lc.Some? then lc.value.encounter else None),
      Prefer(tr.location, if lc.Some? then lc.value.location else None),
      Prefer(tr.fhirUser, tr.fhirUserSnake),
      None,
      None)
  }

  /** `readContextFromToken(tokenResponse)`: one conditional assignment after the
      other into an empty context. */
  method ReadContextFromToken(tr: TokenResponse) returns (ctx: Context)
    ensures ctx == ContextFromToken(tr)
  {
    ctx := EmptyContext;
    var fhirCtx := if tr.fhirContext.Some? then tr.fhirContext else tr.fhirContextSnake;
    if Truthy(tr.patient) {
      ctx := ctx.(patient := tr.patient);
    }
    if Truthy(tr.encounter) {
      ctx := ctx.(encounter := tr.encounter);
    }
    if Truthy(tr.location) {
      ctx := ctx.(location := tr.location);
    }
    if fhirCtx.Some? && Truthy(fhirCtx.value.patient) && !Truthy(ctx.patient) {
      ctx := ctx.(patient := fhirCtx.value.patient);
    }
    if fhirCtx.Some? && Truthy(fhirCtx.value.encounter) && !Truthy(ctx.encounter) {
      ctx := ctx.(encounter := fhirCtx.value.encounter);
    }
    if fhirCtx.Some? && Truthy(fhirCtx.value.location) && !Truthy(ctx.location) {
      ctx := ctx.(location := fhirCtx.value.location);
    }
    if Truthy(tr.fhirUser) {
      ctx := ctx.(fhirUser := tr.fhirUser);
    }
    if Truthy(tr.fhirUserSnake) && !Truthy(ctx.fhirUser) {
      ctx := ctx.(fhirUser := tr.fhirUserSnake);
    }
  }

  /** The precedence rules: a non-empty top-level member wins over the launch
      context, which is consulted only without it; `fhirUser` wins over
      `fhir_user`; a present `fhirContext` hides `fhir_context` even where it
      lacks the member; the context holds only non-empty values and no `user` or
      `profile` yet. */
  lemma ContextPrecedence(tr: TokenResponse, other: Option<LaunchContext>)
    ensures Truthy(tr.patient) ==> ContextFromToken(tr).patient == tr.patient
    ensures !Truthy(tr.patient) && tr.fhirContext.Some? && Truthy(tr.fhirContext.value.patient) ==>
      ContextFromToken(tr).patient == tr.fhirContext.value.patient
    ensures !Truthy(tr.patient) && tr.fhirContext.None? && tr.fhirContextSnake.Some? && Truthy(tr.fhirContextSnake.value.patient) ==>
      ContextFromToken(tr).patient == tr.fhirContextSnake.value.patient
    ensures Truthy(tr.encounter) ==> ContextFromToken(tr).encounter == tr.encounter
    ensures Truthy(tr.location) ==> ContextFromToken(tr).location == tr.location
    ensures Truthy(tr.fhirUser) ==> ContextFromToken(tr).fhirUser == tr.fhirUser
    ensures !Truthy(tr.fhirUser) ==> ContextFromToken(tr).fhirUser == (if Truthy(tr.fhirUserSnake) then tr.fhirUserSnake else None)
    ensures tr.fhirContext.Some? ==> ContextFromToken(tr.(fhirContextSnake := other)) == ContextFromToken(tr)
    ensures var c := ContextFromToken(tr);
      (c.patient.Some? ==> Truthy(c.patient)) && (c.encounter.Some? ==> Truthy(c.encounter))
      && (c.location.Some? ==> Truthy(c.location)) && (c.fhirUser.Some? ==> Truthy(c.fhirUser))
      && c.user.None? && c.profile.None?
  {
  }

  // ---------------------------------------------------------------------------
  // `Number.parseInt(x, 10)` and the expiry time

  /** `parseInt(s, 10)`: leading whitespace, an optional sign and the longest run
      of decimal digits; `None` (NaN) without a digit. */
  function ParseInt(s: string): Option<int> {
    var t := TrimStart(s);
    if |t| > 0 && t[0] == '-' then Negate(ParseDigits(t[1..]))
    else if |t| > 0 && t[0] == '+' then ParseDigits(t[1..])
    else ParseDigits(t)
  }

  /** The value of the leading digits, if there are any. */
  function ParseDigits(u: string): Option<int> {
    var n := DigitRun(u);
    if n == 0 then None else Some(DigitsValue(u[..n]))
  }

  function Negate(v: Option<int>): Option<int> {
    if v.Some? then Some(-v.value) else None
  }

  lemma TrimStartKeeps(s: string)
    requires s != [] && !IsJsWhitespace(s[0])
    ensures TrimStart(s) == s
  {
  }

  lemma ParseDigitsOf(d: string, rest: string)
    requires d != [] && AllDigits(d)
    requires rest == [] || !IsDigit(rest[0])
    ensures ParseDigits(d + rest) == Some(DigitsValue(d))
  {
    DigitRunConcat(d, rest);
    assert (d + rest)[..|d|] == d;
  }

  lemma ParseIntOfDigits(d: string, rest: string)
    requires d != [] && AllDigits(d)
    requires rest == [] || !IsDigit(rest[0])
    ensures ParseInt(d + rest) == Some(DigitsValue(d))
  {
    assert (d + rest)[0] == d[0];
    TrimStartKeeps(d + rest);
    ParseDigitsOf(d, rest);
  }

  lemma ParseIntOfNegativeDigits(d: string, rest: string)
    requires d != [] && AllDigits(d)
    requires rest == [] || !IsDigit(rest[0])
    ensures ParseInt("-" + (d + rest)) == Some(-(DigitsValue(d) as int))
  {
    SignedParts('-', d + rest);
    TrimStartKeeps("-" + (d + rest));
    ParseDigitsOf(d, rest);
  }

  lemma SignedParts(sign: char, u: string)
    ensures ([sign] + u)[0] == sign && ([sign] + u)[1..] == u
  {
  }

  /** An integer written in decimal reads back, whatever non-digit follows it
      (`"3600"`, `"3600.5"`, `"-5s"`). */
  lemma ParseIntDecimal(i: int, rest: string)
    requires rest == [] || !IsDigit(rest[0])
    ensures ParseInt(IntToString(i) + rest) == Some(i)
  {
    var m := if i < 0 then -i else i;
    var d := NatToDigits(m);
    NatToDigitsValue(m);
    if i < 0 {
      ParseIntOfNegativeDigits(d, rest);
      assert IntToString(i) + rest == "-" + (d + rest);
    } else {
      ParseIntOfDigits(d, rest);
    }
  }

  /** `expires_in ?? ''` read by `parseInt`: a number through its string form. */
  function ExpiresValue(e: ExpiresIn): Option<int> {
    match e
    case ExpiresAbsent => ParseInt("")
    case ExpiresNumber(n) => ParseInt(NumberToString(n))
    case ExpiresString(s) => ParseInt(s)
  }

  function Max0(n: int): nat {
    if n < 0 then 0 else n
  }

  /** `expiresAt`: `now + max(0, expires_in) * 1000` milliseconds when the
      lifetime parses, else none. */
  function ExpiresAt(now: int, e: ExpiresIn): (r: Option<int>)
    ensures r.Some? <==> ExpiresValue(e).Some?
    ensures r.Some? ==> r.value >= now
  {
    match ExpiresValue(e)
    case Some(n) => Some(now + Max0(n) * 1000)
    case None => None
  }

  /** A lifetime in seconds, sent as a JSON integer or as its decimal string, gives
      an expiry that many seconds after `now` (none before it for a negative one);
      a missing one gives none. */
  lemma ExpiresAtInteger(now: int, i: int, e: ExpiresIn)
    requires Abs(i) < PlainLimit
    requires e == ExpiresNumber(Decimal(i, 0)) || e == ExpiresString(IntToString(i))
    ensures ExpiresAt(now, e) == Some(now + Max0(i) * 1000)
  {
    if e.ExpiresNumber? {
      ExpiresNumberValue(i);
    } else {
      ExpiresStringValue(i);
    }
  }

  /** A missing lifetime gives no expiry time. */
  lemma ExpiresAtAbsent(now: int)
    ensures ExpiresAt(now, ExpiresAbsent) == None
  {
    assert TrimStart("") == "";
  }

  /** Up to 10^21 a number is written without an exponent. */
  const PlainLimit: nat := 1_000_000_000_000_000_000_000

  lemma {:induction false} Pow10Add(a: nat, b: nat)
    ensures Pow10(a + b) == Pow10(a) * Pow10(b)
  {
    if a > 0 {
      Pow10Add(a - 1, b);
      assert Pow10(a + b) == 10 * Pow10(a - 1 + b);
    }
  }

  lemma PlainLimitIsPow10()
    ensures Pow10(21) == PlainLimit
  {
    assert Pow10(1) == 10;
    assert Pow10(2) == 100;
    assert Pow10(3) == 1000;
    Pow10Add(3, 3);
    Pow10Add(6, 6);
    Pow10Add(12, 6);
    Pow10Add(18, 3);
  }

  lemma ExpiresNumberValue(i: int)
    requires Abs(i) < PlainLimit
    ensures ExpiresValue(ExpiresNumber(Decimal(i, 0))) == Some(i)
  {
    PlainLimitIsPow10();
    IntegerToString(i);
    ExpiresStringValue(i);
  }

  lemma ExpiresStringValue(i: int)
    ensures ExpiresValue(ExpiresString(IntToString(i))) == Some(i)
  {
    ParseIntDecimal(i, "");
    assert IntToString(i) + "" == IntToString(i);
  }

  // ---------------------------------------------------------------------------
  // The session

  /** The launch state saved before the redirect to the authorisation server. */
  datatype Pending = Pending(
    iss: Option<string>,
    launch: Option<string>,
    clientId: Option<string>,
    scope: Option<string>,
    tokenEndpoint: Option<string>)

  /** The claims of a decoded id token that the session uses. */
  datatype IdClaims = IdClaims(fhirUser: Option<string>, profile: Option<string>)

  datatype Session = Session(
    createdAt: int,
    accessToken: string,
    tokenType: string,
    scope: Option<string>,
    expiresAt: Option<int>,
    refreshToken: Option<string>,
    idToken: Option<string>,
    patientBanner: Option<bool>,
    smartStyleUrl: Option<string>,
    context: Context,
    iss: Option<string>,
    launch: Option<string>,
    clientId: Option<string>,
    tokenEndpoint: Option<string>,
    rawResponse: TokenResponse)

  const MissingAccessToken: string := "SMART Token Antwort enthaelt kein access_token."

  /** The context of the session: the one from the token response; without a
      `fhirUser` there, `fhirUser` and `profile` from the id token's claims; then
      `user` from `fhirUser`. */
  function SessionContext(tr: TokenResponse, decodeJwt: string -> Option<IdClaims>): Context {
    var c0 := ContextFromToken(tr);
    var claims := if !Truthy(c0.fhirUser) && Truthy(tr.idToken) then decodeJwt(tr.idToken.value) else None;
    var c1 := if claims.Some? && Truthy(claims.value.fhirUser) then c0.(fhirUser := claims.value.fhirUser) else c0;
    var c2 := if claims.Some? && Truthy(claims.value.profile) then c1.(profile := claims.value.profile) else c1;
    if Truthy(c2.fhirUser) && !Truthy(c2.user) then c2.(user := c2.fhirUser) else c2
  }

  /** `buildSmartSession(pending, tokenResponse)` at time `now`, with the id token
      decoded by `decodeJwt`. */
  method BuildSmartSession(pending: Pending, tr: TokenResponse, now: int, decodeJwt: string -> Option<IdClaims>)
    returns (r: Result<Session>)
    ensures r.Failure? <==> !Truthy(tr.accessToken)
    ensures r.Failure? ==> r.error == MissingAccessToken
    ensures r.Success? ==> var s := r.value;
      && s.createdAt == now
      && s.accessToken == tr.accessToken.value && s.accessToken != ""
      && s.tokenType == Or(tr.tokenType, "Bearer") && s.tokenType != ""
      && s.scope == OrElse(tr.scope, pending.scope)
      && s.expiresAt == ExpiresAt(now, tr.expiresIn)
      && s.refreshToken == (if Truthy(tr.refreshToken) then tr.refreshToken else None)
      && s.idToken == (if Truthy(tr.idToken) then tr.idToken else None)
      && s.patientBanner == tr.needPatientBanner
      && s.smartStyleUrl == (if Truthy(tr.smartStyleUrl) then tr.smartStyleUrl else None)
      && s.context == SessionContext(tr, decodeJwt)
      && s.iss == pending.iss && s.launch == pending.launch
      && s.clientId == pending.clientId && s.tokenEndpoint == pending.tokenEndpoint
      && s.rawResponse == tr
  {
    if !Truthy(tr.accessToken) {
      return Failure(MissingAccessToken);
    }
    var expiresIn := ExpiresValue(tr.expiresIn);
    var expiresAt := if expiresIn.Some? then Some(now + Max0(expiresIn.value) * 1000) else None;
    assert expiresAt == ExpiresAt(now, tr.expiresIn);
    var context := ReadContextFromToken(tr);
    if !Truthy(context.fhirUser) && Truthy(tr.idToken) {
      var decoded := decodeJwt(tr.idToken.value);
      if decoded.Some? && Truthy(decoded.value.fhirUser) {
        context := context.(fhirUser := decoded.value.fhirUser);
      }
      if decoded.Some? && Truthy(decoded.value.profile) {
        context := context.(profile := decoded.value.profile);
      }
    }
    if Truthy(context.fhirUser) && !Truthy(context.user) {
      context := context.(user := context.fhirUser);
    }
    assert context == SessionContext(tr, decodeJwt);
    r := Success(Session(
      now,
      tr.accessToken.value,
      Or(tr.tokenType, "Bearer"),
      OrElse(tr.scope, pending.scope),
      expiresAt,
      if Truthy(tr.refreshToken) then tr.refreshToken else None,
      if Truthy(tr.idToken) then tr.idToken else None,
      tr.needPatientBanner,
      if Truthy(tr.smartStyleUrl) then tr.smartStyleUrl else None,
      context,
      pending.iss,
      pending.launch,
      pending.clientId,
      pending.tokenEndpoint,
      tr));
  }

  /** The user of the session: `user` is `fhirUser` whenever there is one; a
      `fhirUser` of the token response beats the id token's claim, which is read
      only without it; `profile` comes from the id token alone. */
  lemma SessionContextSpec(tr: TokenResponse, decodeJwt: string -> Option<IdClaims>)
    ensures var c := SessionContext(tr, decodeJwt);
      (Truthy(c.fhirUser) ==> c.user == c.fhirUser) && (!Truthy(c.fhirUser) ==> c.user.None?)
    ensures Truthy(tr.fhirUser) ==> SessionContext(tr, decodeJwt).fhirUser == tr.fhirUser
    ensures Truthy(ContextFromToken(tr).fhirUser) ==>
      SessionContext(tr, decodeJwt) == ContextFromToken(tr).(user := ContextFromToken(tr).fhirUser)
    ensures !Truthy(ContextFromToken(tr).fhirUser) && Truthy(tr.idToken) && decodeJwt(tr.idToken.value).Some? && Truthy(decodeJwt(tr.idToken.value).value.fhirUser)
      ==> SessionContext(tr, decodeJwt).fhirUser == decodeJwt(tr.idToken.value).value.fhirUser
    ensures SessionContext(tr, decodeJwt).profile.Some? ==>
      Truthy(tr.idToken) && decodeJwt(tr.idToken.value).Some?
      && SessionContext(tr, decodeJwt).profile == decodeJwt(tr.idToken.value).value.profile
    ensures var c := SessionContext(tr, decodeJwt); var c0 := ContextFromToken(tr);
      c.patient == c0.patient && c.encounter == c0.encounter && c.location == c0.location
  {
  }

  // ---------------------------------------------------------------------------
  // Expiry

  const DefaultSkewMs: int := 60000

  /** `isSessionExpired(session, skewMs)` at time `now`: never without an expiry
      time (a missing one or 0); otherwise once `now` plus the non-negative skew
      reaches it. */
  function IsSessionExpired(session: Option<Session>, now: int, skewMs: int): (r: bool)
    ensures session.None? || session.value.expiresAt.None? || session.value.expiresAt == Some(0) ==> !r
    ensures session.Some? && session.value.expiresAt.Some? && session.value.expiresAt != Some(0) ==>
      (r <==> now + Max0(skewMs) >= session.value.expiresAt.value)
  {
    if session.None? || session.value.expiresAt.None? || session.value.expiresAt.value == 0 then false
    else now + Max0(skewMs) >= session.value.expiresAt.value
  }

  /** The one-argument call `isSessionExpired(session)` takes the default skew of
      one minute: a session with an expiry time counts as expired from one
      minute before that time on. */
  lemma DefaultSkewExpiry(s: Option<Session>, now: int)
    ensures IsSessionExpired(s, now, DefaultSkewMs) <==>
      s.Some? && s.value.expiresAt.Some? && s.value.expiresAt != Some(0) && now >= s.value.expiresAt.value - 60000
  {
  }

  /** An expired session stays expired later on, and with a larger skew. */
  lemma ExpiryMonotone(s: Option<Session>, now1: int, now2: int, skew1: int, skew2: int)
    requires now1 <= now2 && skew1 <= skew2
    ensures IsSessionExpired(s, now1, skew1) ==> IsSessionExpired(s, now2, skew2)
  {
  }

  /** A session built at `now` whose lifetime exceeds the skew is not expired at
      once, and is expired from its expiry time on (its lifetime less the skew
      before it); a negative skew counts as none. */
  lemma FreshSessionExpiry(s: Session, now: int, e: ExpiresIn, skewMs: int, later: int)
    requires s.expiresAt == ExpiresAt(now, e) && ExpiresValue(e).Some?
    requires now + Max0(ExpiresValue(e).value) * 1000 != 0
    ensures Max0(ExpiresValue(e).value) * 1000 > Max0(skewMs) ==> !IsSessionExpired(Some(s), now, skewMs)
    ensures later + Max0(skewMs) >= now + Max0(ExpiresValue(e).value) * 1000 ==> IsSessionExpired(Some(s), later, skewMs)
    ensures IsSessionExpired(Some(s), later, skewMs) == IsSessionExpired(Some(s), later, if skewMs < 0 then 0 else skewMs)
  {
  }
}
