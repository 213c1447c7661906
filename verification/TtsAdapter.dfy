/** The transaction token service adapter: form exactness, binding checks, expiry arithmetic, response. */
module TtsAdapter {
  import opened Text
  import TxnVerifier

  const TRANSACTION_TOKEN_TYPE: string := "urn:ietf:params:oauth:token-type:txn_token"
  const GRANT_TYPE: string := "urn:ietf:params:oauth:grant-type:token-exchange"
  const ACCESS_TOKEN_TYPE: string := "urn:ietf:params:oauth:token-type:access_token"
  const JWT_TOKEN_TYPE: string := "urn:ietf:params:oauth:token-type:jwt"
  const SECOND: int := TxnVerifier.SECOND

  // ---------------------------------------------------------------------------------------------
  // The form: exactly eight names, each with one nonempty unpadded value.

  type Form = map<string, seq<string>>

  const EXACT_FIELDS: set<string> :=
    {"grant_type", "subject_token", "subject_token_type", "actor_token", "actor_token_type", "requested_token_type",
        "audience", "scope"}

  predicate SingleValue(values: seq<string>) {
    |values| == 1 && values[0] != "" && Unpadded(values[0])
  }

  predicate ExactForm(form: Form) {
    form.Keys == EXACT_FIELDS && forall name :: name in form ==> SingleValue(form[name])
  }

  /** The handler's third loop never rejects: eight keys that include the eight names are the eight names. */
  lemma ThirdLoopNeverRejects(form: Form)
    requires |form| == |EXACT_FIELDS| && EXACT_FIELDS <= form.Keys
    ensures form.Keys == EXACT_FIELDS
  {
    assert |form.Keys| == |form|;
    SubsetOfSameSize(EXACT_FIELDS, form.Keys);
  }

  /** The length check and the two loops over the names. */
  method CheckForm(form: Form) returns (ok: bool)
    ensures ok <==> ExactForm(form)
  {
    assert form.Keys == EXACT_FIELDS ==> |form| == |form.Keys| == |EXACT_FIELDS|;
    if |form| != |EXACT_FIELDS| { return false; }
    var names := EXACT_FIELDS;
    while names != {}
      invariant names <= EXACT_FIELDS
      invariant forall n :: n in EXACT_FIELDS - names ==> n in form && SingleValue(form[n])
    {
      var name :| name in names;
      if name !in form { return false; }
      var values := form[name];
      if |values| != 1 { return false; }
      TrimSpaceMeaning(values[0]);
      if values[0] == "" || TrimSpace(values[0]) != values[0] { return false; }
      names := names - {name};
    }
    assert EXACT_FIELDS - names == EXACT_FIELDS;
    names := form.Keys;
    while names != {}
      invariant names <= form.Keys
      invariant form.Keys - names <= EXACT_FIELDS
    {
      var name :| name in names;
      if name !in EXACT_FIELDS { return false; }
      names := names - {name};
    }
    assert form.Keys - names == form.Keys;
    return true;
  }

  // ---------------------------------------------------------------------------------------------
  // Expiry arithmetic.

  /** The negated inner_expiry_binding condition with the upstream bounds checked before it. */
  predicate LifetimeAccepted(maximum: Int64, upstream: Int64, issuedAt: int, expiresAt: int) {
    var signed := TxnVerifier.Sub(expiresAt, issuedAt);
    && 0 < upstream <= maximum
    && !(signed <= 0 || signed > Wrap64(maximum * SECOND) || signed % SECOND != 0 || Wrap64(upstream * SECOND) > signed)
  }

  /** expires_in. */
  function ExpiresIn(issuedAt: int, expiresAt: int): int {
    TxnVerifier.Sub(expiresAt, issuedAt) / SECOND
  }

  /** What a grant promises: the lifetime is whole seconds, within the bound, and not below what was granted
      upstream. */
  predicate Sound(maximum: Int64, upstream: Int64, issuedAt: int, expiresAt: int) {
    && expiresAt - issuedAt == ExpiresIn(issuedAt, expiresAt) * SECOND
    && 0 < upstream <= ExpiresIn(issuedAt, expiresAt) <= maximum
  }

  /** The largest whole number of seconds a Duration holds. */
  const LARGEST_SECONDS: int := 9_223_372_036

  lemma ScaledWithoutWrapping(n: int)
    requires 0 <= n <= LARGEST_SECONDS
    ensures Wrap64(n * SECOND) == n * SECOND
  {
  }

  lemma ScaledBeyondWraps()
    ensures Wrap64((LARGEST_SECONDS + 1) * SECOND) < 0
  {
  }

  /** A saturated difference is no whole number of seconds, so accepted lifetimes are exact. */
  lemma SaturatedLifetimeRejected(maximum: Int64, upstream: Int64, issuedAt: int, expiresAt: int)
    ensures LifetimeAccepted(maximum, upstream, issuedAt, expiresAt) ==>
              TxnVerifier.Sub(expiresAt, issuedAt) == expiresAt - issuedAt == ExpiresIn(issuedAt, expiresAt) * SECOND
  {
    assert MAX_INT64 % SECOND != 0;
  }

  /** Under a bound a Duration can hold, the check decides exactly the promise. */
  lemma LifetimeCheckIsExact(maximum: Int64, upstream: Int64, issuedAt: int, expiresAt: int)
    requires maximum <= LARGEST_SECONDS
    ensures LifetimeAccepted(maximum, upstream, issuedAt, expiresAt) <==> Sound(maximum, upstream, issuedAt, expiresAt)
  {
    if 0 < upstream <= maximum {
      ScaledWithoutWrapping(maximum);
      ScaledWithoutWrapping(upstream);
      if LifetimeAccepted(maximum, upstream, issuedAt, expiresAt) {
        SaturatedLifetimeRejected(maximum, upstream, issuedAt, expiresAt);
      }
    }
  }

  /** A bound the overflow leaves harmless: either none happens or no whole second fits under its result. */
  predicate HarmlessBound(maximum: Int64) {
    maximum <= LARGEST_SECONDS || Wrap64(maximum * SECOND) < SECOND
  }

  /** The condition on the claims' own int64 seconds, as the verifier turns them into instants. */
  predicate ClaimsAccepted(maximum: Int64, upstream: Int64, issuedAt: Int64, expiresAt: Int64) {
    LifetimeAccepted(maximum, upstream, TxnVerifier.UnixInstant(issuedAt), TxnVerifier.UnixInstant(expiresAt))
  }

  /** The promise in the claims' seconds. */
  predicate ClaimsSound(maximum: Int64, upstream: Int64, issuedAt: Int64, expiresAt: Int64) {
    Sound(maximum, upstream, TxnVerifier.UnixInstant(issuedAt), TxnVerifier.UnixInstant(expiresAt))
  }

  /** Under any other bound, every one-second token passes for an upstream answer of some 292 years. */
  lemma OneSecondBreaks(maximum: Int64, issuedAt: Int64)
    requires !HarmlessBound(maximum) && 0 < issuedAt < MAX_INT64 - TxnVerifier.UNIX_TO_INTERNAL
    ensures ClaimsAccepted(maximum, LARGEST_SECONDS + 1, issuedAt, issuedAt + 1)
    ensures !ClaimsSound(maximum, LARGEST_SECONDS + 1, issuedAt, issuedAt + 1)
  {
    ScaledBeyondWraps();
    TxnVerifier.Unwrapped(issuedAt);
    TxnVerifier.Unwrapped(issuedAt + 1);
  }

  /** The constructor bounds MaximumExpiresIn only from below. The promise is kept for every token a verifier can
      accept, which has a positive iat, and every upstream answer if and only if the configured bound is harmless. */
  lemma PromiseKeptExactlyForHarmlessBounds(maximum: Int64)
    ensures HarmlessBound(maximum)
            <==> forall upstream: Int64, issuedAt: Int64, expiresAt: Int64 ::
                   0 < issuedAt && ClaimsAccepted(maximum, upstream, issuedAt, expiresAt) ==>
                     ClaimsSound(maximum, upstream, issuedAt, expiresAt)
  {
    if HarmlessBound(maximum) {
      forall upstream: Int64, issuedAt: Int64, expiresAt: Int64 | ClaimsAccepted(maximum, upstream, issuedAt, expiresAt)
        ensures ClaimsSound(maximum, upstream, issuedAt, expiresAt)
      {
        var iat, exp := TxnVerifier.UnixInstant(issuedAt), TxnVerifier.UnixInstant(expiresAt);
        SaturatedLifetimeRejected(maximum, upstream, iat, exp);
        LifetimeCheckIsExact(maximum, upstream, iat, exp);
      }
    } else {
      var upstream: Int64, issuedAt: Int64, expiresAt: Int64 := LARGEST_SECONDS + 1, 1, 2;
      OneSecondBreaks(maximum, issuedAt);
      assert ClaimsAccepted(maximum, upstream, issuedAt, expiresAt)
             && !ClaimsSound(maximum, upstream, issuedAt, expiresAt);
    }
  }

  /** A concrete configuration that breaks the promise, with a nine-second token whose time window the verifier
      accepts. */
  lemma OverflowingBoundExists()
    ensures var maximum, upstream, issuedAt := 18_446_744_083, 18_446_744_075, 1_700_000_000;
            && ClaimsAccepted(maximum, upstream, issuedAt, issuedAt + 9)
            && !ClaimsSound(maximum, upstream, issuedAt, issuedAt + 9)
            && TxnVerifier.TimeAccepted(issuedAt, issuedAt + 9, TxnVerifier.UnixInstant(issuedAt), 5 * SECOND,
                60 * SECOND)
  {
    TxnVerifier.Unwrapped(1_700_000_000);
    TxnVerifier.Unwrapped(1_700_000_009);
  }

  // ---------------------------------------------------------------------------------------------
  // ServeHTTP.

  datatype Upstream = Upstream(accessToken: string, tokenType: string, issuedTokenType: string, expiresIn: Int64,
      scope: string)

  /** The exchange and the verifier are whatever they answer; a verified token yields its signed claims. */
  datatype Config = Config(
    trustDomain: string, scope: string, endpointPath: string,
    maximumBodyBytes: Int64, maximumTokenBytes: Int64, maximumExpiresIn: Int64,
    exchange: (string, string) -> Option<Upstream>, verify: string -> Option<TxnVerifier.Wire>)

  /** Media type with its parameter count, caller, body length and form: None where the source's parser or reader
      fails. */
  datatype Request = Request(
    isPost: bool, path: string, rawQuery: string, cookies: nat, authorizations: nat, media: Option<(string, nat)>,
    caller: Option<string>, body: Option<nat>, form: Option<Form>)

  datatype Response =
    | Refused(status: int, error: string, reported: Option<string>)
    | Granted(accessToken: string, issuedTokenType: string, tokenType: string, expiresIn: int)

  predicate Addressed(config: Config, r: Request) {
    r.isPost && r.path == config.endpointPath && r.rawQuery == "" && r.cookies == 0 && r.authorizations == 0
  }

  predicate WellAddressed(config: Config, r: Request) {
    && Addressed(config, r)
    && r.media == Some(("application/x-www-form-urlencoded", 0))
    && r.caller.Some? && TrimSpace(r.caller.value) != ""
    && r.body.Some? && r.body.value <= config.maximumBodyBytes
  }

  predicate FormAsks(config: Config, form: Form) {
    && ExactForm(form)
    && form["grant_type"] == [GRANT_TYPE] && form["subject_token_type"] == [ACCESS_TOKEN_TYPE]
    && form["actor_token_type"] == [JWT_TOKEN_TYPE] && form["requested_token_type"] == [TRANSACTION_TOKEN_TYPE]
    && form["audience"] == [config.trustDomain] && form["scope"] == [config.scope]
    && ByteLen(form["subject_token"][0]) <= config.maximumTokenBytes
    && ByteLen(form["actor_token"][0]) <= config.maximumTokenBytes
  }

  predicate UpstreamOk(config: Config, u: Upstream) {
    && u.accessToken != "" && ByteLen(u.accessToken) <= config.maximumTokenBytes && u.tokenType == "Bearer"
    && u.issuedTokenType == ACCESS_TOKEN_TYPE && u.scope == ""
  }

  predicate BoundTo(config: Config, caller: string, w: TxnVerifier.Wire) {
    w.requestingWorkload == caller && w.audience == config.trustDomain && Fields(w.scope) == [config.scope]
  }

  predicate Asks(config: Config, r: Request) {
    WellAddressed(config, r) && r.form.Some? && FormAsks(config, r.form.value)
  }

  lemma FormHasTokens(form: Form)
    requires ExactForm(form)
    ensures forall name :: name in EXACT_FIELDS ==> name in form && |form[name]| == 1
  {
  }

  function Answer(config: Config, form: Form): Option<Upstream>
    requires ExactForm(form)
  {
    FormHasTokens(form);
    config.exchange(form["subject_token"][0], form["actor_token"][0])
  }

  /** A request is granted exactly when it asks properly, the upstream answer is acceptable, and the token in it
      verifies to claims bound to this caller, audience, scope and lifetime. */
  predicate Grants(config: Config, r: Request, u: Upstream, w: TxnVerifier.Wire) {
    && Asks(config, r)
    && Answer(config, r.form.value) == Some(u) && UpstreamOk(config, u)
    && config.verify(u.accessToken) == Some(w) && BoundTo(config, r.caller.value, w)
    && LifetimeAccepted(config.maximumExpiresIn, u.expiresIn, TxnVerifier.UnixInstant(w.issuedAt),
        TxnVerifier.UnixInstant(w.expiresAt))
  }

  /** The refusal of a request that does not ask properly: the media type is judged after the address, the caller
      after the media type, and everything else is an invalid request. */
  function EarlyRefusal(config: Config, r: Request): Response {
    if Addressed(config, r) && r.media != Some(("application/x-www-form-urlencoded", 0))
    then Refused(415, "invalid_request", None)
    else if Addressed(config, r) && (r.caller.None? || TrimSpace(r.caller.value) == "")
    then Refused(401, "invalid_client", None)
    else Refused(400, "invalid_request", None)
  }

  /** The stage an asking request stops at: the first of the source's checks that fails. */
  function StopsAt(config: Config, r: Request): Option<string>
    requires Asks(config, r)
  {
    var answer := Answer(config, r.form.value);
    if answer.None? then Some("upstream_exchange")
    else if !(UpstreamOk(config, answer.value) && 0 < answer.value.expiresIn <= config.maximumExpiresIn)
        then Some("upstream_response")
    else
      var claims := config.verify(answer.value.accessToken);
      if claims.None? then Some("inner_verification")
      else if claims.value.requestingWorkload != r.caller.value then Some("inner_workload_binding")
      else if claims.value.audience != config.trustDomain then Some("inner_audience_binding")
      else if Fields(claims.value.scope) != [config.scope] then Some("inner_scope_binding")
      else if !LifetimeAccepted(config.maximumExpiresIn, answer.value.expiresIn,
                                TxnVerifier.UnixInstant(claims.value.issuedAt),
                                TxnVerifier.UnixInstant(claims.value.expiresAt))
      then Some("inner_expiry_binding")
      else None
  }

  method CheckAsks(config: Config, form: Form) returns (ok: bool)
    requires ExactForm(form)
    ensures ok <==> FormAsks(config, form)
  {
    FormHasTokens(form);
    if form["grant_type"][0] != GRANT_TYPE || form["subject_token_type"][0] != ACCESS_TOKEN_TYPE { return false; }
    if form["actor_token_type"][0] != JWT_TOKEN_TYPE
       || form["requested_token_type"][0] != TRANSACTION_TOKEN_TYPE { return false; }
    if form["audience"][0] != config.trustDomain || form["scope"][0] != config.scope { return false; }
    return ByteLen(form["subject_token"][0]) <= config.maximumTokenBytes
    && ByteLen(form["actor_token"][0]) <= config.maximumTokenBytes;
  }

  method CheckRequest(config: Config, r: Request) returns (refusal: Option<Response>)
    ensures refusal.None? <==> Asks(config, r)
    ensures refusal.Some? ==> refusal.value == EarlyRefusal(config, r)
  {
    if !r.isPost || r.path != config.endpointPath || r.rawQuery != "" || r.cookies != 0 || r.authorizations != 0 {
      return Some(Refused(400, "invalid_request", None));
    }
    if r.media.None? || r.media.value.0 != "application/x-www-form-urlencoded" || r.media.value.1 != 0 {
      return Some(Refused(415, "invalid_request", None));
    }
    if r.caller.None? || TrimSpace(r.caller.value) == "" { return Some(Refused(401, "invalid_client", None)); }
    if r.body.None? || r.body.value > config.maximumBodyBytes { return Some(Refused(400, "invalid_request", None)); }
    if r.form.None? { return Some(Refused(400, "invalid_request", None)); }
    var form := r.form.value;
    var exact := CheckForm(form);
    if !exact { return Some(Refused(400, "invalid_request", None)); }
    FormHasTokens(form);
    var asks := CheckAsks(config, form);
    if !asks { return Some(Refused(400, "invalid_request", None)); }
    return None;
  }

  method ServeHttp(config: Config, r: Request) returns (response: Response)
    ensures response.Granted? <==> exists u, w :: Grants(config, r, u, w)
    ensures forall u, w :: Grants(config, r, u, w) ==>
              response == Granted(u.accessToken, TRANSACTION_TOKEN_TYPE, "N_A",
                                  ExpiresIn(TxnVerifier.UnixInstant(w.issuedAt), TxnVerifier.UnixInstant(w.expiresAt)))
    ensures !Asks(config, r) ==> response == EarlyRefusal(config, r)
    ensures response.Refused? && Asks(config, r) ==>
              && response.status == 502 && response.reported == StopsAt(config, r)
              && response.error == if response.reported == Some("upstream_exchange") then "temporarily_unavailable"
                  else "server_error"
  {
    var refusal := CheckRequest(config, r);
    if refusal.Some? { return refusal.value; }
    FormHasTokens(r.form.value);
    var answer := config.exchange(r.form.value["subject_token"][0], r.form.value["actor_token"][0]);
    if answer.None? { return Refused(502, "temporarily_unavailable", Some("upstream_exchange")); }
    var u := answer.value;
    if u.accessToken == "" || ByteLen(u.accessToken) > config.maximumTokenBytes || u.tokenType != "Bearer"
       || u.issuedTokenType != ACCESS_TOKEN_TYPE || u.expiresIn <= 0 || u.expiresIn > config.maximumExpiresIn
       || u.scope != "" {
      return Refused(502, "server_error", Some("upstream_response"));
    }
    var claims := config.verify(u.accessToken);
    if claims.None? { return Refused(502, "server_error", Some("inner_verification")); }
    var w := claims.value;
    if w.requestingWorkload != r.caller.value { return Refused(502, "server_error", Some("inner_workload_binding")); }
    if w.audience != config.trustDomain { return Refused(502, "server_error", Some("inner_audience_binding")); }
    if |Fields(w.scope)| != 1 || Fields(w.scope)[0] != config.scope {
      return Refused(502, "server_error", Some("inner_scope_binding"));
    }
    var signed := TxnVerifier.Sub(TxnVerifier.UnixInstant(w.expiresAt), TxnVerifier.UnixInstant(w.issuedAt));
    if signed <= 0 || signed > Wrap64(config.maximumExpiresIn * SECOND) || signed % SECOND != 0
       || Wrap64(u.expiresIn * SECOND) > signed {
      return Refused(502, "server_error", Some("inner_expiry_binding"));
    }
    assert Grants(config, r, u, w);
    return Granted(u.accessToken, TRANSACTION_TOKEN_TYPE, "N_A", signed / SECOND);
  }

  /** With a bound a Duration can hold, and a verifier that applied the strict claim checks, a grant names the
      claims' own lifetime: 0 < upstream <= exp - iat = expires_in <= the bound. */
  lemma GrantedLifetime(config: Config, r: Request, u: Upstream, w: TxnVerifier.Wire, checks: TxnVerifier.Config,
      now: int)
    requires Grants(config, r, u, w) && config.maximumExpiresIn <= LARGEST_SECONDS
    requires TxnVerifier.ValidConfig(checks) && TxnVerifier.SaneClock(now) && IsInt64(w.issuedAt)
             && IsInt64(w.expiresAt)
    requires TxnVerifier.Valid(checks, now, w)
    ensures r.form.value.Keys == EXACT_FIELDS
    ensures 0 < u.expiresIn <= w.expiresAt - w.issuedAt <= config.maximumExpiresIn
    ensures ExpiresIn(TxnVerifier.UnixInstant(w.issuedAt), TxnVerifier.UnixInstant(w.expiresAt))
        == w.expiresAt - w.issuedAt
  {
    LifetimeCheckIsExact(config.maximumExpiresIn, u.expiresIn, TxnVerifier.UnixInstant(w.issuedAt),
        TxnVerifier.UnixInstant(w.expiresAt));
    TxnVerifier.Unwrapped(w.issuedAt);
    TxnVerifier.Unwrapped(w.expiresAt);
  }
}
