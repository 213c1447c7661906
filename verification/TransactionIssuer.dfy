/** The strict profile of the issuer plugin, against the verifier that must accept what it signs. */
module TransactionIssuer {
  import opened Text
  import opened TxnVerifier
  import M = TrustedMetadata

  /** java.time.Instant's range in whole epoch seconds; arithmetic beyond it throws. */
  const FIRST_SECOND: int := -31_557_014_167_219_200
  const LAST_SECOND: int := 31_556_889_864_403_199

  predicate IsInstant(n: int) {
    FIRST_SECOND * SECOND <= n < (LAST_SECOND + 1) * SECOND
  }

  type Instant = n: int | IsInstant(n)

  datatype Issuer = Issuer(issuer: string, audience: string, lifetimeSeconds: int, target: string, tool: string,
      scope: string)

  /** Java's bounded. */
  predicate JavaBounded(value: string) {
    !M.IsBlank(value) && M.Utf16Len(value) <= 200 && value == M.Trim(value) && !ContainsAny(value, "\r\n")
  }

  /** The constructor's checks. */
  predicate ValidIssuer(i: Issuer) {
    !M.IsBlank(i.issuer) && !M.IsBlank(i.audience) && 1 <= i.lifetimeSeconds <= 60
    && JavaBounded(i.target) && JavaBounded(i.tool) && JavaBounded(i.scope)
  }

  const SUBJECT := "sub"
  const REQUIRED: set<string> := {SUBJECT, M.AGENT_ID, M.AGENT_INSTANCE_ID, M.WORKLOAD_ID, M.TRANSACTION_ID,
      M.TRANSACTION_PURPOSE}

  predicate AllGiven(attributes: map<string, string>) {
    forall name :: name in REQUIRED ==> M.Given(M.Get(attributes, name))
  }

  predicate HasRequired(attributes: map<string, string>) {
    SUBJECT in attributes && M.AGENT_ID in attributes && M.AGENT_INSTANCE_ID in attributes
    && M.WORKLOAD_ID in attributes
    && M.TRANSACTION_ID in attributes
  }

  lemma GivenIsPresent(attributes: map<string, string>)
    requires AllGiven(attributes)
    ensures HasRequired(attributes)
  {
    assert SUBJECT in REQUIRED && M.AGENT_ID in REQUIRED && M.AGENT_INSTANCE_ID in REQUIRED && M.WORKLOAD_ID in REQUIRED
           && M.TRANSACTION_ID in REQUIRED;
  }

  function Claims(i: Issuer, attributes: map<string, string>, instant: Instant, jwtId: string): (w: Wire)
    requires HasRequired(attributes)
    ensures w.issuedAt * SECOND <= instant < (w.issuedAt + 1) * SECOND
    ensures w.expiresAt == w.issuedAt + i.lifetimeSeconds
  {
    Wire(i.issuer, attributes[SUBJECT], i.audience, instant / SECOND, instant / SECOND + i.lifetimeSeconds,
         attributes[M.TRANSACTION_ID], i.scope, attributes[M.WORKLOAD_ID],
         Context(1, attributes[M.AGENT_ID], attributes[M.AGENT_INSTANCE_ID], attributes[M.WORKLOAD_ID], i.target,
                 i.tool),
         None, jwtId)
  }

  /** issue, up to signing: the claims for an instant in nanoseconds since the Unix epoch, floored to seconds. */
  method Issue(i: Issuer, attributes: map<string, string>, scope: Option<string>, instant: Instant, jwtId: string)
      returns (claims: Option<Wire>)
    ensures claims.Some? <==>
              AllGiven(attributes) && scope == Some(i.scope) && IsInstant(instant + i.lifetimeSeconds * SECOND)
    ensures claims.Some? ==> HasRequired(attributes) && claims.value == Claims(i, attributes, instant, jwtId)
  {
    var names := REQUIRED;
    while names != {}
      invariant names <= REQUIRED
      invariant forall name :: name in REQUIRED - names ==> M.Given(M.Get(attributes, name))
    {
      var name :| name in names;
      if !M.Given(M.Get(attributes, name)) { return None; }
      names := names - {name};
    }
    assert REQUIRED - names == REQUIRED;
    if scope != Some(i.scope) { return None; }
    GivenIsPresent(attributes);
    var expiry := instant + i.lifetimeSeconds * SECOND;
    if !IsInstant(expiry) { return None; }
    var iat, exp := instant / SECOND, expiry / SECOND;
    var context := Context(1, attributes[M.AGENT_ID], attributes[M.AGENT_INSTANCE_ID], attributes[M.WORKLOAD_ID],
        i.target, i.tool);
    return Some(Wire(i.issuer, attributes[SUBJECT], i.audience, iat, exp, attributes[M.TRANSACTION_ID], i.scope,
                     attributes[M.WORKLOAD_ID], context, None, jwtId));
  }

  /** Issuer and verifier configured for one another. */
  predicate Agree(i: Issuer, m: M.Metadata, v: Config) {
    && ValidIssuer(i) && ValidConfig(v)
    && v.issuer == i.issuer && v.trustDomain == i.audience
    && i.scope in v.allowedScopes && SpaceFree(i.scope)
    && i.lifetimeSeconds * SECOND <= v.maximumLifetime
    && forall w :: w in m.bindings ==> w in v.bindings && v.bindings[w] == m.bindings[w]
  }

  /** What the verifier asks of the values that are not configuration. */
  predicate ValuesBounded(v: Config, w: Wire) {
    var max := v.maximumIdentifierBytes;
    && Bounded(w.subject, max) && Bounded(w.transactionId, max) && Bounded(w.context.instanceId, max)
    && Bounded(w.context.target, max) && Bounded(w.context.tool, max) && (w.jwtId != "" ==> Bounded(w.jwtId, max))
    && v.contextJson(w.context) <= v.maximumContextBytes
  }

  /** From the first second of the epoch on, the verifier's clock must be in [iat - skew, exp + skew]. */
  predicate InIssuedWindow(v: Config, w: Wire, now: int) {
    w.issuedAt > 0 && w.issuedAt * SECOND - v.skew <= UnixNow(now) <= w.expiresAt * SECOND + v.skew
  }

  lemma ShortLifetimeWindow(issuedAt: int, lifetime: int, now: int, skew: int, maximumLifetime: int)
    requires FIRST_SECOND <= issuedAt <= LAST_SECOND && 1 <= lifetime <= 60 && lifetime * SECOND <= maximumLifetime
    ensures TimeAccepted(issuedAt, issuedAt + lifetime, now, skew, maximumLifetime)
            <==> issuedAt > 0 && issuedAt * SECOND - skew <= UnixNow(now) <= (issuedAt + lifetime) * SECOND + skew
  {
    Unwrapped(issuedAt);
    Unwrapped(issuedAt + lifetime);
  }

  lemma SingleScopeDenotes(v: Config, scope: string)
    requires ValidConfig(v) && scope in v.allowedScopes && SpaceFree(scope)
    ensures Denotes(v, scope, Fields(scope))
  {
    assert Bounded(scope, v.maximumIdentifierBytes);
    assert Join([scope], ' ') == scope;
    assert Denotes(v, scope, [scope]);
    DenotedListIsFields(v, scope, [scope]);
  }

  lemma FlooredInRange(instant: Instant)
    ensures FIRST_SECOND <= instant / SECOND <= LAST_SECOND
  {
    var seconds := instant / SECOND;
    assert IsInstant(instant);
    assert seconds * SECOND <= instant < (seconds + 1) * SECOND;
  }

  lemma IssuedTimes(i: Issuer, v: Config, derived: map<string, string>, instant: Instant, jwtId: string, now: int)
    requires HasRequired(derived) && 1 <= i.lifetimeSeconds <= 60 && i.lifetimeSeconds * SECOND <= v.maximumLifetime
    ensures var w := Claims(i, derived, instant, jwtId);
            TimeAccepted(w.issuedAt, w.expiresAt, now, v.skew, v.maximumLifetime) <==> InIssuedWindow(v, w, now)
  {
    var w := Claims(i, derived, instant, jwtId);
    FlooredInRange(instant);
    ShortLifetimeWindow(w.issuedAt, i.lifetimeSeconds, now, v.skew, v.maximumLifetime);
  }

  lemma ContextsAgree(i: Issuer, m: M.Metadata, v: Config, derived: map<string, string>, instant: Instant,
      jwtId: string)
    requires Agree(i, m, v) && HasRequired(derived)
    requires derived[M.WORKLOAD_ID] in m.bindings && derived[M.AGENT_ID] == m.bindings[derived[M.WORKLOAD_ID]]
    ensures var w := Claims(i, derived, instant, jwtId); IdentityOk(v, w) && ContextOk(v, w) <==> ValuesBounded(v, w)
  {
    var workload := derived[M.WORKLOAD_ID];
    assert workload in v.bindings && v.bindings[workload] == derived[M.AGENT_ID];
    assert v.isSpiffeId(workload, v.trustDomain) && Bounded(v.bindings[workload], v.maximumIdentifierBytes);
  }

  lemma BoundWorkloadAccepted(i: Issuer, m: M.Metadata, v: Config, derived: map<string, string>, instant: Instant,
      jwtId: string, now: int)
    requires Agree(i, m, v) && HasRequired(derived)
    requires derived[M.WORKLOAD_ID] in m.bindings && derived[M.AGENT_ID] == m.bindings[derived[M.WORKLOAD_ID]]
    ensures var w := Claims(i, derived, instant, jwtId);
            Valid(v, now, w) <==> ValuesBounded(v, w) && InIssuedWindow(v, w, now)
  {
    var w := Claims(i, derived, instant, jwtId);
    SingleScopeDenotes(v, w.scope);
    ContextsAgree(i, m, v, derived, instant, jwtId);
    IssuedTimes(i, v, derived, instant, jwtId, now);
    var inTime := TimeAccepted(w.issuedAt, w.expiresAt, now, v.skew, v.maximumLifetime);
    assert Valid(v, now, w) <==> IdentityOk(v, w) && inTime && ContextOk(v, w);
  }

  lemma DerivedValues(m: M.Metadata, attributes: map<string, string>, instance: Option<string>,
      transaction: Option<string>)
    requires SUBJECT in attributes && M.Derived(m, attributes, instance, transaction).Some?
    ensures var derived := M.Derived(m, attributes, instance, transaction).value;
            && HasRequired(derived)
            && derived[M.WORKLOAD_ID] == attributes[M.WORKLOAD_ID] && derived[M.WORKLOAD_ID] in m.bindings
            && derived[M.AGENT_ID] == m.bindings[derived[M.WORKLOAD_ID]]
            && derived[SUBJECT] == attributes[SUBJECT]
            && derived[M.TRANSACTION_ID] == transaction.value && derived[M.AGENT_INSTANCE_ID] == instance.value
  {
    assert M.WORKLOAD_ID !in M.TRUSTED && SUBJECT !in M.TRUSTED;
  }

  /** Between agreeing configurations, the claims issued for derived attributes are accepted exactly while the
      verifier's clock is in [iat - skew, exp + skew] and the carried values are bounded, where iat is the
      issuing instant floored to a second and exp lies one lifetime later. */
  lemma IssuedClaimsAcceptedExactlyInWindow(i: Issuer, m: M.Metadata, v: Config, attributes: map<string, string>,
                                            instance: Option<string>, transaction: Option<string>, instant: Instant,
                                            jwtId: string, now: int)
    requires Agree(i, m, v) && SUBJECT in attributes
    requires M.Derived(m, attributes, instance, transaction).Some?
    ensures var derived := M.Derived(m, attributes, instance, transaction).value;
            && HasRequired(derived)
            && var w := Claims(i, derived, instant, jwtId);
               Valid(v, now, w) <==> ValuesBounded(v, w) && InIssuedWindow(v, w, now)
  {
    DerivedValues(m, attributes, instance, transaction);
    BoundWorkloadAccepted(i, m, v, M.Derived(m, attributes, instance, transaction).value, instant, jwtId, now);
  }

  /** Printable ASCII with no blank at either end. */
  predicate Plain(value: string, maximum: int) {
    && 1 <= |value| <= maximum && value[0] != ' ' && value[|value| - 1] != ' '
    && forall k :: 0 <= k < |value| ==> 0x20 <= value[k] as int <= 0x7E
  }

  lemma PlainIsBounded(value: string, maximum: int)
    requires Plain(value, maximum)
    ensures Bounded(value, maximum)
  {
    AsciiByteLen(value);
    TrimSpaceMeaning(value);
    forall k | 0 <= k < |value| ensures value[k] !in "\0\r\n" {
    }
  }

  lemma SixPlain(a: string, b: string, c: string, d: string, e: string, f: string, maximum: int)
    requires forall value :: value in [a, b, c, d, e, f] ==> Plain(value, maximum)
    ensures Bounded(a, maximum) && Bounded(b, maximum) && Bounded(c, maximum)
    ensures Bounded(d, maximum) && Bounded(e, maximum) && Bounded(f, maximum)
  {
    var all := [a, b, c, d, e, f];
    assert all[0] == a && all[1] == b && all[2] == c && all[3] == d && all[4] == e && all[5] == f;
    PlainIsBounded(a, maximum);
    PlainIsBounded(b, maximum);
    PlainIsBounded(c, maximum);
    PlainIsBounded(d, maximum);
    PlainIsBounded(e, maximum);
    PlainIsBounded(f, maximum);
  }

  /** With plain values nothing but the clock decides, and the token is good from the very instant of issue. */
  lemma PlainClaimsAcceptedFromIssue(i: Issuer, m: M.Metadata, v: Config, attributes: map<string, string>,
                                     instance: string, transaction: string, instant: Instant, jwtId: string, now: int)
    requires Agree(i, m, v) && SUBJECT in attributes
    requires M.Derived(m, attributes, Some(instance), Some(transaction)).Some?
    requires forall value :: value in [attributes[SUBJECT], instance, transaction, i.target, i.tool, jwtId]
               ==> Plain(value, v.maximumIdentifierBytes)
    requires var workload := attributes[M.WORKLOAD_ID];
             v.contextJson(Context(1, m.bindings[workload], instance, workload, i.target, i.tool))
               <= v.maximumContextBytes
    ensures var derived := M.Derived(m, attributes, Some(instance), Some(transaction)).value;
            && HasRequired(derived)
            && var w := Claims(i, derived, instant, jwtId);
               && (Valid(v, now, w) <==> InIssuedWindow(v, w, now))
               && (SECOND <= instant <= UnixNow(now) <= w.expiresAt * SECOND + v.skew ==> Valid(v, now, w))
  {
    IssuedClaimsAcceptedExactlyInWindow(i, m, v, attributes, Some(instance), Some(transaction), instant, jwtId, now);
    DerivedValues(m, attributes, Some(instance), Some(transaction));
    SixPlain(attributes[SUBJECT], instance, transaction, i.target, i.tool, jwtId, v.maximumIdentifierBytes);
  }

  /** Why plain values: the issuer's own bound lets through targets the verifier refuses. */
  lemma JavaBoundIsLaxer(maximum: int)
    ensures JavaBounded("a\0b") && !Bounded("a\0b", maximum)
    ensures JavaBounded("\U{00A0}a") && !Bounded("\U{00A0}a", maximum)
  {
    var nul, nbsp := "a\0b", "\U{00A0}a";
    assert nul[1] in "\0\r\n" by { assert "\0\r\n"[0] == nul[1]; }
    assert !M.IsJavaSpace(nul[0]) && !M.IsJavaSpace(nbsp[1]);
    TrimSpaceMeaning(nbsp);
    assert IsSpace(nbsp[0]);
    assert nul[1..][1..] == "b" && M.Utf16Len("b") == 1 && M.Utf16Len(nul[1..]) == 2;
    assert nbsp[1..] == "a" && M.Utf16Len("a") == 1;
  }
}
