/** Claim validation of the strict transaction token verifier, after signature and JSON decoding. Instants are
    nanoseconds since year 1, as the source's time package counts them. */
module TxnVerifier {
  import opened Text

  // ---------------------------------------------------------------------------------------------
  // Time arithmetic.

  const SECOND: int := 1_000_000_000
  const UNIX_TO_INTERNAL: int := 62_135_596_800

  /** time.Unix of whole seconds: the offset addition wraps in int64. */
  function UnixInstant(seconds: int): int {
    Wrap64(seconds + UNIX_TO_INTERNAL) * SECOND
  }

  /** Time.Sub: saturates at the ends of Duration. */
  function Sub(a: int, b: int): (d: int)
    ensures IsInt64(d)
  {
    if a - b > MAX_INT64 then MAX_INT64 else if a - b < MIN_INT64 then MIN_INT64 else a - b
  }

  /** A clock reading between year 1 and some 146 billion years later. */
  predicate SaneClock(now: int) {
    0 <= now < 0x4000_0000_0000_0000 * SECOND
  }

  /** The source's time condition, negated. */
  predicate TimeAccepted(issuedAt: int, expiresAt: int, now: int, skew: int, maximumLifetime: int) {
    var iat, exp := UnixInstant(issuedAt), UnixInstant(expiresAt);
    !(issuedAt <= 0 || expiresAt <= 0 || exp < now - skew || iat > now + skew || !(exp > iat)
    || Sub(exp, iat) > maximumLifetime)
  }

  /** The same in unbounded integers, in nanoseconds since the Unix epoch. */
  predicate InWindow(issuedAt: int, expiresAt: int, unixNow: int, skew: int, maximumLifetime: int) {
    && issuedAt > 0
    && expiresAt * SECOND >= unixNow - skew
    && issuedAt * SECOND <= unixNow + skew
    && 0 < (expiresAt - issuedAt) * SECOND <= maximumLifetime
  }

  function UnixNow(now: int): int {
    now - UNIX_TO_INTERNAL * SECOND
  }

  /** Either the offset does not wrap, or it lands far before year 1. */
  lemma Unwrapped(seconds: int)
    requires IsInt64(seconds)
    ensures UnixInstant(seconds) == (seconds + UNIX_TO_INTERNAL) * SECOND
            || (UnixInstant(seconds) < -0x4000_0000_0000_0000 * SECOND && seconds > MAX_INT64 - UNIX_TO_INTERNAL)
  {
    var n := seconds + UNIX_TO_INTERNAL;
    if n <= MAX_INT64 {
      assert Wrap64(n) == n;
    } else {
      assert Wrap64(n) == n - 0x1_0000_0000_0000_0000;
    }
  }

  /** For every pair of int64 timestamps, wrapping and saturation included, the check decides the unbounded
      condition, provided the lifetime bound is not the largest Duration, where saturation hides the excess. */
  lemma TimeCheckIsExact(issuedAt: int, expiresAt: int, now: int, skew: int, maximumLifetime: int)
    requires IsInt64(issuedAt) && IsInt64(expiresAt) && SaneClock(now)
    requires 0 <= skew <= MAX_INT64 && 0 < maximumLifetime <= MAX_INT64
    ensures maximumLifetime < MAX_INT64 ==>
              (TimeAccepted(issuedAt, expiresAt, now, skew, maximumLifetime) <==>
                InWindow(issuedAt, expiresAt, UnixNow(now), skew, maximumLifetime))
  {
    Unwrapped(issuedAt);
    Unwrapped(expiresAt);
  }

  /** With the largest Duration as bound the lifetime is not limited at all. */
  lemma LargestBoundIsNoBound(issuedAt: int, expiresAt: int, now: int, skew: int)
    requires 0 < issuedAt < expiresAt <= MAX_INT64 - UNIX_TO_INTERNAL && 0 <= skew
    ensures TimeAccepted(issuedAt, expiresAt, now, skew, MAX_INT64)
            <==> expiresAt * SECOND >= UnixNow(now) - skew && issuedAt * SECOND <= UnixNow(now) + skew
  {
    Unwrapped(issuedAt);
    Unwrapped(expiresAt);
  }

  /** The check means the unbounded condition for all timestamps and clocks if and only if the configured bound
      is below the largest Duration. */
  lemma BoundIsEffectiveExactlyBelowLargest(maximumLifetime: int)
    requires 0 < maximumLifetime <= MAX_INT64
    ensures maximumLifetime < MAX_INT64 <==>
            forall issuedAt: Int64, expiresAt: Int64, now, skew :: SaneClock(now) && 0 <= skew <= MAX_INT64 ==>
              (TimeAccepted(issuedAt, expiresAt, now, skew, maximumLifetime)
               <==> InWindow(issuedAt, expiresAt, UnixNow(now), skew, maximumLifetime))
  {
    if maximumLifetime < MAX_INT64 {
      forall issuedAt: Int64, expiresAt: Int64, now, skew | SaneClock(now) && 0 <= skew <= MAX_INT64
        ensures TimeAccepted(issuedAt, expiresAt, now, skew, maximumLifetime)
                <==> InWindow(issuedAt, expiresAt, UnixNow(now), skew, maximumLifetime)
      {
        TimeCheckIsExact(issuedAt, expiresAt, now, skew, maximumLifetime);
      }
    } else {
      var issuedAt: Int64, expiresAt: Int64, now := 1, 10_000_000_000, (1 + UNIX_TO_INTERNAL) * SECOND;
      LargestBoundIsNoBound(issuedAt, expiresAt, now, 0);
      assert SaneClock(now) && !InWindow(issuedAt, expiresAt, UnixNow(now), 0, maximumLifetime);
      assert TimeAccepted(issuedAt, expiresAt, now, 0, maximumLifetime);
    }
  }

  // ---------------------------------------------------------------------------------------------
  // Claims.

  /** tctx.wai. */
  datatype Context = Context(version: int, agentId: string, instanceId: string, workloadId: string, target: string,
      tool: string)

  datatype Wire = Wire(
    issuer: string, subject: string, audience: string, issuedAt: int, expiresAt: int, transactionId: string,
    scope: string, requestingWorkload: string, context: Context, requestContext: Option<string>, jwtId: string)

  /** URL parsing and the length of re-encoded JSON stay uninterpreted. */
  datatype Config = Config(
    issuer: string, trustDomain: string, skew: int, maximumLifetime: int,
    maximumIdentifierBytes: int, maximumContextBytes: int, maximumScopes: int,
    allowedScopes: set<string>, bindings: map<string, string>,
    isSpiffeId: (string, string) -> bool, contextJson: Context -> nat, requestContextJson: string -> nat)

  /** boundedValue. */
  predicate Bounded(value: string, maximum: int) {
    value != "" && ByteLen(value) <= maximum && TrimSpace(value) == value && !ContainsAny(value, "\0\r\n")
  }

  /** NewTxnTokenVerifier's checks on the fields the claim checks read. */
  predicate ValidConfig(config: Config) {
    && 0 <= config.skew <= MAX_INT64 && 0 < config.maximumLifetime <= MAX_INT64
    && config.maximumIdentifierBytes > 0 && config.maximumContextBytes > 0 && config.maximumScopes > 0
    && config.allowedScopes != {} && config.bindings != map[]
    && (forall s :: s in config.allowedScopes
          ==> Bounded(s, config.maximumIdentifierBytes) && !ContainsAny(s, " \t\r\n"))
    && (forall w :: w in config.bindings ==>
          config.isSpiffeId(w, config.trustDomain) && Bounded(config.bindings[w], config.maximumIdentifierBytes))
  }

  predicate IdentityOk(config: Config, w: Wire) {
    var max := config.maximumIdentifierBytes;
    w.issuer == config.issuer && w.audience == config.trustDomain && Bounded(w.subject, max)
    && Bounded(w.transactionId, max)
    && (w.jwtId != "" ==> Bounded(w.jwtId, max))
  }

  predicate ContextOk(config: Config, w: Wire) {
    var max, wai := config.maximumIdentifierBytes, w.context;
    && config.contextJson(wai) <= config.maximumContextBytes
    && wai.version == 1 && config.isSpiffeId(w.requestingWorkload, config.trustDomain)
    && wai.workloadId == w.requestingWorkload
    && Bounded(wai.agentId, max) && Bounded(wai.instanceId, max) && Bounded(wai.target, max) && Bounded(wai.tool, max)
    && w.requestingWorkload in config.bindings && config.bindings[w.requestingWorkload] == wai.agentId
    && (w.requestContext.Some? ==>
          config.requestContextJson(w.requestContext.value) <= config.maximumContextBytes
          && Bounded(w.requestContext.value, max))
  }

  /** The scope claim denotes this list: distinct allowed scopes, not too many, joined by single spaces. */
  predicate Denotes(config: Config, claim: string, scopes: seq<string>) {
    && 1 <= |scopes| <= config.maximumScopes
    && Distinct(scopes)
    && (forall s :: s in scopes ==> s in config.allowedScopes && s != "" && SpaceFree(s))
    && claim == Join(scopes, ' ')
  }

  /** A claim denotes at most one list, and it is the list the accepted claims carry. */
  lemma DenotedListIsFields(config: Config, claim: string, scopes: seq<string>)
    requires Denotes(config, claim, scopes)
    ensures Fields(claim) == scopes
  {
    forall i | 0 <= i < |scopes| ensures scopes[i] != [] && SpaceFree(scopes[i]) { assert scopes[i] in scopes; }
    FieldsOfJoin(scopes);
  }

  /** The loop over the scope claim: accepted exactly when the claim denotes a list of scopes. */
  method CheckScopes(config: Config, claim: string) returns (ok: bool)
    ensures ok <==> Denotes(config, claim, Fields(claim))
    ensures ok <==> exists scopes :: Denotes(config, claim, scopes)
  {
    if scopes :| Denotes(config, claim, scopes) {
      DenotedListIsFields(config, claim, scopes);
    }
    var scopes := Fields(claim);
    if |scopes| == 0 || |scopes| > config.maximumScopes || Join(scopes, ' ') != claim { return false; }
    var seen: set<string> := {};
    for i := 0 to |scopes|
      invariant seen == set s | s in scopes[..i]
      invariant Distinct(scopes[..i])
      invariant forall s :: s in scopes[..i] ==> s in config.allowedScopes
    {
      var scope := scopes[i];
      if scope !in config.allowedScopes { return false; }
      if scope in seen {
        assert scope in scopes[..i];
        return false;
      }
      assert scopes[..i + 1] == scopes[..i] + [scope];
      seen := seen + {scope};
    }
    assert scopes[..|scopes|] == scopes;
    return true;
  }

  /** The verdict in declarative form. */
  predicate Valid(config: Config, now: int, w: Wire) {
    IdentityOk(config, w) && TimeAccepted(w.issuedAt, w.expiresAt, now, config.skew, config.maximumLifetime)
    && Denotes(config, w.scope, Fields(w.scope)) && ContextOk(config, w)
  }

  /** The verdict in unbounded integers: no wrapping or saturation shows, and the scope claim denotes some list. */
  lemma ValidMeaning(config: Config, now: int, w: Wire)
    requires 0 <= config.skew <= MAX_INT64 && 0 < config.maximumLifetime < MAX_INT64
    requires SaneClock(now) && IsInt64(w.issuedAt) && IsInt64(w.expiresAt)
    ensures Valid(config, now, w) <==>
            IdentityOk(config, w) && ContextOk(config, w)
            && InWindow(w.issuedAt, w.expiresAt, UnixNow(now), config.skew, config.maximumLifetime)
            && exists scopes :: Denotes(config, w.scope, scopes)
  {
    TimeCheckIsExact(w.issuedAt, w.expiresAt, now, config.skew, config.maximumLifetime);
    if scopes :| Denotes(config, w.scope, scopes) {
      DenotedListIsFields(config, w.scope, scopes);
    }
  }

  /** The checks on the transaction and request contexts. */
  method CheckContext(config: Config, w: Wire) returns (ok: bool)
    ensures ok <==> ContextOk(config, w)
  {
    var max := config.maximumIdentifierBytes;
    var wai := w.context;
    if config.contextJson(wai) > config.maximumContextBytes { return false; }
    if wai.version != 1 || !config.isSpiffeId(w.requestingWorkload, config.trustDomain)
       || wai.workloadId != w.requestingWorkload
       || !Bounded(wai.agentId, max) || !Bounded(wai.instanceId, max) || !Bounded(wai.target, max)
       || !Bounded(wai.tool, max) {
      return false;
    }
    if w.requestingWorkload !in config.bindings
       || config.bindings[w.requestingWorkload] != wai.agentId { return false; }
    if w.requestContext.Some? {
      if config.requestContextJson(w.requestContext.value) > config.maximumContextBytes
         || !Bounded(w.requestContext.value, max) {
        return false;
      }
    }
    return true;
  }

  /** validateWire, check by check in the source's order. */
  method ValidateWire(config: Config, now: int, w: Wire) returns (ok: bool)
    ensures ok <==> Valid(config, now, w)
  {
    var max := config.maximumIdentifierBytes;
    if w.issuer != config.issuer || w.audience != config.trustDomain || !Bounded(w.subject, max)
       || !Bounded(w.transactionId, max)
       || (w.jwtId != "" && !Bounded(w.jwtId, max)) {
      return false;
    }
    var iat, exp := UnixInstant(w.issuedAt), UnixInstant(w.expiresAt);
    if w.issuedAt <= 0 || w.expiresAt <= 0 || exp < now - config.skew || iat > now + config.skew || !(exp > iat)
       || Sub(exp, iat) > config.maximumLifetime {
      return false;
    }
    var scopes := CheckScopes(config, w.scope);
    if !scopes { return false; }
    ok := CheckContext(config, w);
  }

  /** Accepted claims carry a duplicate-free, allowed, bounded scope list that rejoins to the signed string;
      conversely every such list of white-space-free allowed scopes passes and is recovered unchanged. */
  lemma ScopeListRoundTrip(config: Config, now: int, w: Wire, scopes: seq<string>)
    ensures Valid(config, now, w) ==> Denotes(config, w.scope, Fields(w.scope)) && Join(Fields(w.scope), ' ') == w.scope
    ensures IdentityOk(config, w) && TimeAccepted(w.issuedAt, w.expiresAt, now, config.skew, config.maximumLifetime)
            && ContextOk(config, w) && Denotes(config, w.scope, scopes)
            ==> Valid(config, now, w) && Fields(w.scope) == scopes
  {
    if Denotes(config, w.scope, scopes) { DenotedListIsFields(config, w.scope, scopes); }
  }

  /** An accepted claim that is itself an admitted scope has one field: itself. */
  lemma WholeClaimIsSpaced(config: Config, scope: string)
    requires !ContainsAny(scope, " \t\r\n") && Denotes(config, scope, Fields(scope))
    ensures SpaceFree(scope)
  {
    assert Fields(scope)[0] in Fields(scope);
  }

  /** The constructor rejects a scope only for padding, blanks, tabs, CR, LF and NUL. Of the scopes it admits, an
      accepted claim can carry exactly those without any white space: no accepted claim carries another, and any
      accepted claims stay accepted with this scope alone if and only if it has none. */
  lemma ConfiguredScopeUsableExactlyIfSpaceFree(config: Config, now: int, w: Wire, scope: string)
    requires ValidConfig(config) && scope in config.allowedScopes && Valid(config, now, w)
    ensures scope in Fields(w.scope) ==> SpaceFree(scope)
    ensures Valid(config, now, w.(scope := scope)) <==> SpaceFree(scope)
  {
    assert Bounded(scope, config.maximumIdentifierBytes);
    if SpaceFree(scope) {
      assert Join([scope], ' ') == scope;
      assert Denotes(config, scope, [scope]);
      DenotedListIsFields(config, scope, [scope]);
    } else if Valid(config, now, w.(scope := scope)) {
      WholeClaimIsSpaced(config, scope);
    }
  }

  /** A scope that is admitted and useless: one with a no-break space inside. */
  lemma SpacedScopeIsConfigurableButUseless()
    ensures var scope := "a\U{00A0}b";
            && Bounded(scope, 256) && !ContainsAny(scope, " \t\r\n") && !SpaceFree(scope)
            && forall config, now, w :: Valid(config, now, w) ==> scope !in Fields(w.scope)
  {
    var scope := "a\U{00A0}b";
    TrimSpaceMeaning(scope);
    assert IsSpace(scope[1]) && !SpaceFree(scope);
    assert scope[1..][1..] == "b" && scope[1..][1..][1..] == "";
    assert ByteLen("b") == 1 && ByteLen(scope[1..]) == 3 && ByteLen(scope) == 4;
  }
}
