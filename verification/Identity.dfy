/** The trimming identity constructors, and the verified identity a request carries. */
module Identity {
  import opened Text
  import TxnVerifier

  datatype RequestIdentity = RequestIdentity(
    user: string, agent: string, instance: string, workload: string, caller: string,
    transactionId: string, purpose: string, scope: seq<string>)

  /** The shape of the single-string constructors: trim, then refuse the empty string. */
  function Trimmed(s: string): Option<string> {
    if TrimSpace(s) == "" then None else Some(TrimSpace(s))
  }

  /** NewWorkloadIdentity. */
  function Workload(id: string): Option<string> {
    var trimmed := TrimSpace(id);
    if !HasPrefix(trimmed, "spiffe://") || |trimmed| == |"spiffe://"| then None else Some(trimmed)
  }

  /** NewAuthorizationContext. */
  function Scopes(scopes: seq<string>): Option<seq<string>> {
    if scopes == [] || exists i :: 0 <= i < |scopes| && TrimSpace(scopes[i]) == "" then None
    else Some(seq(|scopes|, i requires 0 <= i < |scopes| => TrimSpace(scopes[i])))
  }

  /** The constructors the strict middleware applies to verified claims; NewRequestIdentityContext's own checks
      repeat theirs. */
  function Of(w: TxnVerifier.Wire, caller: string): Option<RequestIdentity> {
    var purpose := w.context.target + ":" + w.context.tool;
    if Trimmed(w.subject).None? || Trimmed(w.context.agentId).None? || Trimmed(w.context.instanceId).None?
       || Workload(w.requestingWorkload).None? || Workload(caller).None? || Trimmed(w.transactionId).None?
       || Trimmed(purpose).None? || Scopes(Fields(w.scope)).None? then None
    else Some(RequestIdentity(
      Trimmed(w.subject).value, Trimmed(w.context.agentId).value, Trimmed(w.context.instanceId).value,
      Workload(w.requestingWorkload).value, Workload(caller).value, Trimmed(w.transactionId).value,
      Trimmed(purpose).value, Scopes(Fields(w.scope)).value))
  }

  lemma TrimmedIsIdentity(s: string)
    requires s != "" && TrimSpace(s) == s
    ensures Trimmed(s) == Some(s)
  {
  }

  lemma PurposeIsUnpadded(target: string, tool: string)
    requires target != "" && tool != "" && TrimSpace(target) == target && TrimSpace(tool) == tool
    ensures Trimmed(target + ":" + tool) == Some(target + ":" + tool)
  {
    var purpose := target + ":" + tool;
    TrimSpaceMeaning(target);
    TrimSpaceMeaning(tool);
    assert purpose[0] == target[0] && purpose[|purpose| - 1] == tool[|tool| - 1];
    TrimSpaceMeaning(purpose);
  }

  lemma SpaceFreeScopes(scopes: seq<string>)
    requires scopes != [] && forall i :: 0 <= i < |scopes| ==> scopes[i] != "" && SpaceFree(scopes[i])
    ensures Scopes(scopes) == Some(scopes)
  {
    forall i | 0 <= i < |scopes| ensures TrimSpace(scopes[i]) == scopes[i] {
      TrimSpaceMeaning(scopes[i]);
    }
    assert Scopes(scopes).Some?;
    assert Scopes(scopes).value == scopes;
  }

  /** On claims the verifier accepted the constructors change nothing and can fail only on the two workload
      names, which are checked as URLs but not for padding. */
  lemma VerbatimOnAcceptedClaims(config: TxnVerifier.Config, now: int, w: TxnVerifier.Wire, caller: string)
    requires TxnVerifier.Valid(config, now, w)
    ensures Of(w, caller).Some? <==> Workload(w.requestingWorkload).Some? && Workload(caller).Some?
    ensures Of(w, caller).Some? ==>
              var v := Of(w, caller).value;
              && v.user == w.subject && v.agent == w.context.agentId && v.instance == w.context.instanceId
              && v.transactionId == w.transactionId && v.purpose == w.context.target + ":" + w.context.tool
              && v.scope == Fields(w.scope)
              && (v.workload == w.requestingWorkload <==> Unpadded(w.requestingWorkload))
  {
    TrimmedIsIdentity(w.subject);
    TrimmedIsIdentity(w.transactionId);
    TrimmedIsIdentity(w.context.agentId);
    TrimmedIsIdentity(w.context.instanceId);
    PurposeIsUnpadded(w.context.target, w.context.tool);
    SpaceFreeScopes(Fields(w.scope));
    TrimSpaceMeaning(w.requestingWorkload);
    if Of(w, caller).Some? {
      var v := Of(w, caller).value;
      assert v.workload == TrimSpace(w.requestingWorkload);
    }
  }

  lemma LetterIsBounded(c: char)
    requires 'a' <= c <= 'z'
    ensures TxnVerifier.Bounded([c], 256) && Fields([c]) == [[c]]
  {
    TrimSpaceMeaning([c]);
    AsciiByteLen([c]);
    assert Join([[c]], ' ') == [c];
    FieldsOfJoin([[c]]);
  }

  /** A workload name that parses as a URL though it ends in a blank. */
  const PADDED: string := "spiffe://example.org/a "
  const UNPADDED: string := "spiffe://example.org/a"

  /** A verifier bound to such a workload, and claims for it. */
  const PADDED_CONFIG: TxnVerifier.Config := TxnVerifier.Config(
    "i", "example.org", 0, TxnVerifier.SECOND, 256, 256, 1, {"x"}, map[PADDED := "a"],
    (id, domain) => id == PADDED, c => 0, c => 0)

  const PADDED_CLAIMS: TxnVerifier.Wire := TxnVerifier.Wire(
    "i", "s", "example.org", 1, 2, "t", "x", PADDED, TxnVerifier.Context(1, "a", "i", PADDED, "g", "o"), None, "")

  lemma PaddedTrims()
    ensures Workload(PADDED) == Some(UNPADDED) && PADDED != UNPADDED
  {
    assert |PADDED| == 23 && |"spiffe://"| == 9;
    assert PADDED == UNPADDED + " " && |UNPADDED| == 22 && UNPADDED[21] == 'a' && UNPADDED[0] == 's';
    assert PADDED[..|PADDED| - 1] == UNPADDED;
    assert TrimLeft(PADDED) == PADDED;
    assert TrimRight(UNPADDED) == UNPADDED;
    assert UNPADDED[..9] == "spiffe://";
  }

  lemma PaddedConfigIsValid()
    ensures TxnVerifier.ValidConfig(PADDED_CONFIG)
  {
    LetterIsBounded('x');
    LetterIsBounded('a');
    assert !ContainsAny("x", " \t\r\n");
    assert PADDED in PADDED_CONFIG.bindings;
  }

  lemma PaddedContextIsOk()
    ensures TxnVerifier.ContextOk(PADDED_CONFIG, PADDED_CLAIMS)
  {
    LetterIsBounded('a');
    LetterIsBounded('i');
    LetterIsBounded('g');
    LetterIsBounded('o');
  }

  lemma PaddedIdentityIsOk()
    ensures TxnVerifier.IdentityOk(PADDED_CONFIG, PADDED_CLAIMS)
  {
    LetterIsBounded('s');
    LetterIsBounded('t');
  }

  lemma PaddedScopeIsOk()
    ensures TxnVerifier.Denotes(PADDED_CONFIG, "x", Fields("x"))
  {
    LetterIsBounded('x');
    assert Join(["x"], ' ') == "x";
  }

  lemma PaddedClaimsAreValid()
    ensures TxnVerifier.Valid(PADDED_CONFIG, TxnVerifier.UnixInstant(1), PADDED_CLAIMS)
  {
    PaddedContextIsOk();
    PaddedIdentityIsOk();
    PaddedScopeIsOk();
    TxnVerifier.Unwrapped(1);
    TxnVerifier.Unwrapped(2);
  }

  /** The verifier accepts the padded name, and the identity names another workload. */
  lemma PaddedWorkloadChanges(caller: string)
    requires Workload(caller).Some?
    ensures TxnVerifier.ValidConfig(PADDED_CONFIG)
            && TxnVerifier.Valid(PADDED_CONFIG, TxnVerifier.UnixInstant(1), PADDED_CLAIMS)
    ensures Of(PADDED_CLAIMS, caller).Some?
            && Of(PADDED_CLAIMS, caller).value.workload == UNPADDED != PADDED_CLAIMS.requestingWorkload
  {
    PaddedConfigIsValid();
    PaddedClaimsAreValid();
    PaddedTrims();
    VerbatimOnAcceptedClaims(PADDED_CONFIG, TxnVerifier.UnixInstant(1), PADDED_CLAIMS, caller);
  }
}
