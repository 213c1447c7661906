/** The strict transaction middleware every service puts in front of its handler. */
module StrictMiddleware {
  import opened Text
  import opened Transport
  import Identity
  import TxnVerifier

  // ---------------------------------------------------------------------------------------------
  // Audit events. A token's evidence is its fingerprint; the model keeps the token it stands for.

  datatype EventKind = VerifySucceeded | ToolAllowed | ToolDenied

  datatype Event = Event(
    kind: EventKind, transactionId: string, user: string, agent: string, workload: string, caller: string,
    target: string, tool: string, purpose: string, token: Option<string>)

  /** A sink keeps an event or reports that it could not. */
  class Sink {
    var events: seq<Event>

    constructor ()
      ensures events == []
    {
      events := [];
    }

    method Write(event: Event, available: bool) returns (ok: bool)
      modifies this
      ensures ok == available
      ensures events == if ok then old(events) + [event] else old(events)
    {
      if available { events := events + [event]; }
      return available;
    }
  }

  // ---------------------------------------------------------------------------------------------
  // The middleware.

  /** What the handler behind the middleware finds in the request's context. */
  datatype Context = Context(identity: Identity.RequestIdentity, raw: string, route: SignedRoute)

  function Carried(context: Context): Verified {
    Verified(Some(context.route), Some(context.raw))
  }

  /** A caller set the configuring code may go on changing. */
  class CallerSet {
    var members: set<string>

    constructor (members: set<string>)
      ensures this.members == members
    {
      this.members := members;
    }
  }

  /** Token verification and evidence construction are functions of the token and the service's clock and limits. */
  datatype Checks = Checks(verify: string -> Option<TxnVerifier.Wire>, evidenceOk: (string, TxnVerifier.Wire) -> bool)

  datatype Result = Rejected(status: int) | Passed(context: Context)

  /** A request is admitted with this token and these claims. */
  ghost predicate Admits(callers: set<string>, maximumBytes: int, checks: Checks, h: Header, caller: Option<string>,
      raw: string, w: TxnVerifier.Wire) {
    && Transport.Carries(h, maximumBytes, raw) && checks.verify(raw) == Some(w)
    && caller.Some? && caller.value in callers
    && Identity.Of(w, caller.value).Some? && w.context.target != "" && w.context.tool != "" && checks.evidenceOk(raw, w)
  }

  function ContextOf(raw: string, w: TxnVerifier.Wire, caller: string): Context
    requires Identity.Of(w, caller).Some?
  {
    Context(Identity.Of(w, caller).value, raw, SignedRoute(w.context.target, w.context.tool))
  }

  /** The token is carried and verifies, whoever sends it. */
  ghost predicate Verifies(maximumBytes: int, checks: Checks, h: Header, raw: string) {
    Transport.Carries(h, maximumBytes, raw) && checks.verify(raw).Some?
  }

  function VerifyEvent(service: string, raw: string, w: TxnVerifier.Wire, caller: string): Event {
    Event(VerifySucceeded, w.transactionId, w.subject, w.context.agentId, w.requestingWorkload, caller,
          service, w.context.tool, w.context.target + ":" + w.context.tool, Some(raw))
  }

  class StrictTxnMiddleware {
    const callers: set<string>
    const maximumBytes: int
    const service: string

    constructor (callers: set<string>, maximumBytes: int, service: string)
      ensures this.callers == callers && this.maximumBytes == maximumBytes && this.service == service
    {
      this.callers, this.maximumBytes, this.service := callers, maximumBytes, service;
    }

    /** Handler, up to the call of the next one. */
    method Handle(checks: Checks, header: HeaderMap, caller: Option<string>, sink: Sink?, available: bool)
        returns (r: Result)
      modifies sink
      ensures r.Passed? <==> (sink == null || available)
                             && exists raw, w :: Admits(callers, maximumBytes, checks, header.fields, caller, raw, w)
      ensures forall raw, w :: Admits(callers, maximumBytes, checks, header.fields, caller, raw, w) ==>
                && (r.Passed? ==> r.context == ContextOf(raw, w, caller.value))
                && (sink != null ==>
                  sink.events == old(sink.events) + if available then [VerifyEvent(service, raw, w, caller.value)]
                      else [])
      ensures r.Rejected? ==> r.status in {401, 403, 500}
      ensures r.Rejected? ==>
                (r.status == 500 <==>
                  exists raw, w :: Admits(callers, maximumBytes, checks, header.fields, caller, raw, w))
      ensures r.Rejected? ==> (r.status == 403 <==> (caller.None? || caller.value !in callers)
                                                    && exists raw :: Verifies(maximumBytes, checks, header.fields, raw))
      ensures r.Rejected? && sink != null ==> sink.events == old(sink.events)
    {
      var extracted := ExtractTxnToken(header, maximumBytes);
      if extracted.None? { return Rejected(401); }
      var raw := extracted.value;
      var claims := checks.verify(raw);
      if claims.None? { return Rejected(401); }
      var w := claims.value;
      assert Verifies(maximumBytes, checks, header.fields, raw);
      if caller.None? || caller.value !in callers { return Rejected(403); }
      var route := SignedRoute(w.context.target, w.context.tool);
      var identity := Identity.Of(w, caller.value);
      if identity.None? || route.target == "" || route.tool == "" { return Rejected(401); }
      if !checks.evidenceOk(raw, w) { return Rejected(401); }
      assert Admits(callers, maximumBytes, checks, header.fields, caller, raw, w);
      if sink != null {
        var written := sink.Write(VerifyEvent(service, raw, w, caller.value), available);
        if !written { return Rejected(500); }
      }
      return Passed(Context(identity.value, raw, route));
    }
  }

  /** NewStrictTxnMiddleware copies the caller map: later changes to the argument do not reach the middleware. */
  method NewStrictTxnMiddleware(verifier: Option<Checks>, allowed: CallerSet, maximumBytes: int, service: string)
      returns (m: StrictTxnMiddleware?)
    ensures m != null <==> verifier.Some? && maximumBytes > 0 && allowed.members != {} && TrimSpace(service) != ""
                           && forall c :: c in allowed.members ==> Identity.Workload(c).Some?
    ensures m != null ==> m.callers == allowed.members && m.maximumBytes == maximumBytes && m.service == service
  {
    if verifier.None? || maximumBytes <= 0 || allowed.members == {} || TrimSpace(service) == "" { return null; }
    var callers: set<string> := {};
    var left := allowed.members;
    while left != {}
      invariant left <= allowed.members && callers == allowed.members - left
      invariant forall c :: c in callers ==> Identity.Workload(c).Some?
    {
      var caller :| caller in left;
      if Identity.Workload(caller).None? { return null; }
      callers := callers + {caller};
      left := left - {caller};
    }
    m := new StrictTxnMiddleware(callers, maximumBytes, service);
  }

  /** At most one token and one set of claims can be admitted from a request. */
  lemma AdmissionIsUnique(callers: set<string>, maximumBytes: int, checks: Checks, h: Header, caller: Option<string>,
                          r1: string, w1: TxnVerifier.Wire, r2: string, w2: TxnVerifier.Wire)
    requires Admits(callers, maximumBytes, checks, h, caller, r1, w1)
             && Admits(callers, maximumBytes, checks, h, caller, r2, w2)
    ensures r1 == r2 && w1 == w2
  {
    assert [r1] == h[TXN_TOKEN] == [r2];
    assert [r1][0] == [r2][0];
  }
}
