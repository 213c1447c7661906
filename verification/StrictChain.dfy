/** The strict call chain as a protocol: agent, gateway, MCP server and API over a network whose messages carry
    an authentic caller, with an environment that may send anything else. */
module StrictChain {
  import opened Text
  import opened Transport
  import opened StrictMiddleware
  import Identity
  import McpGateway
  import McpServices
  import TxnVerifier

  const AGENT_ID: string := "spiffe://example.org/agent/demo"
  const GATEWAY_ID: string := "spiffe://example.org/gateway/mcp-strict"
  const MCP_ID: string := "spiffe://example.org/mcp/demo-strict"
  const BOUND: int := 16384

  /** What is fixed in a deployment: the claims a token carries if it verifies at all, where the gateway's one
      target lives, and the gateway's policy. */
  datatype Deployment = Deployment(
    decode: string -> Option<TxnVerifier.Wire>, mcpUrl: McpGateway.Url,
        policy: (Identity.RequestIdentity, string, string) -> bool)

  function DemoTarget(net: Deployment): McpGateway.Target {
    McpGateway.Target(McpServices.DEMO, Some(net.mcpUrl), {McpServices.WHOAMI})
  }

  function Route(net: Deployment, h: Header): Option<McpGateway.Target> {
    McpGateway.Route(McpGateway.Index([DemoTarget(net)]), Some(DemoTarget(net)), h)
  }

  // ---------------------------------------------------------------------------------------------
  // The world.

  datatype Destination = ToGateway | ToMcp | ToApi

  /** A request in transit. Messages stay: any of them may be delivered any number of times, or never. */
  datatype Message = Message(from: string, to: Destination, isPost: bool, header: Header)

  /** A token with the transaction and the route it was admitted for. */
  datatype Grant = Grant(token: string, transactionId: string, route: SignedRoute)

  /** What the services did, in order. GatewayAllowed is an allow event its sink has kept. */
  datatype Entry =
    | GatewayAllowed(grant: Grant, caller: string)
    | McpAccepted(grant: Grant, caller: string)
    | ApiServed(grant: Grant)

  datatype World = World(network: set<Message>, log: seq<Entry>, pending: set<Context>)

  const QUIET: World := World({}, [], {})

  function GrantOf(c: Context): Grant {
    Grant(c.raw, c.identity.transactionId, c.route)
  }

  ghost predicate ClaimsChecked(w: TxnVerifier.Wire) {
    exists config, now :: TxnVerifier.Valid(config, now, w)
  }

  /** A verifier accepts a token or not as its clock and key set have it, but the claims are the token's own, and
      they passed the strict claim checks. */
  ghost predicate Honest(checks: Checks, net: Deployment) {
    forall raw :: checks.verify(raw).Some?
      ==> net.decode(raw) == checks.verify(raw) && ClaimsChecked(checks.verify(raw).value)
  }

  ghost predicate Admitted(m: Message, caller: string, checks: Checks, net: Deployment, raw: string,
      w: TxnVerifier.Wire) {
    Honest(checks, net) && Admits({caller}, BOUND, checks, m.header, Some(m.from), raw, w)
  }

  /** The HTTP stack may add fields, but the token field arrives as sent. */
  predicate Delivers(raw: string, h: Header) {
    TXN_TOKEN in h && h[TXN_TOKEN] == [raw]
  }

  // ---------------------------------------------------------------------------------------------
  // Steps.

  /** Anybody but the two honest relays sends anything to anyone. */
  predicate Inject(s: World, t: World, m: Message) {
    m.from != GATEWAY_ID && m.from != MCP_ID && t == World(s.network + {m}, s.log, s.pending)
  }

  /** The gateway's routing and policy agree to the context's signed route. */
  predicate Routed(net: Deployment, isPost: bool, h: Header, c: Context) {
    && isPost && Route(net, h).Some?
    && McpGateway.Allowed(c, Route(net, h).value.name, McpGateway.Get(h, "Mcp-Name"),
        McpGateway.Outside(net.policy, false, true, true))
  }

  function AllowEntry(c: Context): Entry {
    GatewayAllowed(GrantOf(c), c.identity.caller)
  }

  /** The gateway keeps an allow event and then, perhaps, forwards. */
  ghost predicate GatewayAllows(s: World, t: World, m: Message, checks: Checks, net: Deployment,
                                raw: string, w: TxnVerifier.Wire, sent: Option<Header>, arrived: Header) {
    && m in s.network && m.to == ToGateway && Admitted(m, AGENT_ID, checks, net, raw, w)
    && Routed(net, m.isPost, m.header, ContextOf(raw, w, m.from))
    && (sent.Some? ==> Transport.Carries(sent.value, BOUND, raw)) && Delivers(raw, arrived)
    && t == World(if sent.Some? then s.network + {Message(GATEWAY_ID, ToMcp, true, arrived)} else s.network,
                  s.log + [AllowEntry(ContextOf(raw, w, m.from))], s.pending)
  }

  function AcceptEntry(c: Context): Entry {
    McpAccepted(GrantOf(c), c.identity.caller)
  }

  ghost predicate McpAccepts(s: World, t: World, m: Message, checks: Checks, net: Deployment, raw: string,
      w: TxnVerifier.Wire) {
    && m in s.network && m.to == ToMcp && Admitted(m, GATEWAY_ID, checks, net, raw, w)
    && t == World(s.network, s.log + [AcceptEntry(ContextOf(raw, w, m.from))], s.pending + {ContextOf(raw, w, m.from)})
  }

  /** One accepted request may run the tool any number of times. */
  ghost predicate McpCalls(s: World, t: World, c: Context, arrived: Header) {
    && c in s.pending && McpServices.Callable(Some(c), BOUND) && Delivers(c.raw, arrived)
    && t == World(s.network + {Message(MCP_ID, ToApi, false, arrived)}, s.log, s.pending)
  }

  const DEMO_ROUTE: SignedRoute := SignedRoute(McpServices.DEMO, McpServices.WHOAMI)

  ghost predicate ApiServes(s: World, t: World, m: Message, checks: Checks, net: Deployment, raw: string,
      w: TxnVerifier.Wire) {
    && m in s.network && m.to == ToApi && Admitted(m, MCP_ID, checks, net, raw, w)
    && ContextOf(raw, w, m.from).route == DEMO_ROUTE
    && t == World(s.network, s.log + [ApiServed(GrantOf(ContextOf(raw, w, m.from)))], s.pending)
  }

  ghost predicate Next(s: World, t: World, net: Deployment) {
    || (exists m :: Inject(s, t, m))
    || (exists m, checks, raw, w, sent, arrived :: GatewayAllows(s, t, m, checks, net, raw, w, sent, arrived))
    || (exists m, checks, raw, w :: McpAccepts(s, t, m, checks, net, raw, w))
    || (exists c, arrived :: McpCalls(s, t, c, arrived))
    || (exists m, checks, raw, w :: ApiServes(s, t, m, checks, net, raw, w))
  }

  ghost predicate IsRun(states: seq<World>, net: Deployment) {
    && states != [] && states[0] == QUIET
    && forall i :: 0 <= i < |states| - 1 ==> Next(states[i], states[i + 1], net)
  }

  // ---------------------------------------------------------------------------------------------
  // Causes.

  /** Before position n the gateway kept an allow event for this grant to the agent. */
  predicate AllowedBefore(log: seq<Entry>, n: nat, g: Grant) {
    exists k :: 0 <= k < n <= |log| && log[k] == GatewayAllowed(g, AGENT_ID)
  }

  /** Before position n the MCP server accepted it from the gateway, after such an event. */
  predicate AcceptedBefore(log: seq<Entry>, n: nat, g: Grant) {
    exists j :: 0 <= j < n <= |log| && log[j] == McpAccepted(g, GATEWAY_ID) && AllowedBefore(log, j, g)
  }

  /** The grant the token itself spells out. */
  predicate Signs(net: Deployment, g: Grant) {
    && net.decode(g.token).Some? && net.decode(g.token).value.transactionId == g.transactionId
    && SignedRoute(net.decode(g.token).value.context.target, net.decode(g.token).value.context.tool) == g.route
  }

  predicate EntryCaused(log: seq<Entry>, n: nat, net: Deployment)
    requires n < |log|
  {
    && Signs(net, log[n].grant)
    && match log[n]
       case GatewayAllowed(_, caller) => caller == AGENT_ID
       case McpAccepted(g, caller) => caller == GATEWAY_ID && AllowedBefore(log, n, g)
       case ApiServed(g) => g.route == DEMO_ROUTE && AcceptedBefore(log, n, g)
  }

  ghost predicate LogCaused(log: seq<Entry>, net: Deployment) {
    forall n :: 0 <= n < |log| ==> EntryCaused(log, n, net)
  }

  /** A message from a relay delivers a token with the relay's cause behind it. */
  ghost predicate MessageCaused(m: Message, log: seq<Entry>, net: Deployment) {
    && (m.from == GATEWAY_ID ==>
      exists g: Grant :: Delivers(g.token, m.header) && Signs(net, g) && AllowedBefore(log, |log|, g))
    && (m.from == MCP_ID ==>
      exists g: Grant :: Delivers(g.token, m.header) && Signs(net, g) && AcceptedBefore(log, |log|, g))
  }

  ghost predicate NetworkCaused(network: set<Message>, log: seq<Entry>, net: Deployment) {
    forall m :: m in network ==> MessageCaused(m, log, net)
  }

  predicate ContextCaused(c: Context, log: seq<Entry>, net: Deployment) {
    Signs(net, GrantOf(c)) && AcceptedBefore(log, |log|, GrantOf(c))
  }

  ghost predicate PendingCaused(pending: set<Context>, log: seq<Entry>, net: Deployment) {
    forall c :: c in pending ==> ContextCaused(c, log, net)
  }

  ghost predicate Inv(s: World, net: Deployment) {
    LogCaused(s.log, net) && NetworkCaused(s.network, s.log, net) && PendingCaused(s.pending, s.log, net)
  }

  // ---------------------------------------------------------------------------------------------
  // Causes persist as the log grows.

  lemma AllowedPersists(log: seq<Entry>, n: nat, more: seq<Entry>, later: nat, g: Grant)
    requires AllowedBefore(log, n, g) && n <= later <= |log| + |more|
    ensures AllowedBefore(log + more, later, g)
  {
    var k :| 0 <= k < n <= |log| && log[k] == GatewayAllowed(g, AGENT_ID);
    assert (log + more)[k] == log[k];
  }

  lemma AcceptedPersists(log: seq<Entry>, n: nat, more: seq<Entry>, later: nat, g: Grant)
    requires AcceptedBefore(log, n, g) && n <= later <= |log| + |more|
    ensures AcceptedBefore(log + more, later, g)
  {
    var j :| 0 <= j < n <= |log| && log[j] == McpAccepted(g, GATEWAY_ID) && AllowedBefore(log, j, g);
    AllowedPersists(log, j, more, j, g);
    assert (log + more)[j] == log[j];
  }

  lemma EntryPersists(log: seq<Entry>, n: nat, more: seq<Entry>, net: Deployment)
    requires n < |log| && EntryCaused(log, n, net)
    ensures EntryCaused(log + more, n, net)
  {
    assert (log + more)[n] == log[n];
    match log[n]
    case GatewayAllowed(_, _) =>
    case McpAccepted(g, _) => AllowedPersists(log, n, more, n, g);
    case ApiServed(g) => AcceptedPersists(log, n, more, n, g);
  }

  lemma LogGrows(log: seq<Entry>, e: Entry, net: Deployment)
    requires LogCaused(log, net) && EntryCaused(log + [e], |log|, net)
    ensures LogCaused(log + [e], net)
  {
    forall n | 0 <= n < |log + [e]| ensures EntryCaused(log + [e], n, net) {
      if n < |log| { EntryPersists(log, n, [e], net); }
    }
  }

  lemma MessagePersists(m: Message, log: seq<Entry>, e: Entry, net: Deployment)
    requires MessageCaused(m, log, net)
    ensures MessageCaused(m, log + [e], net)
  {
    if m.from == GATEWAY_ID {
      var g: Grant :| Delivers(g.token, m.header) && Signs(net, g) && AllowedBefore(log, |log|, g);
      AllowedPersists(log, |log|, [e], |log| + 1, g);
    }
    if m.from == MCP_ID {
      var g: Grant :| Delivers(g.token, m.header) && Signs(net, g) && AcceptedBefore(log, |log|, g);
      AcceptedPersists(log, |log|, [e], |log| + 1, g);
    }
  }

  lemma RestPersists(s: World, e: Entry, net: Deployment)
    requires Inv(s, net)
    ensures NetworkCaused(s.network, s.log + [e], net) && PendingCaused(s.pending, s.log + [e], net)
  {
    forall m | m in s.network ensures MessageCaused(m, s.log + [e], net) { MessagePersists(m, s.log, e, net); }
    forall c | c in s.pending ensures ContextCaused(c, s.log + [e], net) {
      AcceptedPersists(s.log, |s.log|, [e], |s.log| + 1, GrantOf(c));
    }
  }

  /** One more caused entry keeps the invariant. */
  lemma EntryKeeps(s: World, e: Entry, net: Deployment)
    requires Inv(s, net) && EntryCaused(s.log + [e], |s.log|, net)
    ensures Inv(World(s.network, s.log + [e], s.pending), net)
  {
    LogGrows(s.log, e, net);
    RestPersists(s, e, net);
  }

  // ---------------------------------------------------------------------------------------------
  // What an admission establishes.

  lemma RelaysAreDistinct()
    ensures AGENT_ID != GATEWAY_ID && GATEWAY_ID != MCP_ID && AGENT_ID != MCP_ID
    ensures TrimSpace(AGENT_ID) == AGENT_ID && TrimSpace(GATEWAY_ID) == GATEWAY_ID && TrimSpace(MCP_ID) == MCP_ID
  {
    assert AGENT_ID[|AGENT_ID| - 1] == 'o' && |AGENT_ID| == 31;
    assert GATEWAY_ID[|GATEWAY_ID| - 1] == 't' && |GATEWAY_ID| == 39;
    assert MCP_ID[|MCP_ID| - 1] == 't' && |MCP_ID| == 36;
    assert AGENT_ID[0] == 's' && GATEWAY_ID[0] == 's' && MCP_ID[0] == 's';
    TrimSpaceMeaning(AGENT_ID);
    TrimSpaceMeaning(GATEWAY_ID);
    TrimSpaceMeaning(MCP_ID);
  }

  /** The identity a service derives names the token's own transaction and route, and the authentic caller. */
  lemma AdmittedContext(m: Message, caller: string, checks: Checks, net: Deployment, raw: string, w: TxnVerifier.Wire)
    requires Admitted(m, caller, checks, net, raw, w) && TrimSpace(caller) == caller
    ensures var c := ContextOf(raw, w, m.from);
            && m.from == caller && c.raw == raw && c.identity.caller == caller && Signs(net, GrantOf(c))
            && c.identity.transactionId == w.transactionId
    ensures m.header[TXN_TOKEN] == [raw]
  {
    assert checks.verify(raw) == Some(w);
    var config, now :| TxnVerifier.Valid(config, now, w);
    Identity.VerbatimOnAcceptedClaims(config, now, w, m.from);
  }

  /** A token spells out one grant. */
  lemma SameGrant(net: Deployment, g: Grant, c: Context, h: Header)
    requires Delivers(g.token, h) && h[TXN_TOKEN] == [c.raw] && Signs(net, g) && Signs(net, GrantOf(c))
    ensures g == GrantOf(c)
  {
    assert [g.token][0] == [c.raw][0];
  }

  lemma FromGateway(s: World, m: Message, c: Context, net: Deployment)
    requires Inv(s, net) && m in s.network && m.from == GATEWAY_ID
    requires TXN_TOKEN in m.header && m.header[TXN_TOKEN] == [c.raw] && Signs(net, GrantOf(c))
    ensures AllowedBefore(s.log, |s.log|, GrantOf(c))
  {
    assert MessageCaused(m, s.log, net);
    var g: Grant :| Delivers(g.token, m.header) && Signs(net, g) && AllowedBefore(s.log, |s.log|, g);
    SameGrant(net, g, c, m.header);
  }

  lemma FromMcp(s: World, m: Message, c: Context, net: Deployment)
    requires Inv(s, net) && m in s.network && m.from == MCP_ID
    requires TXN_TOKEN in m.header && m.header[TXN_TOKEN] == [c.raw] && Signs(net, GrantOf(c))
    ensures AcceptedBefore(s.log, |s.log|, GrantOf(c))
  {
    assert MessageCaused(m, s.log, net);
    var g: Grant :| Delivers(g.token, m.header) && Signs(net, g) && AcceptedBefore(s.log, |s.log|, g);
    SameGrant(net, g, c, m.header);
  }

  // ---------------------------------------------------------------------------------------------
  // Every step keeps the invariant.

  lemma InjectKeeps(s: World, t: World, m: Message, net: Deployment)
    requires Inv(s, net) && Inject(s, t, m)
    ensures Inv(t, net)
  {
    assert MessageCaused(m, t.log, net);
  }

  /** Another message joins the network. */
  lemma MessageKeeps(s: World, m: Message, net: Deployment)
    requires Inv(s, net) && MessageCaused(m, s.log, net)
    ensures Inv(World(s.network + {m}, s.log, s.pending), net)
  {
  }

  lemma AllowKeeps(s: World, c: Context, net: Deployment)
    requires Inv(s, net) && Signs(net, GrantOf(c)) && c.identity.caller == AGENT_ID
    ensures Inv(World(s.network, s.log + [AllowEntry(c)], s.pending), net)
  {
    assert (s.log + [AllowEntry(c)])[|s.log|] == AllowEntry(c);
    EntryKeeps(s, AllowEntry(c), net);
  }

  lemma RelayedIsCaused(s: World, c: Context, arrived: Header, net: Deployment)
    requires Signs(net, GrantOf(c)) && c.identity.caller == AGENT_ID && Delivers(c.raw, arrived)
    ensures MessageCaused(Message(GATEWAY_ID, ToMcp, true, arrived), s.log + [AllowEntry(c)], net)
  {
    RelaysAreDistinct();
    assert (s.log + [AllowEntry(c)])[|s.log|] == GatewayAllowed(GrantOf(c), AGENT_ID);
    assert AllowedBefore(s.log + [AllowEntry(c)], |s.log| + 1, GrantOf(c));
    assert Delivers(GrantOf(c).token, arrived);
  }

  lemma GatewayKeeps(s: World, t: World, m: Message, checks: Checks, net: Deployment,
                     raw: string, w: TxnVerifier.Wire, sent: Option<Header>, arrived: Header)
    requires Inv(s, net) && GatewayAllows(s, t, m, checks, net, raw, w, sent, arrived)
    ensures Inv(t, net)
  {
    RelaysAreDistinct();
    AdmittedContext(m, AGENT_ID, checks, net, raw, w);
    AllowKeeps(s, ContextOf(raw, w, m.from), net);
    if sent.Some? {
      RelayedIsCaused(s, ContextOf(raw, w, m.from), arrived, net);
      MessageKeeps(World(s.network, t.log, s.pending), Message(GATEWAY_ID, ToMcp, true, arrived), net);
    }
  }

  lemma AcceptKeeps(s: World, c: Context, net: Deployment)
    requires Inv(s, net) && c.identity.caller == GATEWAY_ID && Signs(net, GrantOf(c))
             && AllowedBefore(s.log, |s.log|, GrantOf(c))
    ensures Inv(World(s.network, s.log + [AcceptEntry(c)], s.pending + {c}), net)
  {
    var e := AcceptEntry(c);
    AllowedPersists(s.log, |s.log|, [e], |s.log|, GrantOf(c));
    assert (s.log + [e])[|s.log|] == McpAccepted(GrantOf(c), GATEWAY_ID);
    EntryKeeps(s, e, net);
    assert AcceptedBefore(s.log + [e], |s.log| + 1, GrantOf(c));
  }

  lemma McpAcceptKeeps(s: World, t: World, m: Message, checks: Checks, net: Deployment, raw: string,
      w: TxnVerifier.Wire)
    requires Inv(s, net) && McpAccepts(s, t, m, checks, net, raw, w)
    ensures Inv(t, net)
  {
    RelaysAreDistinct();
    AdmittedContext(m, GATEWAY_ID, checks, net, raw, w);
    var c := ContextOf(raw, w, m.from);
    FromGateway(s, m, c, net);
    AcceptKeeps(s, c, net);
  }

  lemma McpCallKeeps(s: World, t: World, c: Context, arrived: Header, net: Deployment)
    requires Inv(s, net) && McpCalls(s, t, c, arrived)
    ensures Inv(t, net)
  {
    RelaysAreDistinct();
    assert ContextCaused(c, s.log, net);
    assert Delivers(GrantOf(c).token, arrived);
    MessageKeeps(s, Message(MCP_ID, ToApi, false, arrived), net);
  }

  lemma ServeKeeps(s: World, c: Context, net: Deployment)
    requires Inv(s, net) && Signs(net, GrantOf(c)) && c.route == DEMO_ROUTE
             && AcceptedBefore(s.log, |s.log|, GrantOf(c))
    ensures Inv(World(s.network, s.log + [ApiServed(GrantOf(c))], s.pending), net)
  {
    var e := ApiServed(GrantOf(c));
    AcceptedPersists(s.log, |s.log|, [e], |s.log|, GrantOf(c));
    assert (s.log + [e])[|s.log|] == e;
    EntryKeeps(s, e, net);
  }

  lemma ApiKeeps(s: World, t: World, m: Message, checks: Checks, net: Deployment, raw: string, w: TxnVerifier.Wire)
    requires Inv(s, net) && ApiServes(s, t, m, checks, net, raw, w)
    ensures Inv(t, net)
  {
    RelaysAreDistinct();
    AdmittedContext(m, MCP_ID, checks, net, raw, w);
    var c := ContextOf(raw, w, m.from);
    FromMcp(s, m, c, net);
    ServeKeeps(s, c, net);
  }

  lemma NextKeeps(s: World, t: World, net: Deployment)
    requires Inv(s, net) && Next(s, t, net)
    ensures Inv(t, net)
  {
    if m :| Inject(s, t, m) {
      InjectKeeps(s, t, m, net);
    } else if m, checks, raw, w, sent, arrived :| GatewayAllows(s, t, m, checks, net, raw, w, sent, arrived) {
      GatewayKeeps(s, t, m, checks, net, raw, w, sent, arrived);
    } else if m, checks, raw, w :| McpAccepts(s, t, m, checks, net, raw, w) {
      McpAcceptKeeps(s, t, m, checks, net, raw, w);
    } else if c, arrived :| McpCalls(s, t, c, arrived) {
      McpCallKeeps(s, t, c, arrived, net);
    } else {
      var m, checks, raw, w :| ApiServes(s, t, m, checks, net, raw, w);
      ApiKeeps(s, t, m, checks, net, raw, w);
    }
  }

  lemma {:induction false} RunKeeps(states: seq<World>, net: Deployment)
    requires IsRun(states, net)
    ensures Inv(states[|states| - 1], net)
  {
    if |states| > 1 {
      var before := states[..|states| - 1];
      forall i | 0 <= i < |before| - 1 ensures Next(before[i], before[i + 1], net) {
        assert before[i] == states[i] && before[i + 1] == states[i + 1];
      }
      RunKeeps(before, net);
      assert Next(states[|states| - 2], states[|states| - 2 + 1], net);
      NextKeeps(states[|states| - 2], states[|states| - 1], net);
    }
  }

  /** In every run, an API success for a token comes after the MCP server accepted that token from the gateway,
      which came after the gateway kept an allow event for it from the agent. All three are for the transaction and
      the route in the token's signed claims, and that route is the one the API serves. */
  lemma ApiSuccessIsCaused(states: seq<World>, net: Deployment, i: nat)
    requires IsRun(states, net)
    requires i < |states[|states| - 1].log| && states[|states| - 1].log[i].ApiServed?
    ensures var log := states[|states| - 1].log;
            var g := log[i].grant;
            && Signs(net, g) && g.route == DEMO_ROUTE
            && exists j, k :: 0 <= k < j < i && log[j] == McpAccepted(g, GATEWAY_ID)
                 && log[k] == GatewayAllowed(g, AGENT_ID)
  {
    RunKeeps(states, net);
    var log := states[|states| - 1].log;
    assert EntryCaused(log, i, net);
  }

  // ---------------------------------------------------------------------------------------------
  // The chain serves.

  lemma DemoRouteIsNotBlank()
    ensures TrimSpace(McpServices.DEMO) != "" && TrimSpace(McpServices.WHOAMI) != ""
  {
    assert McpServices.DEMO[0] == 'd' && McpServices.DEMO[3] == 'o' && |McpServices.DEMO| == 4;
    assert McpServices.WHOAMI[0] == 's' && McpServices.WHOAMI[12] == 'i' && |McpServices.WHOAMI| == 13;
    TrimSpaceMeaning(McpServices.DEMO);
    TrimSpaceMeaning(McpServices.WHOAMI);
  }

  /** The one-target gateway routes every request that names the demo tool, whatever its Mcp-Method. */
  lemma DemoToolIsRouted(net: Deployment, h: Header)
    requires McpGateway.Get(h, "Mcp-Name") == McpServices.WHOAMI
    ensures Route(net, h) == Some(DemoTarget(net))
  {
    var targets := [DemoTarget(net)];
    assert targets[..0] == [];
    assert McpServices.WHOAMI in McpGateway.Index(targets);
  }

  /** What the agent must send and the policy must grant for the demo route. */
  predicate AsksForDemo(net: Deployment, isPost: bool, h: Header, c: Context) {
    && isPost && McpGateway.Get(h, "Mcp-Name") == McpServices.WHOAMI && c.route == DEMO_ROUTE
    && net.policy(c.identity, McpServices.DEMO, McpServices.WHOAMI)
  }

  lemma DemoIsRouted(net: Deployment, isPost: bool, h: Header, c: Context)
    requires AsksForDemo(net, isPost, h, c)
    ensures Routed(net, isPost, h, c)
  {
    DemoToolIsRouted(net, h);
    DemoRouteIsNotBlank();
  }

  function Sent(raw: string): Header {
    map[TXN_TOKEN := [raw]]
  }

  lemma RelayIsWorkload(relay: string)
    requires relay in {GATEWAY_ID, MCP_ID}
    ensures Identity.Workload(relay).Some?
  {
    RelaysAreDistinct();
    assert relay[..9] == "spiffe://";
  }

  /** What identity the claims yield does not hinge on which workload relays them. */
  lemma IdentityForRelay(w: TxnVerifier.Wire, from: string, relay: string)
    requires ClaimsChecked(w) && Identity.Of(w, from).Some? && Identity.Workload(relay).Some?
    ensures Identity.Of(w, relay).Some? && Identity.Of(w, relay).value.transactionId == w.transactionId
  {
    var config, now :| TxnVerifier.Valid(config, now, w);
    Identity.VerbatimOnAcceptedClaims(config, now, w, relay);
    Identity.VerbatimOnAcceptedClaims(config, now, w, from);
  }

  lemma RelayedIsAdmitted(h: Header, relay: string, original: Header, from: string, checks: Checks, raw: string,
      w: TxnVerifier.Wire)
    requires Admits({AGENT_ID}, BOUND, checks, original, Some(from), raw, w) && ClaimsChecked(w)
    requires relay in {GATEWAY_ID, MCP_ID} && Transport.Carries(h, BOUND, raw)
    ensures Admits({relay}, BOUND, checks, h, Some(relay), raw, w)
    ensures Identity.Of(w, relay).value.transactionId == w.transactionId
  {
    RelayIsWorkload(relay);
    IdentityForRelay(w, from, relay);
  }

  lemma SentIsAdmitted(m: Message, checks: Checks, net: Deployment, raw: string, w: TxnVerifier.Wire)
    requires Admitted(m, AGENT_ID, checks, net, raw, w)
    ensures Admitted(Message(GATEWAY_ID, ToMcp, true, Sent(raw)), GATEWAY_ID, checks, net, raw, w)
    ensures Admitted(Message(MCP_ID, ToApi, false, Sent(raw)), MCP_ID, checks, net, raw, w)
  {
    SetThenExtract(map[], raw, BOUND);
    RelayedIsAdmitted(Sent(raw), GATEWAY_ID, m.header, m.from, checks, raw, w);
    RelayedIsAdmitted(Sent(raw), MCP_ID, m.header, m.from, checks, raw, w);
  }

  lemma HonestGateway(s: World, m: Message, checks: Checks, net: Deployment, raw: string, w: TxnVerifier.Wire)
      returns (t: World)
    requires m in s.network && m.to == ToGateway && Admitted(m, AGENT_ID, checks, net, raw, w)
    requires AsksForDemo(net, m.isPost, m.header, ContextOf(raw, w, m.from))
    ensures Next(s, t, net) && Message(GATEWAY_ID, ToMcp, true, Sent(raw)) in t.network
  {
    SetThenExtract(map[], raw, BOUND);
    DemoIsRouted(net, m.isPost, m.header, ContextOf(raw, w, m.from));
    t := World(s.network + {Message(GATEWAY_ID, ToMcp, true, Sent(raw))}, s.log
        + [AllowEntry(ContextOf(raw, w, m.from))], s.pending);
    assert GatewayAllows(s, t, m, checks, net, raw, w, Some(Sent(raw)), Sent(raw));
  }

  lemma HonestMcp(s: World, checks: Checks, net: Deployment, raw: string, w: TxnVerifier.Wire)
      returns (t: World, u: World)
    requires Message(GATEWAY_ID, ToMcp, true, Sent(raw)) in s.network
    requires Admitted(Message(GATEWAY_ID, ToMcp, true, Sent(raw)), GATEWAY_ID, checks, net, raw, w)
    requires SignedRoute(w.context.target, w.context.tool) == DEMO_ROUTE
    ensures Next(s, t, net) && Next(t, u, net) && Message(MCP_ID, ToApi, false, Sent(raw)) in u.network
  {
    var c := ContextOf(raw, w, GATEWAY_ID);
    t := World(s.network, s.log + [AcceptEntry(c)], s.pending + {c});
    assert McpAccepts(s, t, Message(GATEWAY_ID, ToMcp, true, Sent(raw)), checks, net, raw, w);
    u := World(t.network + {Message(MCP_ID, ToApi, false, Sent(raw))}, t.log, t.pending);
    assert McpCalls(t, u, c, Sent(raw));
  }

  lemma HonestApi(s: World, checks: Checks, net: Deployment, raw: string, w: TxnVerifier.Wire) returns (t: World)
    requires Message(MCP_ID, ToApi, false, Sent(raw)) in s.network
    requires Admitted(Message(MCP_ID, ToApi, false, Sent(raw)), MCP_ID, checks, net, raw, w)
    requires SignedRoute(w.context.target, w.context.tool) == DEMO_ROUTE
    ensures Next(s, t, net) && t.log == s.log + [ApiServed(Grant(raw, w.transactionId, DEMO_ROUTE))]
  {
    RelaysAreDistinct();
    var m := Message(MCP_ID, ToApi, false, Sent(raw));
    AdmittedContext(m, MCP_ID, checks, net, raw, w);
    t := World(s.network, s.log + [ApiServed(GrantOf(ContextOf(raw, w, MCP_ID)))], s.pending);
    assert ApiServes(s, t, m, checks, net, raw, w);
  }

  /** The chain is not safe by standing still: a request by the agent that names the demo tool, with a token for the
      demo route that the services verify and the policy permits, is served in four steps. */
  lemma HonestChainServes(s: World, m: Message, checks: Checks, net: Deployment, raw: string, w: TxnVerifier.Wire)
    requires m in s.network && m.to == ToGateway && Admitted(m, AGENT_ID, checks, net, raw, w)
    requires AsksForDemo(net, m.isPost, m.header, ContextOf(raw, w, m.from))
    ensures exists s1, s2, s3, s4 :: Next(s, s1, net) && Next(s1, s2, net) && Next(s2, s3, net) && Next(s3, s4, net)
                                     && s4.log == s3.log + [ApiServed(Grant(raw, w.transactionId, DEMO_ROUTE))]
  {
    var s1 := HonestGateway(s, m, checks, net, raw, w);
    SentIsAdmitted(m, checks, net, raw, w);
    var s2, s3 := HonestMcp(s1, checks, net, raw, w);
    var s4 := HonestApi(s3, checks, net, raw, w);
  }

  // ---------------------------------------------------------------------------------------------
  // The steps are what the services do.

  const NO_CLAIMS: TxnVerifier.Wire :=
    TxnVerifier.Wire("", "", "", 0, 0, "", "", "", TxnVerifier.Context(0, "", "", "", "", ""), None, "")

  /** The log entry stands for this audit event. */
  predicate IsKeptAllow(e: Event, entry: Entry) {
    && e.kind == ToolAllowed && entry.GatewayAllowed? && e.token == Some(entry.grant.token)
    && e.transactionId == entry.grant.transactionId && e.caller == entry.caller
    && e.target == entry.grant.route.target + ":" + entry.grant.route.tool && e.tool == entry.grant.route.tool
  }

  /** Between the two states events were kept, and the last is an allow event. */
  predicate LastIsAllow(before: seq<Event>, after: seq<Event>) {
    |before| < |after| && after[|after| - 1].kind == ToolAllowed
  }

  /** The gateway object the deployment builds. */
  predicate Serves(gateway: McpGateway.Gateway, net: Deployment)
    reads gateway
  {
    gateway.byTool == McpGateway.Index([DemoTarget(net)]) && gateway.sole == Some(DemoTarget(net))
    && gateway.maxTokenBytes == BOUND
  }

  method NewDemoGateway(net: Deployment) returns (gateway: McpGateway.Gateway?)
    ensures gateway != null <==> net.mcpUrl.scheme == "https" && net.mcpUrl.host != "" && net.mcpUrl.rawQuery == ""
    ensures gateway != null ==> Serves(gateway, net)
  {
    DemoRouteIsNotBlank();
    McpServices.DemoRouteIsNonempty();
    gateway := McpGateway.NewGateway(true, [DemoTarget(net)], BOUND);
  }

  /** The middleware of a process that allows one caller. */
  method Admit(allowed: string, service: string, checks: Checks, header: HeaderMap, from: string, sink: Sink,
      kept: bool)
      returns (context: Option<Context>, ghost raw: string, ghost w: TxnVerifier.Wire)
    modifies sink
    ensures context.Some? <==> kept && exists r, v :: Admits({allowed}, BOUND, checks, header.fields, Some(from), r, v)
    ensures context.Some? ==>
              Admits({allowed}, BOUND, checks, header.fields, Some(from), raw, w)
              && context.value == ContextOf(raw, w, from)
    ensures sink.events == old(sink.events) + if context.Some? then [VerifyEvent(service, raw, w, from)] else []
  {
    raw, w := "", NO_CLAIMS;
    var middleware := new StrictTxnMiddleware({allowed}, BOUND, service);
    var admitted := middleware.Handle(checks, header, Some(from), sink, kept);
    if admitted.Rejected? { return None, raw, w; }
    raw, w :| Admits({allowed}, BOUND, checks, header.fields, Some(from), raw, w);
    return Some(admitted.context), raw, w;
  }

  method Relay(gateway: McpGateway.Gateway, net: Deployment, isPost: bool, header: HeaderMap, context: Context,
               outside: McpGateway.Outside, sink: Sink) returns (sent: Option<Header>)
    requires Serves(gateway, net) && outside.policy == net.policy && !Present(header.fields, AUTHORIZATION)
    requires IsCompact(context.raw) && ByteLen(context.raw) <= BOUND
    modifies sink
    ensures sent.Some? <==>
              Routed(net, isPost, header.fields, context) && !outside.cancelled && outside.sinkAvailable
              && outside.canBuild
    ensures sent.Some? ==>
              Transport.Carries(sent.value, BOUND, context.raw) && LastIsAllow(old(sink.events), sink.events)
    ensures sink.events == old(sink.events)
            || exists e :: sink.events == old(sink.events) + [e]
                 && (e.kind == ToolAllowed ==>
                   IsKeptAllow(e, AllowEntry(context)) && Routed(net, isPost, header.fields, context))
  {
    var r := gateway.Forward(isPost, header, Some(context), outside, sink);
    sent := if r.Forwarded? then Some(r.header) else None;
  }

  /** The gateway admits the request with some token, and routes and permits it. */
  ghost predicate AdmittedAndRouted(net: Deployment, checks: Checks, isPost: bool, h: Header, from: string) {
    exists r, v :: Admits({AGENT_ID}, BOUND, checks, h, Some(from), r, v)
      && Routed(net, isPost, h, ContextOf(r, v, from))
  }

  lemma RoutedForTheOne(net: Deployment, checks: Checks, isPost: bool, h: Header, from: string, raw: string,
      w: TxnVerifier.Wire)
    requires Admits({AGENT_ID}, BOUND, checks, h, Some(from), raw, w)
    ensures AdmittedAndRouted(net, checks, isPost, h, from) <==> Routed(net, isPost, h, ContextOf(raw, w, from))
  {
    if r, v :| Admits({AGENT_ID}, BOUND, checks, h, Some(from), r, v) && Routed(net, isPost, h, ContextOf(r, v, from)) {
      AdmissionIsUnique({AGENT_ID}, BOUND, checks, h, Some(from), r, v, raw, w);
    }
  }

  /** The gateway process sends exactly when the request is admitted, routed and permitted and its events are kept;
      whenever it keeps an allow event the step's conditions hold and the event is the step's log entry. */
  method GatewayService(gateway: McpGateway.Gateway, net: Deployment, checks: Checks, isPost: bool, header: HeaderMap,
      from: string, sink: Sink, firstKept: bool, outside: McpGateway.Outside)
      returns (sent: Option<Header>, ghost raw: string, ghost w: TxnVerifier.Wire)
    requires Serves(gateway, net) && outside.policy == net.policy
    modifies sink
    ensures sent.Some? <==>
              && firstKept && !outside.cancelled && outside.sinkAvailable && outside.canBuild
              && AdmittedAndRouted(net, checks, isPost, header.fields, from)
    ensures sent.Some? ==> LastIsAllow(old(sink.events), sink.events) && Transport.Carries(sent.value, BOUND, raw)
    ensures LastIsAllow(old(sink.events), sink.events) ==>
              && Admits({AGENT_ID}, BOUND, checks, header.fields, Some(from), raw, w)
              && Routed(net, isPost, header.fields, ContextOf(raw, w, from))
              && IsKeptAllow(sink.events[|sink.events| - 1], AllowEntry(ContextOf(raw, w, from)))
  {
    var context;
    context, raw, w := Admit(AGENT_ID, "strict-mcp-gateway", checks, header, from, sink, firstKept);
    if context.None? { return None, raw, w; }
    RoutedForTheOne(net, checks, isPost, header.fields, from, raw, w);
    sent := Relay(gateway, net, isPost, header, context.value, outside, sink);
  }

  /** The MCP server process: the context it accepts is the step's, and the tool calls the API as McpCalls says. */
  method McpService(checks: Checks, header: HeaderMap, from: string, sink: Sink, kept: bool)
      returns (context: Option<Context>, call: Option<Header>, ghost raw: string, ghost w: TxnVerifier.Wire)
    modifies sink
    ensures context.Some? <==>
              kept && exists r, v :: Admits({GATEWAY_ID}, BOUND, checks, header.fields, Some(from), r, v)
    ensures context.Some? ==>
              Admits({GATEWAY_ID}, BOUND, checks, header.fields, Some(from), raw, w)
              && context.value == ContextOf(raw, w, from)
    ensures call.Some? <==> McpServices.Callable(context, BOUND)
    ensures call.Some? ==> Transport.Carries(call.value, BOUND, raw)
  {
    context, raw, w := Admit(GATEWAY_ID, "strict-demo-mcp-server", checks, header, from, sink, kept);
    call := McpServices.PrepareCall(context, BOUND);
  }

  /** The API process answers exactly the requests of the step, with the step's transaction. */
  method ApiService(checks: Checks, header: HeaderMap, from: string, sink: Sink, kept: bool)
      returns (served: Option<string>, ghost raw: string, ghost w: TxnVerifier.Wire)
    modifies sink
    ensures served.Some? <==> kept && exists r, v :: Admits({MCP_ID}, BOUND, checks, header.fields, Some(from), r, v)
                                                     && ContextOf(r, v, from).route == DEMO_ROUTE
    ensures served.Some? ==>
              && Admits({MCP_ID}, BOUND, checks, header.fields, Some(from), raw, w)
              && ContextOf(raw, w, from).route == DEMO_ROUTE
              && served.value == ContextOf(raw, w, from).identity.transactionId
  {
    var context;
    context, raw, w := Admit(MCP_ID, "strict-demo-api", checks, header, from, sink, kept);
    if context.None? { return None, raw, w; }
    forall r, v | Admits({MCP_ID}, BOUND, checks, header.fields, Some(from), r, v) ensures r == raw && v == w {
      AdmissionIsUnique({MCP_ID}, BOUND, checks, header.fields, Some(from), r, v, raw, w);
    }
    CompactHasNoSeparators(raw);
    DemoRouteIsNotBlank();
    var reply := McpServices.ServeApi(header, context, McpServices.DEMO, McpServices.WHOAMI);
    served := if reply.Served? then Some(reply.transactionId) else None;
  }

  // ---------------------------------------------------------------------------------------------
  // Delivering a message runs its service, and what the service then did is a step of the protocol.

  /** The gateway keeps no allow event, or it takes the GatewayAllows step whose entry stands for the event. */
  method DeliverToGateway(gateway: McpGateway.Gateway, net: Deployment, checks: Checks, m: Message, sink: Sink,
      firstKept: bool, outside: McpGateway.Outside, ghost s: World)
      returns (sent: Option<Header>, ghost t: World, ghost raw: string, ghost w: TxnVerifier.Wire)
    requires Serves(gateway, net) && outside.policy == net.policy && Honest(checks, net) && m in s.network
             && m.to == ToGateway
    modifies sink
    ensures sent.Some? ==> LastIsAllow(old(sink.events), sink.events)
    ensures LastIsAllow(old(sink.events), sink.events) ==>
              && GatewayAllows(s, t, m, checks, net, raw, w, sent, if sent.Some? then sent.value else Sent(raw))
              && IsKeptAllow(sink.events[|sink.events| - 1], t.log[|s.log|])
    ensures !LastIsAllow(old(sink.events), sink.events) ==> t == s
  {
    var header := new HeaderMap(m.header);
    sent, raw, w := GatewayService(gateway, net, checks, m.isPost, header, m.from, sink, firstKept, outside);
    t := s;
    if LastIsAllow(old(sink.events), sink.events) {
      t := World(if sent.Some? then s.network + {Message(GATEWAY_ID, ToMcp, true, sent.value)} else s.network,
                 s.log + [AllowEntry(ContextOf(raw, w, m.from))], s.pending);
      assert t.log[|s.log|] == AllowEntry(ContextOf(raw, w, m.from));
    }
  }

  /** The MCP server refuses, or it takes the McpAccepts step and, when its tool calls the API, the McpCalls step. */
  method DeliverToMcp(net: Deployment, checks: Checks, m: Message, sink: Sink, kept: bool, ghost s: World)
      returns (context: Option<Context>, call: Option<Header>, ghost t: World, ghost u: World, ghost raw: string,
          ghost w: TxnVerifier.Wire)
    requires Honest(checks, net) && m in s.network && m.to == ToMcp
    modifies sink
    ensures if context.Some? then McpAccepts(s, t, m, checks, net, raw, w)
            && context.value == ContextOf(raw, w, m.from) else t == s
    ensures if call.Some? then context.Some? && McpCalls(t, u, context.value, call.value) else u == t
  {
    var header := new HeaderMap(m.header);
    context, call, raw, w := McpService(checks, header, m.from, sink, kept);
    t := s;
    if context.Some? {
      t := World(s.network, s.log + [AcceptEntry(context.value)], s.pending + {context.value});
    }
    u := t;
    if call.Some? {
      u := World(t.network + {Message(MCP_ID, ToApi, false, call.value)}, t.log, t.pending);
    }
  }

  /** The API refuses, or it takes the ApiServes step with the transaction it answers. */
  method DeliverToApi(net: Deployment, checks: Checks, m: Message, sink: Sink, kept: bool, ghost s: World)
      returns (served: Option<string>, ghost t: World, ghost raw: string, ghost w: TxnVerifier.Wire)
    requires Honest(checks, net) && m in s.network && m.to == ToApi
    modifies sink
    ensures if served.Some?
            then ApiServes(s, t, m, checks, net, raw, w)
            && ContextOf(raw, w, m.from).identity.transactionId == served.value
            else t == s
  {
    var header := new HeaderMap(m.header);
    served, raw, w := ApiService(checks, header, m.from, sink, kept);
    t := s;
    if served.Some? {
      t := World(s.network, s.log + [ApiServed(GrantOf(ContextOf(raw, w, m.from)))], s.pending);
    }
  }

  // ---------------------------------------------------------------------------------------------
  // The three processes in sequence.

  method GatewayHop(gateway: McpGateway.Gateway, net: Deployment, checks: Checks, isPost: bool, header: HeaderMap,
      sink: Sink, ghost raw: string, ghost w: TxnVerifier.Wire) returns (sent: Header)
    requires Serves(gateway, net) && Admits({AGENT_ID}, BOUND, checks, header.fields, Some(AGENT_ID), raw, w)
    requires Routed(net, isPost, header.fields, ContextOf(raw, w, AGENT_ID))
    modifies sink
    ensures Transport.Carries(sent, BOUND, raw)
  {
    ghost var h := header.fields;
    RoutedForTheOne(net, checks, isPost, h, AGENT_ID, raw, w);
    var outside := McpGateway.Outside(net.policy, false, true, true);
    var forwarded, r, v := GatewayService(gateway, net, checks, isPost, header, AGENT_ID, sink, true, outside);
    AdmissionIsUnique({AGENT_ID}, BOUND, checks, h, Some(AGENT_ID), raw, w, r, v);
    return forwarded.value;
  }

  method McpHop(checks: Checks, header: Header, sink: Sink, ghost raw: string, ghost w: TxnVerifier.Wire)
      returns (sent: Header)
    requires Admits({GATEWAY_ID}, BOUND, checks, header, Some(GATEWAY_ID), raw, w)
             && ContextOf(raw, w, GATEWAY_ID).route == DEMO_ROUTE
    modifies sink
    ensures Transport.Carries(sent, BOUND, raw)
  {
    var arrived := new HeaderMap(header);
    var context, call, r, v := McpService(checks, arrived, GATEWAY_ID, sink, true);
    AdmissionIsUnique({GATEWAY_ID}, BOUND, checks, header, Some(GATEWAY_ID), raw, w, r, v);
    return call.value;
  }

  method ApiHop(checks: Checks, header: Header, sink: Sink, ghost raw: string, ghost w: TxnVerifier.Wire)
      returns (served: Option<string>)
    requires Admits({MCP_ID}, BOUND, checks, header, Some(MCP_ID), raw, w)
             && ContextOf(raw, w, MCP_ID).route == DEMO_ROUTE
    modifies sink
    ensures served == Some(ContextOf(raw, w, MCP_ID).identity.transactionId)
  {
    var arrived := new HeaderMap(header);
    ghost var r, v;
    served, r, v := ApiService(checks, arrived, MCP_ID, sink, true);
    AdmissionIsUnique({MCP_ID}, BOUND, checks, header, Some(MCP_ID), raw, w, r, v);
  }

  /** The three processes one after the other: with every event kept and nothing failing, what the agent asks for the
      demo route comes back as the token's own transaction. */
  method ServeThroughChain(gateway: McpGateway.Gateway, net: Deployment, checks: Checks, isPost: bool,
      header: HeaderMap, sink: Sink, ghost raw: string, ghost w: TxnVerifier.Wire) returns (served: Option<string>)
    requires Serves(gateway, net) && ClaimsChecked(w)
    requires Admits({AGENT_ID}, BOUND, checks, header.fields, Some(AGENT_ID), raw, w)
    requires AsksForDemo(net, isPost, header.fields, ContextOf(raw, w, AGENT_ID))
    modifies sink
    ensures served == Some(w.transactionId)
  {
    ghost var original := header.fields;
    DemoIsRouted(net, isPost, original, ContextOf(raw, w, AGENT_ID));
    var toMcp := GatewayHop(gateway, net, checks, isPost, header, sink, raw, w);
    RelayedIsAdmitted(toMcp, GATEWAY_ID, original, AGENT_ID, checks, raw, w);
    var toApi := McpHop(checks, toMcp, sink, raw, w);
    RelayedIsAdmitted(toApi, MCP_ID, original, AGENT_ID, checks, raw, w);
    served := ApiHop(checks, toApi, sink, raw, w);
  }
}
