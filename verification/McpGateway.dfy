/** The MCP gateway: its route index, and the strict request pipeline. */
module McpGateway {
  import opened Text
  import opened Transport
  import opened StrictMiddleware
  import Identity

  // ---------------------------------------------------------------------------------------------
  // newGateway.

  datatype Url = Url(scheme: string, host: string, rawQuery: string)

  datatype Target = Target(name: string, url: Option<Url>, tools: set<string>)

  predicate HasEndpoint(t: Target) {
    t.name != "" && t.url.Some? && t.url.value.scheme == "https" && t.url.value.host != ""
    && t.url.value.rawQuery == "" && t.tools != {}
  }

  predicate ValidTarget(t: Target) {
    HasEndpoint(t) && "" !in t.tools
  }

  /** Valid targets under distinct names whose tool sets never meet. */
  predicate Routable(targets: seq<Target>) {
    && (forall i :: 0 <= i < |targets| ==> ValidTarget(targets[i]))
    && (forall i, j :: 0 <= i < j < |targets| ==> targets[i].name != targets[j].name)
    && (forall i, j :: 0 <= i < j < |targets| ==> targets[i].tools !! targets[j].tools)
  }

  /** The index a target list compiles to. */
  function Index(targets: seq<Target>): map<string, Target> {
    if targets == [] then map[]
    else
      var last := targets[|targets| - 1];
      Index(targets[..|targets| - 1]) + map tool | tool in last.tools :: last
  }

  function Named(targets: seq<Target>): map<string, Target> {
    if targets == [] then map[]
    else Named(targets[..|targets| - 1])[targets[|targets| - 1].name := targets[|targets| - 1]]
  }

  lemma {:induction false} IndexKeys(targets: seq<Target>, tool: string)
    ensures tool in Index(targets) <==> exists i :: 0 <= i < |targets| && tool in targets[i].tools
  {
    if targets != [] {
      var front := targets[..|targets| - 1];
      IndexKeys(front, tool);
      if i :| 0 <= i < |front| && tool in front[i].tools { assert tool in targets[i].tools; }
      if i :| 0 <= i < |targets| && tool in targets[i].tools {
        if i < |front| { assert tool in front[i].tools; }
      }
    }
  }

  lemma {:induction false} NamedKeys(targets: seq<Target>, name: string)
    ensures name in Named(targets) <==> exists i :: 0 <= i < |targets| && targets[i].name == name
  {
    if targets != [] {
      var front := targets[..|targets| - 1];
      NamedKeys(front, name);
      if i :| 0 <= i < |front| && front[i].name == name { assert targets[i].name == name; }
      if i :| 0 <= i < |targets| && targets[i].name == name {
        if i < |front| { assert front[i].name == name; }
      }
    }
  }

  /** The index is exactly the union of the targets' tool sets as disjoint routes. */
  lemma {:induction false} IndexIsUnion(targets: seq<Target>, tool: string, target: Target)
    requires Routable(targets)
    ensures tool in Index(targets) && Index(targets)[tool] == target <==> target in targets && tool in target.tools
  {
    if targets != [] {
      var front, last := targets[..|targets| - 1], targets[|targets| - 1];
      IndexIsUnion(front, tool, target);
      assert targets == front + [last];
      if target in front && tool in target.tools {
        var i :| 0 <= i < |front| && front[i] == target;
        assert targets[i].tools !! targets[|front|].tools;
      }
    }
  }

  lemma DisjointFromIndex(front: seq<Target>, next: Target)
    ensures next.tools !! Index(front).Keys <==> forall k :: 0 <= k < |front| ==> front[k].tools !! next.tools
  {
    if next.tools !! Index(front).Keys {
      forall k | 0 <= k < |front| ensures front[k].tools !! next.tools {
        forall tool | tool in front[k].tools ensures tool !in next.tools { IndexKeys(front, tool); }
      }
    }
    if forall k :: 0 <= k < |front| ==> front[k].tools !! next.tools {
      forall tool | tool in next.tools ensures tool !in Index(front).Keys { IndexKeys(front, tool); }
    }
  }

  lemma RoutableSnoc(front: seq<Target>, next: Target)
    requires Routable(front)
    ensures Routable(front + [next]) <==>
            ValidTarget(next)
            && (forall k :: 0 <= k < |front| ==> front[k].name != next.name && front[k].tools !! next.tools)
  {
    var all := front + [next];
    assert all[|front|] == next;
    assert forall k :: 0 <= k < |front| ==> all[k] == front[k];
  }

  lemma PrefixSnoc(targets: seq<Target>, i: nat)
    requires i < |targets|
    ensures targets[..i + 1] == targets[..i] + [targets[i]]
  {
  }

  lemma IndexStep(front: seq<Target>, next: Target)
    ensures Index(front + [next]) == Index(front) + map tool | tool in next.tools :: next
    ensures Named(front + [next]) == Named(front)[next.name := next]
  {
    assert (front + [next])[..|front|] == front;
  }

  lemma RoutableGrows(front: seq<Target>, next: Target)
    requires Routable(front)
    ensures Routable(front + [next]) <==>
              ValidTarget(next) && next.name !in Named(front) && next.tools !! Index(front).Keys
  {
    NamedKeys(front, next.name);
    DisjointFromIndex(front, next);
    RoutableSnoc(front, next);
  }

  lemma RoutablePrefix(targets: seq<Target>, i: nat)
    requires i <= |targets| && Routable(targets)
    ensures Routable(targets[..i])
  {
  }

  lemma RoutableStep(targets: seq<Target>, i: nat)
    requires i < |targets| && Routable(targets[..i])
    ensures Routable(targets[..i + 1]) <==>
            ValidTarget(targets[i]) && targets[i].name !in Named(targets[..i])
            && targets[i].tools !! Index(targets[..i]).Keys
    ensures Routable(targets) ==> Routable(targets[..i + 1])
    ensures Index(targets[..i + 1]) == Index(targets[..i]) + map tool | tool in targets[i].tools :: targets[i]
    ensures Named(targets[..i + 1]) == Named(targets[..i])[targets[i].name := targets[i]]
  {
    PrefixSnoc(targets, i);
    RoutableGrows(targets[..i], targets[i]);
    IndexStep(targets[..i], targets[i]);
    if Routable(targets) { RoutablePrefix(targets, i + 1); }
  }

  // ---------------------------------------------------------------------------------------------
  // The strict pipeline.

  datatype Outcome = Refused(status: int) | Forwarded(target: Target, header: Header)

  /** What the gateway does not decide itself. */
  datatype Outside = Outside(policy: (Identity.RequestIdentity, string, string) -> bool, cancelled: bool,
      sinkAvailable: bool, canBuild: bool)

  /** http.Header.Get. */
  function Get(h: Header, name: string): string {
    if Canonical(name) in h && h[Canonical(name)] != [] then h[Canonical(name)][0] else ""
  }

  /** The route of a request: by tool for tool calls, else the only target. */
  function Route(byTool: map<string, Target>, sole: Option<Target>, h: Header): Option<Target> {
    var name := Get(h, "Mcp-Name");
    if Get(h, "Mcp-Method") == "tools/call" then (if name in byTool then Some(byTool[name]) else None) else sole
  }

  predicate Allowed(context: Context, target: string, tool: string, world: Outside) {
    && !world.cancelled && context.route == SignedRoute(target, tool) && TrimSpace(target) != ""
    && TrimSpace(tool) != ""
    && world.policy(context.identity, target, tool)
  }

  lemma NonblankIsNonempty(s: string)
    ensures TrimSpace(s) != "" ==> s != ""
  {
  }

  /** SignedRouteAuthorizer.Authorize. */
  method Authorize(context: Context, target: string, tool: string, world: Outside) returns (ok: bool)
    ensures ok <==> Allowed(context, target, tool, world)
  {
    if world.cancelled { return false; }
    var route := VerifiedRoute(Carried(context));
    if route.None? || TrimSpace(target) == "" || TrimSpace(tool) == "" || route.value.target != target
       || route.value.tool != tool {
      NonblankIsNonempty(target);
      NonblankIsNonempty(tool);
      return false;
    }
    return world.policy(context.identity, target, tool);
  }

  function AllowEvent(context: Context, target: string, tool: string): Event {
    var v := context.identity;
    Event(ToolAllowed, v.transactionId, v.user, v.agent, v.workload, v.caller, target + ":" + tool, tool, v.purpose,
        Some(context.raw))
  }

  /** The event a routed request leaves: an allow event exactly if it is allowed, else a denial naming what is known. */
  function EventOf(route: Target, context: Option<Context>, tool: string, world: Outside): (e: Event)
    ensures e.kind == ToolAllowed <==> context.Some? && Allowed(context.value, route.name, tool, world)
  {
    if context.None? then Event(ToolDenied, "", "", "", "", "", route.name, "", "", None)
    else if Allowed(context.value, route.name, tool, world) then AllowEvent(context.value, route.name, tool)
    else AllowEvent(context.value, route.name, tool).(kind := ToolDenied)
  }

  /** The outgoing header: the request's own, filtered, with the verified token set. */
  method Emit(header: HeaderMap, context: Context, maxTokenBytes: int) returns (sent: Option<Header>)
    requires context.route.target != "" && context.route.tool != ""
    ensures sent.Some? <==> maxTokenBytes > 0 && IsCompact(context.raw) && ByteLen(context.raw) <= maxTokenBytes
    ensures sent.Some? ==> Transport.Carries(sent.value, maxTokenBytes, context.raw)
    ensures sent.Some? ==> exists order :: Enumerates(order, header.fields.Keys)
                             && sent.value
                                 == CopyInOrder(map[], header.fields, order, STRICT_FIELDS)[TXN_TOKEN := [context.raw]]
  {
    var fields := new HeaderMap(map[]);
    ghost var order := CopyHeaders(fields, header, STRICT_FIELDS);
    CopyStrips(header.fields, order, STRICT_FIELDS, AUTHORIZATION);
    CopyStrips(header.fields, order, STRICT_FIELDS, TXN_TOKEN);
    ghost var copied := fields.fields;
    var out := new Request(fields);
    var ok := PropagateVerifiedTxnToken(Carried(context), out, maxTokenBytes);
    if !ok { return None; }
    SetThenExtract(copied, context.raw, maxTokenBytes);
    return Some(fields.fields);
  }

  ghost predicate IsFilteredCopy(h: Header, raw: string, sent: Header) {
    exists order :: Enumerates(order, h.Keys) && sent == CopyInOrder(map[], h, order, STRICT_FIELDS)[TXN_TOKEN := [raw]]
  }

  /** The decision on a request: forwarded exactly when it is routed, free of credentials, verified, allowed and
      kept, to the signed target with the verified token; else the status of the refusal. */
  ghost predicate Decides(byTool: map<string, Target>, sole: Option<Target>, maxTokenBytes: int, isPost: bool,
      h: Header, context: Option<Context>, world: Outside, r: Outcome) {
    var route, name := Route(byTool, sole, h), Get(h, "Mcp-Name");
    var allowed := isPost && route.Some? && !Present(h, AUTHORIZATION) && context.Some?
                   && Allowed(context.value, route.value.name, name, world);
    && (r.Forwarded? <==> allowed && world.sinkAvailable && world.canBuild
                          && maxTokenBytes > 0 && IsCompact(context.value.raw)
                          && ByteLen(context.value.raw) <= maxTokenBytes)
    && (r.Forwarded? ==>
          && route == Some(r.target) && r.target.name == context.value.route.target && name == context.value.route.tool
          && Transport.Carries(r.header, maxTokenBytes, context.value.raw)
          && IsFilteredCopy(h, context.value.raw, r.header)
          && (IsCanonical(h) ==>
                Get(r.header, "Mcp-Name") == context.value.route.tool
                && Get(r.header, "Mcp-Method") == Get(h, "Mcp-Method")))
    && (r.Refused? ==>
          r.status == if !isPost then 405 else if !allowed then 403 else if !world.sinkAvailable then 500 else 502)
  }

  lemma RouteFieldWidths()
    ensures |"Mcp-Name"| == 8 && |"Mcp-Method"| == 10 && |"Connection"| == 10 && |"Proxy-Authorization"| == 19
    ensures |AUTHORIZATION| == 13 && |TXN_TOKEN| == 9
    ensures "Mcp-Method"[0] == 'M' && "Connection"[0] == 'C'
  {
  }

  lemma RouteFieldIsKept(name: string)
    requires name == "Mcp-Name" || name == "Mcp-Method"
    ensures !Stripped(Canonical(name), STRICT_FIELDS) && Canonical(name) != TXN_TOKEN
  {
    RouteFieldWidths();
    var key := Canonical(name);
    assert |key| == |name| && Fold(key[0]) == Fold(name[0]) == 'm';
    assert Fold("Connection"[0]) == 'c';
  }

  /** Of a canonical request's route fields the target receives what the gateway decided on. */
  lemma RouteFieldsArrive(h: Header, raw: string, sent: Header, name: string)
    requires IsCanonical(h) && IsFilteredCopy(h, raw, sent) && (name == "Mcp-Name" || name == "Mcp-Method")
    ensures Get(sent, name) == Get(h, name)
  {
    var order :| Enumerates(order, h.Keys) && sent == CopyInOrder(map[], h, order, STRICT_FIELDS)[TXN_TOKEN := [raw]];
    CopyIsExactOnCanonical(h, order, STRICT_FIELDS);
    RouteFieldIsKept(name);
  }

  /** The events a request leaves. */
  function Recorded(route: Option<Target>, isPost: bool, h: Header, context: Option<Context>,
      world: Outside): seq<Event> {
    if isPost && route.Some? && !Present(h, AUTHORIZATION) && world.sinkAvailable
    then [EventOf(route.value, context, Get(h, "Mcp-Name"), world)] else []
  }

  // ---------------------------------------------------------------------------------------------
  // Relaying the downstream answer.

  const RESPONSE_SOURCE: string := "X-WAI-Response-Source"
  const RESPONSE_LIMIT: nat := 8 * 1024 * 1024

  datatype Answer = Answer(status: int, header: Header, body: seq<bv8>)
  datatype Reply = ErrorReply(status: int) | Relayed(status: int, header: Header, body: seq<bv8>)

  /** The answer's status, its headers without the hop-by-hop ones and marked as downstream, and its body up to
      the limit. */
  ghost predicate IsRelayOf(reply: Reply, a: Answer) {
    && reply.Relayed? && reply.status == a.status
    && reply.body == (if |a.body| <= RESPONSE_LIMIT then a.body else a.body[..RESPONSE_LIMIT])
    && Canonical(RESPONSE_SOURCE) in reply.header && reply.header[Canonical(RESPONSE_SOURCE)] == ["downstream"]
    && !Present(reply.header, "Connection") && !Present(reply.header, "Proxy-Authorization")
    && exists order :: Enumerates(order, a.header.Keys)
         && reply.header
             == CopyInOrder(map[], a.header, order, HOP_FIELDS)[Canonical(RESPONSE_SOURCE) := ["downstream"]]
  }

  /** The mark folds to no stripped name. */
  lemma MarkKeepsAbsent(h: Header, name: string)
    requires !Present(h, name) && name in HOP_FIELDS
    ensures !Present(h[Canonical(RESPONSE_SOURCE) := ["downstream"]], name)
  {
    assert |RESPONSE_SOURCE| == 21 && |"Connection"| == 10 && |"Proxy-Authorization"| == 19;
    var marked := h[Canonical(RESPONSE_SOURCE) := ["downstream"]];
    forall k | k in marked ensures !EqualFold(k, name) {
      assert k != Canonical(RESPONSE_SOURCE) ==> k in h;
    }
  }

  method Relay(a: Answer) returns (reply: Reply)
    ensures IsRelayOf(reply, a)
  {
    var src := new HeaderMap(a.header);
    var dst := new HeaderMap(map[]);
    ghost var order := CopyHeaders(dst, src, HOP_FIELDS);
    CopyStrips(a.header, order, HOP_FIELDS, "Connection");
    CopyStrips(a.header, order, HOP_FIELDS, "Proxy-Authorization");
    MarkKeepsAbsent(dst.fields, "Connection");
    MarkKeepsAbsent(dst.fields, "Proxy-Authorization");
    dst.fields := dst.fields[Canonical(RESPONSE_SOURCE) := ["downstream"]];
    var body := if |a.body| <= RESPONSE_LIMIT then a.body else a.body[..RESPONSE_LIMIT];
    return Relayed(a.status, dst.fields, body);
  }

  class Gateway {
    var targets: map<string, Target>
    var byTool: map<string, Target>
    var sole: Option<Target>
    const maxTokenBytes: int

    constructor (maxTokenBytes: int)
      ensures targets == map[] && byTool == map[] && sole == None && this.maxTokenBytes == maxTokenBytes
    {
      targets, byTool, sole := map[], map[], None;
      this.maxTokenBytes := maxTokenBytes;
    }

    /** The inner loop: one route per tool, refusing an empty or a taken name. */
    method EnterTools(target: Target) returns (ok: bool)
      modifies this`byTool
      ensures ok <==> "" !in target.tools && target.tools !! old(byTool).Keys
      ensures ok ==> byTool == old(byTool) + map tool | tool in target.tools :: target
    {
      var left := target.tools;
      while left != {}
        invariant left <= target.tools && "" !in target.tools - left && (target.tools - left) !! old(byTool).Keys
        invariant byTool == old(byTool) + map tool | tool in target.tools - left :: target
      {
        var tool :| tool in left;
        if tool == "" { return false; }
        if tool in byTool { return false; }
        byTool := byTool[tool := target];
        left := left - {tool};
      }
      assert target.tools - left == target.tools;
      return true;
    }

    /** ServeHTTP in strict mode, up to the downstream call. */
    method Forward(isPost: bool, header: HeaderMap, context: Option<Context>, world: Outside, sink: Sink)
        returns (r: Outcome)
      modifies sink
      ensures Decides(byTool, sole, maxTokenBytes, isPost, header.fields, context, world, r)
      ensures sink.events
          == old(sink.events) + Recorded(Route(byTool, sole, header.fields), isPost, header.fields, context, world)
    {
      if !isPost { return Refused(405); }
      var name := Get(header.fields, "Mcp-Name");
      var route := Route(byTool, sole, header.fields);
      if route.None? { return Refused(403); }
      var target := route.value;
      var credential := HeaderPresent(header, AUTHORIZATION);
      if credential { return Refused(403); }
      if context.None? {
        var written := sink.Write(Event(ToolDenied, "", "", "", "", "", target.name, "", "", None),
            world.sinkAvailable);
        return Refused(403);
      }
      var allowed := Authorize(context.value, target.name, name, world);
      if !allowed {
        var written := sink.Write(AllowEvent(context.value, target.name, name).(kind := ToolDenied),
            world.sinkAvailable);
        return Refused(403);
      }
      var written := sink.Write(AllowEvent(context.value, target.name, name), world.sinkAvailable);
      if !written { return Refused(500); }
      if !world.canBuild { return Refused(502); }
      var sent := Emit(header, context.value, maxTokenBytes);
      if sent.None? { return Refused(502); }
      if IsCanonical(header.fields) {
        RouteFieldsArrive(header.fields, context.value.raw, sent.value, "Mcp-Name");
        RouteFieldsArrive(header.fields, context.value.raw, sent.value, "Mcp-Method");
      }
      return Forwarded(target, sent.value);
    }

    /** ServeHTTP in strict mode: the decision, and then either its refusal or the relayed downstream answer. */
    method ServeHttp(isPost: bool, header: HeaderMap, context: Option<Context>, world: Outside, sink: Sink,
                     downstream: (Target, Header) -> Option<Answer>) returns (r: Outcome, reply: Reply)
      modifies sink
      ensures Decides(byTool, sole, maxTokenBytes, isPost, header.fields, context, world, r)
      ensures sink.events
          == old(sink.events) + Recorded(Route(byTool, sole, header.fields), isPost, header.fields, context, world)
      ensures r.Refused? ==> reply == ErrorReply(r.status)
      ensures r.Forwarded? && downstream(r.target, r.header).None? ==> reply == ErrorReply(502)
      ensures r.Forwarded? && downstream(r.target, r.header).Some? ==>
                IsRelayOf(reply, downstream(r.target, r.header).value)
    {
      r := Forward(isPost, header, context, world, sink);
      if r.Refused? { return r, ErrorReply(r.status); }
      var answer := downstream(r.target, r.header);
      if answer.None? { return r, ErrorReply(502); }
      reply := Relay(answer.value);
    }
  }

  method NewGateway(clientOk: bool, targets: seq<Target>, maxTokenBytes: int) returns (g: Gateway?)
    ensures g != null <==> clientOk && targets != [] && Routable(targets)
    ensures g != null ==>
              fresh(g) && g.byTool == Index(targets) && g.targets == Named(targets) && g.maxTokenBytes == maxTokenBytes
    ensures g != null ==> g.sole == if |targets| == 1 then Some(targets[0]) else None
  {
    if !clientOk || |targets| == 0 { return null; }
    g := new Gateway(maxTokenBytes);
    for i := 0 to |targets|
      invariant Routable(targets[..i])
      invariant fresh(g) && g.byTool == Index(targets[..i]) && g.targets == Named(targets[..i]) && g.sole == None
    {
      RoutableStep(targets, i);
      var target := targets[i];
      if target.name == "" || target.url.None? || target.url.value.scheme != "https" || target.url.value.host == ""
         || target.url.value.rawQuery != "" || target.tools == {} {
        return null;
      }
      if target.name in g.targets { return null; }
      g.targets := g.targets[target.name := target];
      var ok := g.EnterTools(target);
      if !ok { return null; }
    }
    assert targets[..|targets|] == targets;
    if |targets| == 1 { g.sole := Some(targets[0]); }
  }
}
