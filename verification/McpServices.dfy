/** The strict MCP server's whoami tool and the strict demo API behind it. */
module McpServices {
  import opened Text
  import opened Transport
  import opened StrictMiddleware

  const DEMO: string := "demo"
  const WHOAMI: string := "system.whoami"

  /** The routes are nonempty, so a match needs no further check. */
  lemma DemoRouteIsNonempty()
    ensures DEMO != "" && WHOAMI != ""
  {
    assert DEMO[0] == 'd' && WHOAMI[0] == 's';
  }

  /** signedToolMatches. */
  method SignedToolMatches(context: Option<Context>, target: string, tool: string) returns (ok: bool)
    ensures ok <==> context.Some? && context.value.route == SignedRoute(target, tool) && target != "" && tool != ""
  {
    if context.None? { return false; }
    var route := VerifiedRoute(Carried(context.value));
    return route.Some? && route.value.target == target && route.value.tool == tool;
  }

  /** The request header the whoami tool sends to the API, when it sends one. */
  ghost predicate Callable(context: Option<Context>, maximumBytes: int) {
    && context.Some? && context.value.route == SignedRoute(DEMO, WHOAMI)
    && maximumBytes > 0 && IsCompact(context.value.raw) && ByteLen(context.value.raw) <= maximumBytes
  }

  method PrepareCall(context: Option<Context>, maximumBytes: int) returns (sent: Option<Header>)
    ensures sent.Some? <==> Callable(context, maximumBytes)
    ensures sent.Some? ==>
              sent.value == map[TXN_TOKEN := [context.value.raw]]
              && Transport.Carries(sent.value, maximumBytes, context.value.raw)
  {
    DemoRouteIsNonempty();
    var matches := SignedToolMatches(context, DEMO, WHOAMI);
    if !matches { return None; }
    var fields := new HeaderMap(map[]);
    var request := new Request(fields);
    var ok := PropagateVerifiedTxnToken(Carried(context.value), request, maximumBytes);
    if !ok { return None; }
    SetThenExtract(map[], context.value.raw, maximumBytes);
    return Some(fields.fields);
  }

  /** What comes back from the API: a status and the transaction ID of a body that decodes, or nothing. */
  datatype ApiAnswer = NoAnswer | ApiAnswer(status: int, transactionId: Option<string>)

  datatype WhoAmIOutput = WhoAmIOutput(
    user: string, agent: string, workload: string, caller: string, transactionId: string, purpose: string,
        apiTransactionId: string)

  /** The strict whoami tool: it reports the verified identity only if the API names the very transaction in the
      token. */
  method WhoAmI(context: Option<Context>, maximumBytes: int, call: Header -> ApiAnswer)
      returns (output: Option<WhoAmIOutput>)
    ensures output.Some? <==>
              && Callable(context, maximumBytes) && context.value.identity.transactionId != ""
              && call(map[TXN_TOKEN := [context.value.raw]])
                  == ApiAnswer(200, Some(context.value.identity.transactionId))
    ensures output.Some? ==>
              var v := context.value.identity;
              output.value
                  == WhoAmIOutput(v.user, v.agent, v.workload, v.caller, v.transactionId, v.purpose, v.transactionId)
  {
    var sent := PrepareCall(context, maximumBytes);
    if sent.None? { return None; }
    var v := context.value.identity;
    var answer := call(sent.value);
    if answer.NoAnswer? || answer.status != 200 { return None; }
    if answer.transactionId.None? || answer.transactionId.value == "" || answer.transactionId.value != v.transactionId {
      return None;
    }
    return Some(WhoAmIOutput(v.user, v.agent, v.workload, v.caller, v.transactionId, v.purpose,
        answer.transactionId.value));
  }

  datatype ApiReply = Forbidden | Unauthorized | Served(transactionId: string)

  /** StrictDemoAPIHandler's handler. */
  method ServeApi(header: HeaderMap, context: Option<Context>, target: string, tool: string) returns (reply: ApiReply)
    requires TrimSpace(target) != "" && TrimSpace(tool) != ""
    ensures reply.Forbidden? <==>
              Present(header.fields, AUTHORIZATION) || context.None? || context.value.route != SignedRoute(target, tool)
    ensures reply.Served? <==> !reply.Forbidden? && context.Some? && context.value.raw != ""
    ensures reply.Served? ==> reply.transactionId == context.value.identity.transactionId
  {
    assert target != "" && tool != "";
    var credential := HeaderPresent(header, AUTHORIZATION);
    var matches := SignedToolMatches(context, target, tool);
    if credential || !matches { return Forbidden; }
    if context.value.raw == "" { return Unauthorized; }
    return Served(context.value.identity.transactionId);
  }
}
