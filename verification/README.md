# Verified model of the transaction-token services

The services modelled here carry a signed transaction token from an agent, through a token service adapter, a
gateway and an MCP server, to an API. This project models the logic that decides whether a token, a header, a
request or a stored record is accepted, and proves what that logic guarantees.

Code that changes state step by step is a method or a class; each such method is proved against a function of its
inputs and old state, and the laws are lemmas about those functions or about whole runs.

| file | models |
|---|---|
| `Text.dfy` | the Go string functions used everywhere: `TrimSpace`, `Fields`, `Join`, `Split`, byte lengths, `int64` wrap-around |
| `JsonScanner.dfy`, `JsonObjectFields.dfy` | `encoding/json`'s token reader, the duplicate-rejecting scanners over it, and JSON trees as their reference |
| `TxnVerifier.dfy` | claim validation of the strict token verifier, with saturating and wrapping time arithmetic |
| `TransactionIssuer.dfy`, `TrustedMetadata.dfy` | the Java issuer plugin: claims, bindings, derived attributes |
| `Transport.dfy` | the `Txn-Token` field between hops |
| `Identity.dfy`, `StrictMiddleware.dfy`, `McpGateway.dfy`, `McpServices.dfy`, `StrictChain.dfy` | the strict services, each as a process, and the chain they form as a protocol over an open network |
| `TtsAdapter.dfy`, `StrictAgent.dfy` | the adapter's decisions and expiry arithmetic; the agent's decoder and the request it sends |
| `AuditHistory.dfy`, `AuditStore.dfy` | the bounded audit store: runs on values against a naive history, and the in-place store with its evidence objects |
| `WebSessions.dfy`, `LoginProtocol.dfy` | the browser handler's lock sections, and every interleaving of them |
| `AuthorizationPolicy.dfy`, `CanonicalScopes.dfy` | the compiled policy index against its rule list; the canonical scope attribute |

## What the proofs found

- `MaximumExpiresIn` is bounded only from below. The adapter's lifetime promise holds for every input if and only if
  the configured bound is harmless: at most 9223372036, or so large that its product with a second wraps below one
  second (`TtsAdapter.PromiseKeptExactlyForHarmlessBounds`; a concrete bound that breaks it is in `OverflowingBoundExists`).
- `MaximumLifetime` equal to the largest `Duration` limits nothing, because `Sub` saturates
  (`TxnVerifier.BoundIsEffectiveExactlyBelowLargest`).
- Prefix purging of the audit store drops exactly the expired records if and only if no expired record follows a
  fresh one (`AuditHistory.PurgeIsFilterExactly`). One backward step of the clock is enough to break that
  (`ClockStepKeepsExpiredRecord`).
- The identity constructors leave accepted claims alone except for the two workload names, which the verifier checks
  as URLs but not for padding (`Identity.VerbatimOnAcceptedClaims`; a concrete name is in `PaddedWorkloadChanges`).
- A scope with white space other than blank, tab, CR or LF can be configured but occurs in no accepted token
  (`TxnVerifier.ConfiguredScopeUsableExactlyIfSpaceFree`). Bindings round-trip if and only if every entry is clean
  (`TrustedMetadata.BindingsRoundTrip`). The issuer's own bound on its target and tool is laxer than the verifier's
  (`TransactionIssuer.JavaBoundIsLaxer`).

## Model

| member | source | states |
|---|---|---|
| StrictChain.ApiSuccessIsCaused | pkg/mcp/gateway.go:103-177 | in every run, with any environment that cannot speak as the gateway or the MCP server, an API success for a token is preceded by the MCP server accepting it from the gateway, which is preceded by a kept gateway allow event for it from the agent; all are for the transaction and the route signed in the token, and that route is the one the API serves |
| StrictChain.NextKeeps | pkg/middleware/strict_identity.go:58-115 | every step of every process and of the environment keeps the causal invariant over log, network and accepted contexts |
| StrictChain.RunKeeps | pkg/middleware/strict_identity.go:58-115 | the causal invariant holds in the last state of every run |
| StrictChain.HonestChainServes | pkg/mcp/server.go:99-124 | an agent request that the gateway routes (POST, Mcp-Name the demo tool) and its policy permits, with a token for the demo route the services verify, can be served in four steps from any state |
| StrictChain.DemoToolIsRouted | cmd/strict-mcp-gateway/main.go:45 | the deployed one-target gateway routes every request naming the demo tool to the demo target, whatever its Mcp-Method |
| StrictChain.NewDemoGateway | cmd/strict-mcp-gateway/main.go:45-48 | the deployment's gateway exists exactly for an HTTPS target URL with a host and no query, with the demo index and bound |
| StrictChain.ServeThroughChain | pkg/mcp/server.go:99-124 | running the three processes one after the other on such a request, with every event kept, returns the token's own transaction |
| StrictChain.GatewayService | cmd/strict-mcp-gateway/main.go:45-57 | the gateway process sends exactly when the request is admitted from the agent, routed and permitted and its events are kept; whenever it keeps an allow event the protocol step's conditions hold, and the event, with its target and tool, is the step's log entry |
| StrictChain.McpService | cmd/strict-demo-mcp-server/main.go:36-48 | the MCP process accepts exactly requests admitted from the gateway and calls the API exactly for the demo route, with the admitted token |
| StrictChain.ApiService | cmd/strict-demo-api/main.go:24-36 | the API process answers exactly requests admitted from the MCP server for the demo route, with the admitted token's transaction |
| StrictChain.DeliverToGateway | cmd/strict-mcp-gateway/main.go:45-57 | delivering a message of the network to the gateway process keeps no allow event and changes nothing, or is a gateway step of the protocol with exactly the message it sends and the event it kept |
| StrictChain.DeliverToMcp | cmd/strict-demo-mcp-server/main.go:36-48 | delivering a message to the MCP process is refused, or is an acceptance step of the protocol, followed by the call step if it calls |
| StrictChain.DeliverToApi | cmd/strict-demo-api/main.go:24-36 | delivering a message to the API process is refused, or is a service step of the protocol with the transaction it answers |
| StrictMiddleware.StrictTxnMiddleware.Handle | pkg/middleware/strict_identity.go:58-115 | a request passes exactly when one token is extracted, verifies, comes from an allowed caller and yields an identity, and the event is kept; the context holds that very token, route and identity; nothing is written otherwise, and the statuses tell an unkept event, a foreign caller and anything else apart |
| StrictMiddleware.NewStrictTxnMiddleware | pkg/middleware/strict_identity.go:44-56 | construction succeeds exactly for a given verifier, a positive bound, a nonblank service and nonempty well-formed callers, and takes a copy of the caller set |
| StrictMiddleware.AdmissionIsUnique | pkg/middleware/strict_identity.go:60-69 | a request admits at most one token and one set of claims |
| Identity.VerbatimOnAcceptedClaims | pkg/identity/types.go:40-105 | on claims the verifier accepted the trimming constructors are the identity, except for padding of the workload name, and can fail only on the two workload names |
| Identity.PaddedWorkloadChanges | pkg/identity/types.go:66-72 | claims the verifier accepts whose workload name ends in a blank, and which yield another workload |
| McpGateway.NewGateway | pkg/mcp/gateway.go:73-101 | construction succeeds exactly for a nonempty list of valid targets with distinct names and disjoint tool sets without an empty tool, and yields their index |
| McpGateway.IndexIsUnion | pkg/mcp/gateway.go:78-95 | the tool index is exactly the union of the targets' tool sets: a tool leads to a target if and only if the target is listed and has the tool |
| McpGateway.Authorize | pkg/mcp/strict.go:27-39 | allows exactly when the context is live, the signed route is this nonblank target and tool, and the policy allows |
| McpGateway.Gateway.ServeHttp | pkg/mcp/gateway.go:103-177 | the exact condition for forwarding; whatever the Mcp-Method, a forward goes to the target named by the signed target with Mcp-Name equal to the signed tool, after a kept allow event, and carries the verified token; a canonical header's Mcp-Name and Mcp-Method arrive at the target unchanged; the one event each routed request leaves; the status of each refusal; and the relayed answer, or 502 without one |
| McpGateway.RouteFieldsArrive | pkg/mcp/gateway.go:158-188 | copying and setting the token leave Mcp-Name and Mcp-Method of a canonical header as they came |
| McpGateway.Relay | pkg/mcp/gateway.go:172-176 | the answer's status and body up to the limit, its headers without the hop-by-hop fields under any spelling, and one downstream mark the answer cannot forge |
| McpGateway.Emit | pkg/mcp/gateway.go:158-163 | the outgoing header is the filtered copy with the token set, and building it fails only for a token that is not compact or too long |
| McpServices.SignedToolMatches | pkg/mcp/server.go:94-97 | true exactly when the verified route is this nonempty target and tool |
| McpServices.PrepareCall | pkg/mcp/server.go:99-106 | the API request is made exactly for the demo route with a settable token, and carries nothing but that token |
| McpServices.WhoAmI | pkg/mcp/server.go:63-90 | succeeds exactly when the API answers 200 with the transaction ID of the token's own identity, and then reports that identity field by field |
| McpServices.ServeApi | pkg/mcp/api.go:27-43 | forbids exactly requests with an Authorization field or another signed route, refuses a missing token otherwise, and else answers with the identity's transaction ID |
| Transport.ValidCompactTransportValue | pkg/transaction/transport.go:45-61 | accepts exactly three nonempty base64url segments joined by dots within the byte bound |
| Transport.HeaderPresent | pkg/transaction/transport.go:36-43 | finds a field under any spelling that folds to the name |
| Transport.ExtractTxnToken | pkg/transaction/transport.go:15-24 | succeeds exactly when the header has no Authorization field and one compact bounded Txn-Token value, and returns it |
| Transport.SetTxnToken | pkg/transaction/transport.go:28-34 | succeeds exactly without a credential or token already present and for a compact bounded value; adds that one field or leaves the header unchanged |
| Transport.SetThenExtract | pkg/transaction/transport.go:15-34 | what was set is what extraction reads |
| Transport.FoldingIsCoarser | pkg/transaction/transport.go:36-43 | a spelling with the Kelvin sign folds to Txn-Token though canonicalisation keeps it apart |
| Transport.CanonicalKeepsFold | pkg/transaction/transport.go:36-43 | canonicalising a key never changes which names it folds to |
| Transport.CopyHeaders | pkg/mcp/gateway.go:179-207 | both copies are the fold of the source's fields, without the named ones, in some order of its keys |
| Transport.CopyStrips | pkg/mcp/gateway.go:179-188 | in any order, nothing that folds to a stripped name survives the copy |
| Transport.CopyIsExactOnCanonical | pkg/mcp/gateway.go:179-188 | on canonical headers the copy is the source minus the stripped fields, whatever the order |
| Transport.FilteredHeaderIsSettable | pkg/mcp/gateway.go:158-163 | after filtering, setting a token the middleware extracted succeeds if and only if it fits the byte bound, so with one bound the failure branch is unreachable |
| Transport.HopsKeepToken | pkg/mcp/gateway.go:158-188 | over any number of hops under one bound the token arrives byte for byte |
| Transport.PropagateVerifiedTxnToken | pkg/mcp/strict.go:41-58 | sets the context's verified token or leaves every header field as it was; the exact condition for success |
| TxnVerifier.TimeCheckIsExact | pkg/transaction/txn_verifier.go:193-197 | for all int64 timestamps, wrapping and saturation included, the time check decides the unbounded window condition when the lifetime bound is below the largest Duration |
| TxnVerifier.BoundIsEffectiveExactlyBelowLargest | pkg/transaction/txn_verifier.go:195-197 | the check decides the unbounded condition for all inputs if and only if the bound is below the largest Duration |
| TxnVerifier.LargestBoundIsNoBound | pkg/transaction/txn_verifier.go:195-197 | with the largest Duration as bound any lifetime passes |
| TxnVerifier.CheckScopes | pkg/transaction/txn_verifier.go:198-211 | accepts exactly claims that denote a nonempty, bounded list of distinct allowed scopes joined by single spaces |
| TxnVerifier.CheckContext | pkg/transaction/txn_verifier.go:212-230 | the checks in order accept exactly contexts of version 1 within their bounds whose workload is the requester's and bound to the named agent |
| TxnVerifier.ValidateWire | pkg/transaction/txn_verifier.go:188-231 | the checks in source order accept exactly the claims the declarative verdict accepts |
| TxnVerifier.ValidMeaning | pkg/transaction/txn_verifier.go:188-231 | the verdict in unbounded integers: identity and context fields, the real time window, and some scope list the claim denotes |
| TxnVerifier.ScopeListRoundTrip | pkg/transaction/txn_verifier.go:174-211 | an accepted token's scope list is distinct, allowed and bounded and rejoins to the signed string; conversely every such list passes and is recovered unchanged |
| TxnVerifier.ConfiguredScopeUsableExactlyIfSpaceFree | pkg/transaction/txn_verifier.go:62-66 | of the scopes the constructor admits, an accepted claim can carry exactly those without any white space |
| TxnVerifier.SpacedScopeIsConfigurableButUseless | pkg/transaction/txn_verifier.go:62-66 | the constructor's scope check admits a concrete scope with a no-break space, and no accepted token carries it |
| Text.FieldsInvertJoin | pkg/transaction/txn_verifier.go:198-199 | a list survives joining with one space and splitting on white space if and only if no member is empty or holds white space |
| JsonScanner.RejectDuplicateJsonKeys | pkg/transaction/txn_verifier.go:291-301 | accepts exactly the serialisations of one JSON value whose every object, at every depth, has distinct names |
| JsonScanner.ScanJsonValue | pkg/transaction/txn_verifier.go:303-345 | the recursive descent over the shared decoder computes the strict scan and leaves the cursor where it ends |
| JsonScanner.ScanAcceptsExactlySerialisations | pkg/pingfederate/jwks_resolver.go:67-121 | reading the whole input leaves nothing exactly when it serialises one value, duplicate-free for the strict scan |
| JsonScanner.ScanPrinted | pkg/transaction/txn_verifier.go:303-345 | every serialised duplicate-free tree is accepted and exactly its lexemes are consumed, in every reader state a value can stand in |
| JsonScanner.ScanSound | pkg/transaction/txn_verifier.go:303-345 | whatever the scan consumes is the serialisation of a tree, duplicate-free if strict |
| JsonScanner.SerialisationUnique | pkg/transaction/txn_verifier.go:303-345 | a serialisation determines its tree |
| JsonScanner.NonStringKeyUnreachable | pkg/transaction/txn_verifier.go:320-323 | after More in a member position the reader returns a string or an error, so the non-string branch cannot be taken |
| JsonObjectFields.UniqueJsonObjectFields | pkg/pingfederate/exchange.go:136-168 | accepts exactly serialised objects whose own names are distinct, and returns those names |
| TransactionIssuer.Issue | deploy/pingfederate/plugins/src/main/java/org/example/wai/transaction/TransactionJwtIssuer.java:47-83 | issues exactly when all required attributes are given, the scope is the configured one and the expiry is an instant Java can represent, with the claims below |
| TransactionIssuer.Claims | deploy/pingfederate/plugins/src/main/java/org/example/wai/transaction/TransactionJwtIssuer.java:52-69 | iat is the instant floored to a second and exp lies exactly one lifetime later |
| TransactionIssuer.IssuedClaimsAcceptedExactlyInWindow | deploy/pingfederate/plugins/src/main/java/org/example/wai/transaction/TransactionJwtIssuer.java:47-83 | between agreeing configurations the claims issued for derived attributes are accepted exactly while the carried values are bounded, iat is positive and now is in [iat - skew, exp + skew] |
| TransactionIssuer.PlainClaimsAcceptedFromIssue | deploy/pingfederate/plugins/src/main/java/org/example/wai/transaction/TransactionJwtIssuer.java:47-83 | for printable ASCII values within the bound only the clock decides, and the token is good from the very instant of issue until exp + skew |
| TransactionIssuer.JavaBoundIsLaxer | deploy/pingfederate/plugins/src/main/java/org/example/wai/transaction/TransactionJwtIssuer.java:90-96 | concrete targets the issuer's bound admits and the verifier refuses |
| TrustedMetadata.ParseBindings | deploy/pingfederate/plugins/src/main/java/org/example/wai/transaction/TrustedTransactionMetadata.java:76-86 | the loop computes the line-by-line parse, refusing blank input, malformed lines and duplicate keys |
| TrustedMetadata.BindingsRoundTrip | deploy/pingfederate/scripts/generate_pf13_1_tfvars.py:114 | parsing the printed bindings gives the map back if and only if every entry is clean, in any printing order |
| TrustedMetadata.Derive | deploy/pingfederate/plugins/src/main/java/org/example/wai/transaction/TrustedTransactionMetadata.java:30-42 | the exact condition for deriving; the four trusted attributes come from metadata and supplier and every other one is unchanged |
| TrustedMetadata.DerivationIgnoresTrustedNames | deploy/pingfederate/plugins/src/main/java/org/example/wai/transaction/TrustedTransactionMetadata.java:30-42 | inputs that agree outside the four trusted names derive the same result |
| TtsAdapter.CheckForm | pkg/ttsadapter/handler.go:81-98 | the length check and the loops accept exactly forms whose key set is the eight names, each with one nonempty unpadded value |
| TtsAdapter.ThirdLoopNeverRejects | pkg/ttsadapter/handler.go:82-98 | eight keys including the eight names are the eight names, so the third loop is redundant |
| TtsAdapter.LifetimeCheckIsExact | pkg/ttsadapter/handler.go:139-145 | for bounds a Duration can hold the check accepts exactly lifetimes of whole seconds with 0 < upstream <= lifetime <= bound |
| TtsAdapter.SaturatedLifetimeRejected | pkg/ttsadapter/handler.go:139-140 | an accepted lifetime is the exact difference of the instants: a saturated one is never accepted |
| TtsAdapter.PromiseKeptExactlyForHarmlessBounds | pkg/ttsadapter/handler.go:139-145 | the promise holds for every int64 iat above zero, every exp and every upstream answer if and only if the configured bound is harmless |
| TtsAdapter.OneSecondBreaks | pkg/ttsadapter/handler.go:139-145 | under any other bound every one-second token passes for an upstream answer of some 292 years |
| TtsAdapter.OverflowingBoundExists | pkg/ttsadapter/handler.go:139-145 | a concrete bound, upstream answer and token, inside a window the verifier accepts, that break the promise |
| TtsAdapter.ServeHttp | pkg/ttsadapter/handler.go:59-154 | grants exactly when the request asks properly and the upstream token verifies to claims bound to caller, audience, scope and lifetime; the response; the status and error of every earlier refusal; and for every later one the first check that fails |
| TtsAdapter.GrantedLifetime | pkg/ttsadapter/handler.go:139-153 | for bounds a Duration can hold, 0 < upstream <= exp - iat = expires_in <= bound in the claims' own seconds |
| StrictAgent.DecodeReply | pkg/agent/strict.go:109-151 | decodes exactly bodies within the bound that serialise an object with the four names once each and valid values, to those values |
| StrictAgent.MemberOrderIsImmaterial | pkg/agent/strict.go:121-146 | objects with the same members, each name once, decode to the same result in any order |
| StrictAgent.ReplyIsUnique | pkg/agent/strict.go:109-151 | the input determines the decoded reply |
| StrictAgent.AdapterBodyIsReply | pkg/ttsadapter/handler.go:145-153 | every 200 body of an adapter bounded to sixty seconds spells out the same token and lifetime, usable exactly when the token fits the agent's bound |
| StrictAgent.AdapterBodyDecodes | pkg/agent/strict.go:109-151 | the agent decodes every such body to exactly that token and lifetime if the whole body fits its bound, and refuses it otherwise |
| StrictAgent.DecodedMeaning | pkg/agent/strict.go:109-151 | decoding yields a reply exactly when the body fits and serialises an object with the four names once each and these values |
| StrictAgent.Invoke | pkg/agent/strict.go:72-89 | a gateway call is made exactly for a usable reply whose token verifies to the demo claims, and its header carries exactly that token |
| AuditHistory.RunHoldsSuffix | pkg/audit/store.go:66-115 | after any run, with any clock, the store holds a suffix of the successful adds, numbered consecutively up to the counter, with distinct identifiers and at most MaximumRecords |
| AuditHistory.PurgeIsFilterExactly | pkg/audit/store.go:153-163 | prefix purging equals filtering if and only if no expired record follows a fresh one |
| AuditHistory.RunMatchesNaiveHistory | pkg/audit/store.go:66-115 | under a clock that does not go back between the operations that read it the store holds exactly the newest MaximumRecords of the unexpired history |
| AuditHistory.ClockStepKeepsExpiredRecord | pkg/audit/store.go:153-163 | a run with one backward clock step after which the store holds an expired record the naive history does not |
| AuditStore.Store.PurgeLocked | pkg/audit/store.go:153-163 | the in-place shift leaves exactly the records the purge function leaves |
| AuditStore.Store.Append | pkg/audit/store.go:83-88 | the in-place eviction and append compute the appended state |
| AuditStore.Store.Add | pkg/audit/store.go:66-90 | validates, clones and inserts: the new state and answer are the specified ones, and the returned evidence is new and apart from the store's |
| AuditStore.Store.ListByUser | pkg/audit/store.go:92-103 | returns the user's held records in order, with new evidence apart from the store's |
| AuditStore.Store.GetByUser | pkg/audit/store.go:105-115 | returns the first held record with this identifier and user, if any, with new evidence |
| AuditStore.NewStore | pkg/audit/store.go:56-64 | refuses exactly unusable bounds and starts empty |
| AuditStore.CloneToken | pkg/audit/token_evidence.go:84-92 | the clone shows the same evidence over a new object and new slices |
| AuditStore.CloneRecord | pkg/audit/store.go:142-145 | the cloned record shows the same record over new evidence |
| AuditStore.ForeignWritesInvisible | pkg/audit/store.go:66-115 | writes outside the store and the evidence it owns change nothing it will answer |
| AuditStore.Perform | pkg/audit/store.go:66-115 | every call leaves the state and gives back the records the value-level operation specifies, on evidence that is new and apart from the store's |
| AuditStore.CallerMutationsDoNotLeak | pkg/audit/store.go:66-115 | for any sequence of calls on a new in-place store, with arbitrary writes before, between and after them to all evidence passed in, handed out or held by anyone: every answer and the last state are those of the same operations on values, each add with its evidence as it stood at the call; the state is a suffix of the adds, and under a nondecreasing clock the naive history; and at the end none of that evidence shares anything with what the store holds |
| WebSessions.Handler.PurgeLocked | pkg/webapp/handler.go:408-419 | the two deletion loops leave exactly the unexpired entries of both tables |
| WebSessions.Handler.LoginSection | pkg/webapp/handler.go:174-183 | the new tables, and whether the flow was inserted |
| WebSessions.Handler.ConsumeSection | pkg/webapp/handler.go:207-212 | hands out the flow and removes it whatever comes later |
| WebSessions.Handler.InstallSection | pkg/webapp/handler.go:237-245 | purges and stamps with the callback's starting time |
| WebSessions.Handler.AuthenticateSection | pkg/webapp/handler.go:400-405 | the purged tables and the unexpired session, if any |
| LoginProtocol.StepsAreLockSections | pkg/webapp/handler.go:158-248 | the protocol's steps do to the tables what the lock sections do |
| LoginProtocol.CallbackIsLockSection | pkg/webapp/handler.go:207-216 | the callback's first step leaves the consumed tables and hands exactly a found and unexpired flow to its thread |
| LoginProtocol.RunKeeps | pkg/webapp/handler.go:158-311 | the invariant over tables, threads and history holds after every interleaving |
| LoginProtocol.TablesBounded | pkg/webapp/handler.go:174-183 | both tables never exceed MaximumSessions despite the gap between callback's lock sections |
| LoginProtocol.CreatedSessionsAreGenuine | pkg/webapp/handler.go:207-245 | every session ever created goes back to a login through the one consumption of that login's state, presented unexpired with a code, the one exchange of that code with the login's verifier, the one check of the ID token with its nonce, each step the only one of its kind for the one before it |
| LoginProtocol.SessionsMapInjectivelyToLogins | pkg/webapp/handler.go:207-245 | no two sessions ever created go back to the same login |
| LoginProtocol.ReturnedSessionsAreGenuine | pkg/webapp/handler.go:395-406 | an authenticated session was created with that full chain of unique steps, has not been deleted or replaced since, and is returned only before callback start + SessionTTL |
| LoginProtocol.ReturnAfterDeletionNeedsNewSession | pkg/webapp/handler.go:300-311 | an identifier is returned after its deletion only if a callback in between drew it again |
| LoginProtocol.DeletionNeedsSecret | pkg/webapp/handler.go:300-308 | a logout deletes only if its request presented the CSRF secret of a session created under that identifier |
| LoginProtocol.NothingReturnedAfterDeletion | pkg/webapp/handler.go:300-311 | with fresh identifiers no authentication returns a session after its logout deletion |
| LoginProtocol.AttemptInstallsSession | pkg/webapp/handler.go:158-248 | in any world with room, a login, a callback before the flow expires and accepting answers install exactly the session of the tokens and the subject |
| LoginProtocol.SessionServesUntilExpiry | pkg/webapp/handler.go:395-406 | that session is returned at any time before callback start + SessionTTL after any further actions of anyone, short of deleting or replacing it or moving the clock past its end |
| AuthorizationPolicy.Policy.Add | pkg/authorization/policy.go:58-88 | succeeds exactly for a well-formed rule whose expanded keys are distinct and new, and enters exactly those with the rule's scopes |
| AuthorizationPolicy.Policy.Authorize | pkg/authorization/policy.go:90-108 | allows exactly when the request's key is indexed and every required scope is granted |
| AuthorizationPolicy.Load | pkg/authorization/policy.go:46-55 | loads exactly nonempty lists of well-formed rules whose expanded keys never coincide, to their index |
| AuthorizationPolicy.MatchesIsKey | pkg/authorization/policy.go:73-80 | a rule matches exactly the requests whose key it expands to |
| AuthorizationPolicy.IndexDecidesLikeList | pkg/authorization/policy.go:33-108 | the compiled policy permits a request if and only if some trimmed rule matches it with all its scopes granted |
| AuthorizationPolicy.EntryCount | pkg/authorization/policy.go:73-86 | the index has the sum of purposes times tools as its size |
| AuthorizationPolicy.RuleOrderIsImmaterial | pkg/authorization/policy.go:50-54 | permuting the rules changes neither loading nor any decision |
| CanonicalScopes.Canonical | pkg/authorization/pingauthorize.go:137-149 | succeeds exactly for nonempty lists of pairwise distinct clean scopes, with the sorted list |
| CanonicalScopes.SortIsSortedPermutation | pkg/authorization/pingauthorize.go:141-142 | sorting yields a sorted permutation |
| CanonicalScopes.AdjacentCheckIsComplete | pkg/authorization/pingauthorize.go:143-147 | in a sorted list comparing neighbours finds every duplicate |
| CanonicalScopes.AttributeDenotesSet | pkg/authorization/pingauthorize.go:97 | two accepted lists give the same joined attribute if and only if they are equal as sets |

## Left out

- Cryptography: signatures, hashes, key fetching, certificates and TLS. A token verifies or not as a given function says, and a request's caller is authentic.
- Byte-level JSON lexing and string unescaping: input is a sequence of lexemes. Number literals are opaque except where an integer is read from one.
- The nesting limit of `encoding/json`'s value decoder, and case-insensitive member matching of struct decoding: typed claims are given.
- URL parsing, the credential patterns, evidence validation behind the middleware and the length of re-encoded JSON are function-valued parameters.
- HTTP servers and clients, the MCP SDK, the policy engines and the identity provider: arbitrary answers, and in the chain any number of deliveries of every message.
- Audit evidence in the chain's events is the token itself instead of its SHA-256 fingerprint.
- The agent's process as a sender in the chain: the environment may send anything as the agent, which includes what `StrictAgent.Invoke` sends.
- The demo `customer.get` tool, the non-strict gateway branches and the legacy Bearer path.
- NewHandler's and NewTxnTokenVerifier's remaining configuration checks, which bound nothing the proofs use.
- Invalid UTF-8: a Go string is a sequence of code points, with byte lengths those of its UTF-8 encoding.
- `sort.Strings` is an insertion sort on values; only that it yields the sorted permutation is used.
- Clock readings and instants are unbounded integers, except where the source computes in int64: `time.Unix`, `Sub`, conversions to `Duration`, the adapter's products and the audit sequence counter.
- The audit store's lock: every method of the store is one critical section.
- The browser handler's cookies, redirects and query parsing: states, codes and identifiers arrive as values, and identifiers may repeat except where a lemma asks for fresh ones.
