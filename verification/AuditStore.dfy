/** The audit store itself: a fixed backing array shifted in place, holding references to token evidence
    that only the store can reach. */
module AuditStore {
  import opened Text
  import opened AuditHistory

  /** Token evidence as the source holds it: a mutable object with two slices. */
  class TokenEvidence {
    var kind: string
    var fingerprint: string
    var issuer: string
    var audience: array<string>
    var scope: array<string>
    var jwtId: string
    var agentInstanceId: string
    var issuedAt: int
    var expiresAt: int

    function View(): EvidenceView
      reads this, audience, scope
    {
      EvidenceView(kind, fingerprint, issuer, audience[..], scope[..], jwtId, agentInstanceId, issuedAt, expiresAt)
    }

    /** cloneTokenEvidence: a new object over newly allocated slices. */
    constructor Clone(e: TokenEvidence)
      ensures View() == e.View()
      ensures fresh(audience) && fresh(scope)
    {
      kind, fingerprint, issuer := e.kind, e.fingerprint, e.issuer;
      jwtId, agentInstanceId, issuedAt, expiresAt := e.jwtId, e.agentInstanceId, e.issuedAt, e.expiresAt;
      var aud := new string[e.audience.Length];
      var sco := new string[e.scope.Length];
      forall i | 0 <= i < aud.Length { aud[i] := e.audience[i]; }
      forall i | 0 <= i < sco.Length { sco[i] := e.scope[i]; }
      audience, scope := aud, sco;
      new;
      assert audience[..] == e.audience[..] && scope[..] == e.scope[..];
    }
  }

  datatype Record = Record(summary: Summary, sequence: nat, timestamp: int, token: TokenEvidence?)

  function ViewToken(token: TokenEvidence?): Option<EvidenceView>
    reads token, if token != null then {token.audience, token.scope} else {}
  {
    if token == null then None else Some(token.View())
  }

  function ViewRecord(record: Record): RecordView
    reads record.token, if record.token != null then {record.token.audience, record.token.scope} else {}
  {
    RecordView(record.summary, record.sequence, record.timestamp, ViewToken(record.token))
  }

  /** Every object reachable from the token is in `objects`. */
  predicate Within(token: TokenEvidence?, objects: set<object>)
    reads objects
  {
    token != null ==> token in objects && token.audience in objects && token.scope in objects
  }

  /** Nothing reachable from the token is in `objects`. */
  predicate Apart(token: TokenEvidence?, objects: set<object>)
    reads token
  {
    token != null ==> token !in objects && token.audience !in objects && token.scope !in objects
  }

  ghost function Reach(token: TokenEvidence?): set<object>
    reads token
  {
    if token == null then {} else {token as object, token.audience as object, token.scope as object}
  }

  twostate predicate NewAndApart(new token: TokenEvidence?, new objects: set<object>)
    reads token
  {
    Apart(token, objects) && (token != null ==> fresh(token) && fresh(token.audience) && fresh(token.scope))
  }

  method CloneToken(token: TokenEvidence?) returns (copy: TokenEvidence?)
    ensures (copy == null) == (token == null)
    ensures copy != null ==> fresh(copy) && fresh(copy.audience) && fresh(copy.scope) && copy.View() == token.View()
  {
    if token == null {
      copy := null;
    } else {
      copy := new TokenEvidence.Clone(token);
    }
  }

  method CloneRecord(record: Record) returns (copy: Record)
    ensures ViewRecord(copy) == ViewRecord(record)
    ensures copy.token != null ==> fresh(copy.token) && fresh(copy.token.audience) && fresh(copy.token.scope)
  {
    var token := CloneToken(record.token);
    copy := record.(token := token);
  }

  class Store {
    const config: Config
    var buffer: array<Record>  // the slice's backing array; its first `len` records are the slice
    var len: nat
    var sequence: nat
    ghost var model: State
    ghost var owned: set<object>  // the evidence only this store may reach

    ghost predicate Shape()
      reads this
    {
      && ValidConfig(config) && buffer.Length == config.maximumRecords && len <= buffer.Length
      && this !in owned && buffer !in owned
    }

    /** The slice shows these records, and all their evidence is the store's own. */
    ghost predicate Shows(records: seq<RecordView>)
      reads this`buffer, this`len, this`owned, buffer, owned
    {
      && |records| == len <= buffer.Length
      && forall i :: 0 <= i < len ==> Within(buffer[i].token, owned) && ViewRecord(buffer[i]) == records[i]
    }

    ghost predicate Valid()
      reads this, buffer, owned
    {
      Shape() && Shows(model.records) && sequence == model.sequence
    }

    constructor (config: Config)
      requires ValidConfig(config)
      ensures Valid() && this.config == config && model == START.state && owned == {} && fresh(buffer)
    {
      this.config := config;
      buffer := new Record[config.maximumRecords](_ => Record(
        Summary("", "", "", "", "", "", "", "", "", "", "", "", "", "", 0, "", 0), 0, 0, null));
      len, sequence := 0, 0;
      model, owned := State([], 0), {};
    }

    /** purgeLocked's counting loop. */
    method CountExpired(cutoff: int) returns (first: nat)
      requires Valid()
      ensures first <= len && model.records[first..] == Purge(model.records, cutoff)
    {
      first := 0;
      while first < len && buffer[first].timestamp < cutoff
        invariant first <= len
        invariant Purge(model.records, cutoff) == Purge(model.records[first..], cutoff)
      {
        assert ViewRecord(buffer[first]) == model.records[first];
        assert model.records[first..][1..] == model.records[first + 1..];
        first := first + 1;
      }
      assert first < len ==> ViewRecord(buffer[first]) == model.records[first];
    }

    /** copy(s.records, s.records[n:]) followed by dropping the last n. */
    method ShiftDown(n: nat)
      requires Shape() && Shows(model.records) && n <= len
      modifies this`len, buffer
      ensures Shape() && len == old(len) - n && Shows(model.records[n..])
    {
      forall i | 0 <= i < len - n {
        buffer[i] := buffer[i + n];
      }
      len := len - n;
      forall i | 0 <= i < len ensures Within(buffer[i].token, owned) && ViewRecord(buffer[i]) == model.records[n..][i] {
        assert old(Within(buffer[i + n].token, owned) && ViewRecord(buffer[i + n]) == model.records[i + n]);
      }
    }

    /** purgeLocked: counts the expired prefix, then copies the rest to the front and reslices. */
    method PurgeLocked(now: int)
      requires Valid()
      modifies this`len, this`model, buffer
      ensures Valid()
      ensures model == old(model).(records := Purge(old(model.records), now - config.retention))
    {
      var first := CountExpired(now - config.retention);
      if first > 0 {
        ShiftDown(first);
      } else {
        assert model.records[0..] == model.records;
      }
      assert Shows(model.records[first..]);
      model := model.(records := model.records[first..]);
    }

    /** append(s.records, record), within capacity. */
    method Push(record: Record, ghost records: seq<RecordView>)
      requires Shape() && Shows(records) && len < buffer.Length && Within(record.token, owned)
      modifies this`len, buffer
      ensures Shape() && Shows(records + [old(ViewRecord(record))])
    {
      ghost var view := ViewRecord(record);
      buffer[len] := record;
      len := len + 1;
      forall i | 0 <= i < len - 1 ensures Within(buffer[i].token, owned) && ViewRecord(buffer[i]) == records[i] {
        assert old(Within(buffer[i].token, owned) && ViewRecord(buffer[i]) == records[i]);
      }
    }

    /** Whether a held record has this identifier. */
    method Holds(id: string) returns (found: bool)
      requires Valid()
      ensures found == HasId(model.records, id)
    {
      for i := 0 to len
        invariant forall j :: 0 <= j < i ==> model.records[j].summary.id != id
      {
        assert ViewRecord(buffer[i]) == model.records[i];
        if buffer[i].summary.id == id { return true; }
      }
      return false;
    }

    /** The branch at capacity copies down and reuses the last slot; the other appends. */
    method Append(record: Record)
      requires Valid() && Within(record.token, owned)
      modifies this`len, this`model, this`sequence, buffer
      ensures Valid() && model == AuditHistory.Append(config, old(model), old(ViewRecord(record)))
    {
      ghost var room, view := model.records, ViewRecord(record);
      if len == config.maximumRecords {
        ShiftDown(1);
        room := room[1..];
      }
      Push(record, room);
      sequence := record.sequence;
      model := State(room + [view], sequence);
    }

    ghost method Adopt(token: TokenEvidence?)
      requires Valid() && (token != null ==> token.audience != buffer as object && token.scope != buffer as object)
      modifies this`owned
      ensures Valid() && owned == old(owned) + Reach(token)
    {
      owned := owned + Reach(token);
      forall i | 0 <= i < len ensures Within(buffer[i].token, owned) && ViewRecord(buffer[i]) == model.records[i] {
        assert old(Within(buffer[i].token, owned));
      }
    }

    /** Add after validation, under the lock. */
    method Insert(summary: Summary, token: TokenEvidence?, now: int) returns (stored: Option<Record>)
      requires Valid() && Apart(token, owned)
      requires token != null ==> token.audience != buffer as object && token.scope != buffer as object
      modifies this`len, this`model, this`sequence, this`owned, buffer
      ensures Valid() && owned == old(owned) + if stored.None? then {} else Reach(token)
      ensures AuditHistory.Add(config, old(model), summary, old(ViewToken(token)), now)
              == (model, if stored.None? then None else Some(ViewRecord(stored.value)))
      ensures stored.Some? ==> NewAndApart(stored.value.token, owned)
    {
      PurgeLocked(now);
      var held := Holds(summary.id);
      if held { return None; }
      var record := Record(summary, (sequence + 1) % TWO_TO_64, now, token);
      Adopt(token);
      assert ViewRecord(record) == Stamp(old(model), summary, old(ViewToken(token)), now);
      Append(record);
      assert model == AuditHistory.Add(config, old(model), summary, old(ViewToken(token)), now).0;
      var returned := CloneRecord(record);
      return Some(returned);
    }

    /** Add: validates, clones the caller's evidence, and inserts the clone. */
    method Add(record: Record, now: int) returns (stored: Option<Record>)
      requires Valid()
      modifies this`len, this`model, this`sequence, this`owned, buffer
      ensures Valid() && old(owned) <= owned && fresh(owned - old(owned))
      ensures !ValidRecord(config, record.summary, old(ViewToken(record.token))) ==> stored.None? && model == old(model)
      ensures ValidRecord(config, record.summary, old(ViewToken(record.token))) ==>
                AuditHistory.Add(config, old(model), record.summary, old(ViewToken(record.token)), now)
                == (model, if stored.None? then None else Some(ViewRecord(stored.value)))
      ensures stored.Some? ==> NewAndApart(stored.value.token, owned)
    {
      var accepted := ValidRecord(config, record.summary, ViewToken(record.token));
      if !accepted { return None; }
      var copy := CloneToken(record.token);
      stored := Insert(record.summary, copy, now);
    }

    method CopyOfUser(user: string) returns (result: seq<Record>)
      requires Valid()
      ensures |result| == |OfUser(model.records, user)|
      ensures forall i :: 0 <= i < |result| ==> ViewRecord(result[i]) == OfUser(model.records, user)[i]
      ensures forall i :: 0 <= i < |result| ==> NewAndApart(result[i].token, owned)
    {
      result := [];
      for i := 0 to len
        invariant |result| == |OfUser(model.records[..i], user)|
        invariant forall j :: 0 <= j < |result| ==> ViewRecord(result[j]) == OfUser(model.records[..i], user)[j]
        invariant forall j :: 0 <= j < |result| ==> NewAndApart(result[j].token, owned)
      {
        assert ViewRecord(buffer[i]) == model.records[i];
        assert model.records[..i + 1][..i] == model.records[..i];
        if buffer[i].summary.userId == user {
          var copy := CloneRecord(buffer[i]);
          assert NewAndApart(copy.token, owned);
          result := result + [copy];
        }
      }
      assert model.records[..len] == model.records;
    }

    method ListByUser(user: string, now: int) returns (result: seq<Record>)
      requires Valid()
      modifies this`len, this`model, buffer
      ensures Valid()
      ensures model == old(model).(records := Purge(old(model.records), now - config.retention))
      ensures |result| == |OfUser(model.records, user)|
      ensures forall i :: 0 <= i < |result| ==> ViewRecord(result[i]) == OfUser(model.records, user)[i]
      ensures forall i :: 0 <= i < |result| ==> NewAndApart(result[i].token, owned)
    {
      PurgeLocked(now);
      result := CopyOfUser(user);
    }

    method GetByUser(user: string, id: string, now: int) returns (result: Option<Record>)
      requires Valid()
      modifies this`len, this`model, buffer
      ensures Valid()
      ensures model == old(model).(records := Purge(old(model.records), now - config.retention))
      ensures Find(model.records, user, id) == if result.None? then None else Some(ViewRecord(result.value))
      ensures result.Some? ==> NewAndApart(result.value.token, owned)
    {
      PurgeLocked(now);
      for i := 0 to len
        invariant Find(model.records, user, id) == Find(model.records[i..], user, id)
      {
        assert ViewRecord(buffer[i]) == model.records[i];
        assert model.records[i..][1..] == model.records[i + 1..];
        if buffer[i].summary.id == id && buffer[i].summary.userId == user {
          var copy := CloneRecord(buffer[i]);
          return Some(copy);
        }
      }
      return None;
    }
  }

  /** The source's constructor function, which refuses unusable bounds. */
  method NewStore(config: Config) returns (store: Store?)
    ensures (store != null) == ValidConfig(config)
    ensures store != null ==> fresh(store) && store.Valid() && store.config == config && store.model == START.state
  {
    if !ValidConfig(config) { return null; }
    store := new Store(config);
  }

  /** Writes outside the store and its own evidence leave everything it will ever answer unchanged: the
      answers are functions of `model`. */
  twostate lemma ForeignWritesInvisible(store: Store)
    requires old(store.Valid())
    requires unchanged(store) && unchanged(store.buffer) && unchanged(old(store.owned))
    ensures store.Valid() && store.model == old(store.model)
  {
    forall i | 0 <= i < store.len
      ensures Within(store.buffer[i].token, store.owned) && ViewRecord(store.buffer[i]) == store.model.records[i]
    {
      assert old(Within(store.buffer[i].token, store.owned) && ViewRecord(store.buffer[i]) == store.model.records[i]);
    }
  }

  /** Arbitrary writes through evidence the store does not own. */
  method Scribble(token: TokenEvidence, text: string, at: nat)
    modifies token, token.audience, token.scope
    ensures token.kind == text && token.fingerprint == text
    ensures (fresh(token.audience) || token.audience == old(token.audience))
            && (fresh(token.scope) || token.scope == old(token.scope))
  {
    if at < token.audience.Length { token.audience[at] := text; }
    if at < token.scope.Length { token.scope[at] := text; }
    token.kind, token.fingerprint, token.issuer, token.jwtId, token.agentInstanceId := text, text, text, text, text;
    token.issuedAt, token.expiresAt := at, at;
  }

  // ---------------------------------------------------------------------------------------------
  // Whole runs of the store itself, with callers that write whatever they can reach.

  datatype Call =
    | CallAdd(record: Record, now: int)
    | CallList(user: string, now: int)
    | CallGet(user: string, id: string, now: int)

  /** A call as an operation on values, with the evidence as it stands. */
  function OpOf(call: Call): Op
    reads if call.CallAdd? then {call.record.token} else {}
    reads if call.CallAdd? && call.record.token != null then {call.record.token.audience, call.record.token.scope}
        else {}
  {
    match call
    case CallAdd(record, now) => OpAdd(record.summary, ViewToken(record.token), now)
    case CallList(user, now) => OpList(user, now)
    case CallGet(user, id, now) => OpGet(user, id, now)
  }

  /** What the caller is given shows these records. */
  ghost predicate ShowsAnswer(given: seq<Record>, views: seq<RecordView>)
    reads set r | r in given && r.token != null :: r.token
    reads set r | r in given && r.token != null :: r.token.audience
    reads set r | r in given && r.token != null :: r.token.scope
  {
    |given| == |views| && forall i :: 0 <= i < |given| ==> ViewRecord(given[i]) == views[i]
  }

  /** The records given back are these, but for what their evidence shows by now. */
  predicate Matches(given: seq<Record>, views: seq<RecordView>) {
    |given| == |views|
    && forall i :: 0 <= i < |given| ==>
         && given[i].summary == views[i].summary && given[i].sequence == views[i].sequence
         && given[i].timestamp == views[i].timestamp && (given[i].token != null <==> views[i].token.Some?)
  }

  lemma ShownMatches(given: seq<Record>, views: seq<RecordView>)
    requires ShowsAnswer(given, views)
    ensures Matches(given, views)
  {
    forall i | 0 <= i < |given|
      ensures given[i].summary == views[i].summary && given[i].sequence == views[i].sequence
              && given[i].timestamp == views[i].timestamp && (given[i].token != null <==> views[i].token.Some?)
    {
      assert ViewRecord(given[i]) == views[i];
    }
  }

  method PerformAdd(store: Store, record: Record, now: int) returns (given: seq<Record>)
    requires store.Valid()
    modifies store`len, store`model, store`sequence, store`owned, store.buffer
    ensures store.Valid() && old(store.owned) <= store.owned && fresh(store.owned - old(store.owned))
    ensures store.model == NextState(store.config, old(store.model), old(OpOf(CallAdd(record, now))))
    ensures ShowsAnswer(given, Answer(store.config, old(store.model), old(OpOf(CallAdd(record, now)))))
    ensures forall i :: 0 <= i < |given| ==> NewAndApart(given[i].token, store.owned)
  {
    var stored := store.Add(record, now);
    given := if stored.None? then [] else [stored.value];
  }

  method PerformGet(store: Store, user: string, id: string, now: int) returns (given: seq<Record>)
    requires store.Valid()
    modifies store`len, store`model, store.buffer
    ensures store.Valid()
    ensures store.model == NextState(store.config, old(store.model), OpGet(user, id, now))
    ensures ShowsAnswer(given, Answer(store.config, old(store.model), OpGet(user, id, now)))
    ensures forall i :: 0 <= i < |given| ==> NewAndApart(given[i].token, store.owned)
  {
    var found := store.GetByUser(user, id, now);
    given := if found.None? then [] else [found.value];
  }

  method PerformList(store: Store, user: string, now: int) returns (given: seq<Record>)
    requires store.Valid()
    modifies store`len, store`model, store.buffer
    ensures store.Valid()
    ensures store.model == NextState(store.config, old(store.model), OpList(user, now))
    ensures ShowsAnswer(given, Answer(store.config, old(store.model), OpList(user, now)))
    ensures forall i :: 0 <= i < |given| ==> NewAndApart(given[i].token, store.owned)
  {
    given := store.ListByUser(user, now);
  }

  /** One call: the store's new state and what it gives back are the specified ones. */
  method Perform(store: Store, call: Call) returns (given: seq<Record>)
    requires store.Valid()
    modifies store`len, store`model, store`sequence, store`owned, store.buffer
    ensures store.Valid() && old(store.owned) <= store.owned && fresh(store.owned - old(store.owned))
    ensures store.model == NextState(store.config, old(store.model), old(OpOf(call)))
    ensures ShowsAnswer(given, Answer(store.config, old(store.model), old(OpOf(call))))
    ensures forall i :: 0 <= i < |given| ==> NewAndApart(given[i].token, store.owned)
  {
    match call {
      case CallAdd(record, now) => given := PerformAdd(store, record, now);
      case CallList(user, now) => given := PerformList(store, user, now);
      case CallGet(user, id, now) => given := PerformGet(store, user, id, now);
    }
  }

  /** No evidence out there shares anything with the store's own. */
  ghost predicate AllApart(store: Store, foreign: set<TokenEvidence>)
    reads store, foreign
  {
    forall t :: t in foreign ==>
      Apart(t, store.owned) && t.audience != store.buffer as object && t.scope != store.buffer as object
  }

  /** The evidence's slices are the old ones or new ones, but nobody else's. */
  twostate predicate OwnSlices(foreign: set<TokenEvidence>)
    reads foreign
  {
    forall t :: t in foreign ==>
      (t.audience == old(t.audience) || fresh(t.audience)) && (t.scope == old(t.scope) || fresh(t.scope))
  }

  /** Whoever holds evidence writes to it; the contract says nothing about what. */
  method Tamper(foreign: set<TokenEvidence>, text: string, at: nat)
    modifies foreign, set t | t in foreign :: t.audience, set t | t in foreign :: t.scope
    ensures OwnSlices(foreign)
  {
    var left := foreign;
    while left != {}
      invariant left <= foreign && OwnSlices(foreign)
    {
      var t :| t in left;
      Scribble(t, text, at);
      left := left - {t};
    }
  }

  /** The operation is the call; its evidence, if any, is whatever the caller's object showed when it was made. */
  predicate SameCall(call: Call, op: Op) {
    match call
    case CallAdd(record, now) =>
      op.OpAdd? && op.summary == record.summary && op.now == now && (op.token.Some? <==> record.token != null)
    case CallList(user, now) => op == OpList(user, now)
    case CallGet(user, id, now) => op == OpGet(user, id, now)
  }

  function TokensOf(given: seq<Record>): set<TokenEvidence> {
    set r: Record | r in given && r.token != null :: r.token
  }

  method PerformApart(store: Store, call: Call, ghost foreign: set<TokenEvidence>) returns (given: seq<Record>)
    requires store.Valid() && AllApart(store, foreign)
    modifies store`len, store`model, store`sequence, store`owned, store.buffer
    ensures store.Valid() && AllApart(store, foreign + TokensOf(given))
    ensures store.model == NextState(store.config, old(store.model), old(OpOf(call)))
    ensures Matches(given, Answer(store.config, old(store.model), old(OpOf(call))))
    ensures forall t :: t in TokensOf(given) ==> fresh(t) && fresh(t.audience) && fresh(t.scope)
  {
    given := Perform(store, call);
    ShownMatches(given, Answer(store.config, old(store.model), old(OpOf(call))));
  }

  /** Arbitrary writes to foreign evidence, then one call. */
  method Round(store: Store, call: Call, foreign: set<TokenEvidence>, text: string, at: nat)
      returns (given: seq<Record>, ghost op: Op)
    requires store.Valid() && AllApart(store, foreign)
    modifies store`len, store`model, store`sequence, store`owned, store.buffer
    modifies foreign, set t | t in foreign :: t.audience, set t | t in foreign :: t.scope
    ensures store.Valid() && SameCall(call, op) && store.model == NextState(store.config, old(store.model), op)
    ensures Matches(given, Answer(store.config, old(store.model), op))
    ensures OwnSlices(foreign) && AllApart(store, foreign + TokensOf(given))
    ensures forall t :: t in TokensOf(given) ==> fresh(t) && fresh(t.audience) && fresh(t.scope)
  {
    Tamper(foreign, text, at);
    ForeignWritesInvisible(store);
    op := OpOf(call);
    given := PerformApart(store, call, foreign);
  }

  predicate SameCalls(calls: seq<Call>, ops: seq<Op>) {
    |ops| == |calls| && forall i :: 0 <= i < |calls| ==> SameCall(calls[i], ops[i])
  }

  lemma SameCallsCons(calls: seq<Call>, op: Op, rest: seq<Op>)
    requires calls != [] && SameCall(calls[0], op) && SameCalls(calls[1..], rest)
    ensures SameCalls(calls, [op] + rest)
  {
    forall i | 0 <= i < |calls| ensures SameCall(calls[i], ([op] + rest)[i]) {
      assert i > 0 ==> calls[1..][i - 1] == calls[i] && ([op] + rest)[i] == rest[i - 1];
    }
  }

  /** The answers to the calls, from this state on. */
  predicate SameAnswers(config: Config, s: State, ops: seq<Op>, given: seq<seq<Record>>)
    decreases |ops|
  {
    if ops == [] || given == [] then ops == [] && given == []
    else
      && Matches(given[0], Answer(config, s, ops[0]))
      && SameAnswers(config, NextState(config, s, ops[0]), ops[1..], given[1..])
  }

  /** All evidence handed out. */
  function TokensOfAll(given: seq<seq<Record>>): set<TokenEvidence> {
    if given == [] then {} else TokensOf(given[0]) + TokensOfAll(given[1..])
  }

  lemma AnswersCons(config: Config, s: State, op: Op, first: seq<Record>, ops: seq<Op>, rest: seq<seq<Record>>)
    requires Matches(first, Answer(config, s, op)) && SameAnswers(config, NextState(config, s, op), ops, rest)
    ensures SameAnswers(config, s, [op] + ops, [first] + rest)
    ensures TokensOfAll([first] + rest) == TokensOf(first) + TokensOfAll(rest)
  {
    assert ([op] + ops)[1..] == ops && ([first] + rest)[1..] == rest;
  }

  /** Arbitrary writes that no call follows. */
  method LastBurst(store: Store, foreign: set<TokenEvidence>, text: string, at: nat)
    requires store.Valid() && AllApart(store, foreign)
    modifies foreign, set t | t in foreign :: t.audience, set t | t in foreign :: t.scope
    ensures store.Valid() && store.model == old(store.model) && AllApart(store, foreign)
  {
    Tamper(foreign, text, at);
    ForeignWritesInvisible(store);
  }

  /** One round per call, and a last burst of writes. */
  method Rounds(store: Store, calls: seq<Call>, foreign: set<TokenEvidence>, text: string, at: nat)
      returns (given: seq<seq<Record>>, ghost ops: seq<Op>)
    requires store.Valid() && AllApart(store, foreign)
    modifies store`len, store`model, store`sequence, store`owned, store.buffer
    modifies foreign, set t | t in foreign :: t.audience, set t | t in foreign :: t.scope
    ensures store.Valid() && AllApart(store, foreign + TokensOfAll(given))
    ensures SameCalls(calls, ops) && SameAnswers(store.config, old(store.model), ops, given)
    ensures store.model == StateAfter(store.config, old(store.model), ops)
    decreases |calls|
  {
    if calls == [] {
      LastBurst(store, foreign, text, at);
      assert foreign + {} == foreign;
      return [], [];
    }
    var first, op := Round(store, calls[0], foreign, text, at);
    var rest, later := Rounds(store, calls[1..], foreign + TokensOf(first), text, at);
    SameCallsCons(calls, op, later);
    StateAfterCons(store.config, old(store.model), op, later);
    AnswersCons(store.config, old(store.model), op, first, later, rest);
    assert foreign + TokensOfAll([first] + rest) == foreign + TokensOf(first) + TokensOfAll(rest);
    return [first] + rest, [op] + later;
  }

  /** All evidence passed in. */
  function PassedIn(calls: seq<Call>): set<TokenEvidence> {
    set call | call in calls && call.CallAdd? && call.record.token != null :: call.record.token
  }

  /** Any calls on a new store, with arbitrary writes before, between and after them to all evidence that was ever
      passed in or handed out, and to any other. The store ends where the same operations on values leave the naive
      run, every answer is the one they give, and at the end nothing a caller can reach is part of what the store
      holds: by ForeignWritesInvisible no later write changes an answer either. */
  method CallerMutationsDoNotLeak(config: Config, calls: seq<Call>, theirs: set<TokenEvidence>, text: string, at: nat)
      returns (store: Store, given: seq<seq<Record>>, ghost ops: seq<Op>)
    requires ValidConfig(config)
    modifies theirs, set t | t in theirs :: t.audience, set t | t in theirs :: t.scope
    modifies PassedIn(calls), set t | t in PassedIn(calls) :: t.audience, set t | t in PassedIn(calls) :: t.scope
    ensures fresh(store) && store.Valid() && store.config == config
    ensures AllApart(store, theirs + PassedIn(calls) + TokensOfAll(given))
    ensures SameCalls(calls, ops) && SameAnswers(config, START.state, ops, given)
    ensures store.model == Replay(config, ops).state && HoldsSuffix(config, Replay(config, ops))
    ensures NondecreasingClock(config, ops) ==> store.model.records == Naive(config, Replay(config, ops))
  {
    store := new Store(config);
    given, ops := Rounds(store, calls, theirs + PassedIn(calls), text, at);
    StateAfterIsReplay(config, [], ops);
    assert [] + ops == ops;
    RunHoldsSuffix(config, ops);
    if NondecreasingClock(config, ops) { RunMatchesNaiveHistory(config, ops); }
  }
}
