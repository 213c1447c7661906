/** What the bounded audit store holds, as values: one step per operation, whole runs of operations,
    and the naive full history the store must agree with. Times are nanoseconds. */
module AuditHistory {
  import opened Text

  datatype EvidenceView = EvidenceView(
    kind: string, fingerprint: string, issuer: string, audience: seq<string>, scope: seq<string>,
    jwtId: string, agentInstanceId: string, issuedAt: int, expiresAt: int)

  /** A record's caller-supplied fields. */
  datatype Summary = Summary(
    id: string, transactionId: string, userId: string, eventType: string, target: string, decision: string,
    reasonCode: string, agentId: string, transactionWorkloadId: string, immediateCaller: string, submitting: string,
    protocolMethod: string, tool: string, purpose: string, responseStatus: int, resultType: string, durationMillis: int)

  datatype RecordView = RecordView(summary: Summary, sequence: nat, timestamp: int, token: Option<EvidenceView>)

  datatype Config = Config(maximumRecords: nat, maximumFieldBytes: nat, retention: nat,
      credentialShaped: string -> bool)

  const NANOS_PER_DAY: nat := 24 * 60 * 60 * 1_000_000_000

  /** NewStore's check. */
  predicate ValidConfig(config: Config) {
    1 <= config.maximumRecords <= 100_000 && 1 <= config.maximumFieldBytes <= 0x1_0000
    && 1 <= config.retention <= NANOS_PER_DAY
  }

  const ALLOWED_EVENT_TYPES: set<string> := {
    "transaction.exchange.requested", "transaction.exchange.succeeded", "transaction.exchange.failed",
    "transaction.verify.succeeded", "transaction.verify.failed",
    "mcp.tool.requested", "mcp.tool.allowed", "mcp.tool.denied", "downstream.request"}

  predicate FieldFits(config: Config, value: string) {
    ByteLen(value) <= config.maximumFieldBytes && !config.credentialShaped(value)
  }

  predicate IsFingerprint(s: string) {
    |s| == 71 && HasPrefix(s, "sha256:")
    && forall i :: 7 <= i < 71 ==> '0' <= s[i] <= '9' || 'a' <= s[i] <= 'f'
  }

  /** validateTokenEvidence; the zero time is 0. */
  predicate ValidEvidence(config: Config, e: EvidenceView) {
    && (e.kind == "transaction_jwt" || e.kind == "txn_token")
    && IsFingerprint(e.fingerprint)
    && TrimSpace(e.issuer) != "" && e.audience != []
    && (e.kind == "transaction_jwt" ==> TrimSpace(e.jwtId) != "")
    && e.issuedAt != 0 && e.expiresAt != 0 && e.expiresAt > e.issuedAt
    && var fields := [e.kind, e.fingerprint, e.issuer, e.agentInstanceId]
                     + (if e.jwtId != "" then [e.jwtId] else []) + e.audience + e.scope;
       forall value :: value in fields ==> TrimSpace(value) != "" && FieldFits(config, value)
  }

  function TextFields(s: Summary): seq<string> {
    [s.id, s.transactionId, s.userId, s.eventType, s.target, s.decision, s.reasonCode, s.agentId,
        s.transactionWorkloadId,
     s.immediateCaller, s.submitting, s.protocolMethod, s.tool, s.purpose, s.resultType]
  }

  /** Store.validate. */
  predicate ValidRecord(config: Config, s: Summary, token: Option<EvidenceView>) {
    && (forall value :: value in [s.id, s.transactionId, s.userId, s.eventType, s.submitting]
          ==> TrimSpace(value) != "")
    && s.eventType in ALLOWED_EVENT_TYPES
    && (s.responseStatus == 0 || 100 <= s.responseStatus <= 599)
    && 0 <= s.durationMillis <= 86_400_000
    && s.decision in {"", "allow", "deny"}
    && (forall value :: value in TextFields(s) ==> FieldFits(config, value))
    && (token.Some? ==> ValidEvidence(config, token.value))
  }

  // ---------------------------------------------------------------------------------------------
  // One operation.

  /** The records, oldest first, and the uint64 sequence counter. */
  datatype State = State(records: seq<RecordView>, sequence: nat)

  const TWO_TO_64: nat := 0x1_0000_0000_0000_0000

  /** purgeLocked: drops the expired prefix. */
  function Purge(records: seq<RecordView>, cutoff: int): seq<RecordView> {
    if records != [] && records[0].timestamp < cutoff then Purge(records[1..], cutoff) else records
  }

  predicate HasId(records: seq<RecordView>, id: string) {
    exists i :: 0 <= i < |records| && records[i].summary.id == id
  }

  function Stamp(s: State, summary: Summary, token: Option<EvidenceView>, now: int): RecordView {
    RecordView(summary, (s.sequence + 1) % TWO_TO_64, now, token)
  }

  /** Appends a record, evicting the oldest one at capacity. */
  function Append(config: Config, s: State, record: RecordView): State {
    var room := if |s.records| > 0 && |s.records| == config.maximumRecords then s.records[1..] else s.records;
    State(room + [record], record.sequence)
  }

  /** Store.Add after validation: the new state, and the record if its identifier was not held. */
  function Add(config: Config, s: State, summary: Summary, token: Option<EvidenceView>, now: int)
      : (State, Option<RecordView>) {
    var purged := s.(records := Purge(s.records, now - config.retention));
    if HasId(purged.records, summary.id) then (purged, None)
    else (Append(config, purged, Stamp(s, summary, token, now)), Some(Stamp(s, summary, token, now)))
  }

  function OfUser(records: seq<RecordView>, user: string): seq<RecordView> {
    if records == [] then []
    else
      var last := records[|records| - 1];
      OfUser(records[..|records| - 1], user) + if last.summary.userId == user then [last] else []
  }

  // ---------------------------------------------------------------------------------------------
  // Whole runs.

  datatype Op =
    | OpAdd(summary: Summary, token: Option<EvidenceView>, now: int)
    | OpList(user: string, now: int)
    | OpGet(user: string, id: string, now: int)

  /** GetByUser's loop: the first record with this identifier and user. */
  function Find(records: seq<RecordView>, user: string, id: string): Option<RecordView> {
    if records == [] then None
    else if records[0].summary.id == id && records[0].summary.userId == user then Some(records[0])
    else Find(records[1..], user, id)
  }

  /** The state an operation leaves, and the records it answers with. */
  function NextState(config: Config, s: State, op: Op): State {
    match op
    case OpAdd(summary, token, now) =>
      if ValidRecord(config, summary, token) then Add(config, s, summary, token, now).0 else s
    case _ => s.(records := Purge(s.records, op.now - config.retention))
  }

  function Answer(config: Config, s: State, op: Op): seq<RecordView> {
    match op
    case OpAdd(summary, token, now) =>
      if !ValidRecord(config, summary, token) || Add(config, s, summary, token, now).1.None? then []
      else [Add(config, s, summary, token, now).1.value]
    case OpList(user, now) => OfUser(Purge(s.records, now - config.retention), user)
    case OpGet(user, id, now) =>
      var found := Find(Purge(s.records, now - config.retention), user, id);
      if found.None? then [] else [found.value]
  }

  /** The state with what a run has done: every record ever added and the cutoff of the last purge. */
  datatype Run = Run(state: State, history: seq<RecordView>, cutoff: Option<int>)

  function PurgeRun(config: Config, run: Run, now: int): Run {
    Run(run.state.(records := Purge(run.state.records, now - config.retention)), run.history,
        Some(now - config.retention))
  }

  function AppendRun(config: Config, run: Run, record: RecordView): Run {
    Run(Append(config, run.state, record), run.history + [record], run.cutoff)
  }

  function Apply(config: Config, run: Run, op: Op): Run {
    match op
    case OpAdd(summary, token, now) =>
      if !ValidRecord(config, summary, token) then run
      else
        var purged := PurgeRun(config, run, now);
        var added := Add(config, run.state, summary, token, now).1;
        if added.None? then purged else AppendRun(config, purged, added.value)
    case _ => PurgeRun(config, run, op.now)
  }

  /** The run's state is the one Add computes. */
  lemma ApplyIsAdd(config: Config, run: Run, summary: Summary, token: Option<EvidenceView>, now: int)
    requires ValidRecord(config, summary, token)
    ensures Apply(config, run, OpAdd(summary, token, now)).state == Add(config, run.state, summary, token, now).0
  {
  }

  const START: Run := Run(State([], 0), [], None)

  function Replay(config: Config, ops: seq<Op>): Run {
    if ops == [] then START else Apply(config, Replay(config, ops[..|ops| - 1]), ops[|ops| - 1])
  }

  lemma ReplayStep(config: Config, ops: seq<Op>, op: Op)
    ensures Replay(config, ops + [op]).state == NextState(config, Replay(config, ops).state, op)
  {
    assert (ops + [op])[..|ops|] == ops;
    if op.OpAdd? && ValidRecord(config, op.summary, op.token) {
      ApplyIsAdd(config, Replay(config, ops), op.summary, op.token, op.now);
    }
  }

  /** The state after operations performed from the front. */
  function StateAfter(config: Config, s: State, ops: seq<Op>): State
    decreases |ops|
  {
    if ops == [] then s else StateAfter(config, NextState(config, s, ops[0]), ops[1..])
  }

  lemma StateAfterCons(config: Config, s: State, op: Op, rest: seq<Op>)
    ensures StateAfter(config, s, [op] + rest) == StateAfter(config, NextState(config, s, op), rest)
  {
    assert ([op] + rest)[1..] == rest;
  }

  lemma {:induction false} StateAfterIsReplay(config: Config, done: seq<Op>, ops: seq<Op>)
    ensures StateAfter(config, Replay(config, done).state, ops) == Replay(config, done + ops).state
    decreases |ops|
  {
    if ops == [] {
      assert done + ops == done;
    } else {
      ReplayStep(config, done, ops[0]);
      StateAfterIsReplay(config, done + [ops[0]], ops[1..]);
      assert done + [ops[0]] + ops[1..] == done + ops;
    }
  }

  predicate DistinctIds(records: seq<RecordView>) {
    forall i, j :: 0 <= i < j < |records| ==> records[i].summary.id != records[j].summary.id
  }

  predicate IsSuffix(records: seq<RecordView>, history: seq<RecordView>) {
    |records| <= |history| && records == history[|history| - |records|..]
  }

  /** The n-th record ever added carries n, and so does the counter, modulo 2^64. */
  predicate Numbered(history: seq<RecordView>, sequence: nat) {
    sequence == |history| % TWO_TO_64 && forall i :: 0 <= i < |history| ==> history[i].sequence == (i + 1) % TWO_TO_64
  }

  /** The store holds the newest records of the history, numbered consecutively up to the counter. */
  predicate HoldsSuffix(config: Config, run: Run) {
    && IsSuffix(run.state.records, run.history)
    && |run.state.records| <= config.maximumRecords
    && DistinctIds(run.state.records)
    && Numbered(run.history, run.state.sequence)
  }

  lemma DropKeeps(records: seq<RecordView>, history: seq<RecordView>, n: nat)
    requires n <= |records| && IsSuffix(records, history) && DistinctIds(records)
    ensures IsSuffix(records[n..], history) && DistinctIds(records[n..])
  {
    assert history[|history| - |records|..][n..] == history[|history| - |records| + n..];
  }

  lemma PushKeeps(records: seq<RecordView>, history: seq<RecordView>, record: RecordView)
    requires IsSuffix(records, history) && DistinctIds(records) && !HasId(records, record.summary.id)
    ensures IsSuffix(records + [record], history + [record]) && DistinctIds(records + [record])
  {
    var start := |history| - |records|;
    assert (history + [record])[start..] == history[start..] + [record];
  }

  lemma NumberingContinues(history: seq<RecordView>, sequence: nat, record: RecordView)
    requires Numbered(history, sequence) && record.sequence == (sequence + 1) % TWO_TO_64
    ensures Numbered(history + [record], record.sequence)
  {
    assert (|history| % TWO_TO_64 + 1) % TWO_TO_64 == (|history| + 1) % TWO_TO_64;
  }

  /** How many records purging drops. */
  function ExpiredPrefix(records: seq<RecordView>, cutoff: int): (n: nat)
    ensures n <= |records| && Purge(records, cutoff) == records[n..]
    ensures forall i :: 0 <= i < n ==> records[i].timestamp < cutoff
    ensures n < |records| ==> records[n].timestamp >= cutoff
  {
    if records != [] && records[0].timestamp < cutoff then
      var m := ExpiredPrefix(records[1..], cutoff);
      assert records[1..][m..] == records[1 + m..];
      1 + m
    else 0
  }

  lemma PurgedKeeps(records: seq<RecordView>, history: seq<RecordView>, cutoff: int)
    requires IsSuffix(records, history) && DistinctIds(records)
    ensures IsSuffix(Purge(records, cutoff), history) && DistinctIds(Purge(records, cutoff))
            && |Purge(records, cutoff)| <= |records|
  {
    var n := ExpiredPrefix(records, cutoff);
    DropKeeps(records, history, n);
  }

  lemma PurgeKeepsSuffix(config: Config, run: Run, now: int)
    requires HoldsSuffix(config, run)
    ensures HoldsSuffix(config, PurgeRun(config, run, now))
  {
    PurgedKeeps(run.state.records, run.history, now - config.retention);
  }

  lemma AppendKeepsSuffix(config: Config, run: Run, record: RecordView)
    requires 1 <= config.maximumRecords && HoldsSuffix(config, run)
    requires !HasId(run.state.records, record.summary.id) && record.sequence == (run.state.sequence + 1) % TWO_TO_64
    ensures HoldsSuffix(config, AppendRun(config, run, record))
  {
    var room := run.state.records;
    if |room| == config.maximumRecords {
      DropKeeps(room, run.history, 1);
      room := room[1..];
    }
    assert !HasId(room, record.summary.id);
    PushKeeps(room, run.history, record);
    NumberingContinues(run.history, run.state.sequence, record);
  }

  lemma ApplyKeepsSuffix(config: Config, run: Run, op: Op)
    requires ValidConfig(config) && HoldsSuffix(config, run)
    ensures HoldsSuffix(config, Apply(config, run, op))
  {
    PurgeKeepsSuffix(config, run, op.now);
    if op.OpAdd? && Apply(config, run, op) != run && Apply(config, run, op) != PurgeRun(config, run, op.now) {
      AppendKeepsSuffix(config, PurgeRun(config, run, op.now), Stamp(run.state, op.summary, op.token, op.now));
    }
  }

  /** With any clock at all, every run leaves a contiguous suffix of the successful adds. */
  lemma {:induction false} RunHoldsSuffix(config: Config, ops: seq<Op>)
    requires ValidConfig(config)
    ensures HoldsSuffix(config, Replay(config, ops))
  {
    if ops != [] {
      RunHoldsSuffix(config, ops[..|ops| - 1]);
      ApplyKeepsSuffix(config, Replay(config, ops[..|ops| - 1]), ops[|ops| - 1]);
    }
  }

  // ---------------------------------------------------------------------------------------------
  // The naive history: keep everything, filter by age, show the newest.

  function Filter(history: seq<RecordView>, cutoff: int): seq<RecordView> {
    if history == [] then []
    else Filter(history[..|history| - 1], cutoff)
         + (if history[|history| - 1].timestamp >= cutoff then [history[|history| - 1]] else [])
  }

  function Newest(records: seq<RecordView>, n: nat): seq<RecordView> {
    if |records| <= n then records else records[|records| - n..]
  }

  function Unexpired(history: seq<RecordView>, cutoff: Option<int>): seq<RecordView> {
    if cutoff.None? then history else Filter(history, cutoff.value)
  }

  function Naive(config: Config, run: Run): seq<RecordView> {
    Newest(Unexpired(run.history, run.cutoff), config.maximumRecords)
  }

  predicate Ordered(history: seq<RecordView>) {
    forall i, j :: 0 <= i <= j < |history| ==> history[i].timestamp <= history[j].timestamp
  }

  /** A refused record is refused before the clock is read. */
  predicate ReadsClock(config: Config, op: Op) {
    op.OpAdd? ==> ValidRecord(config, op.summary, op.token)
  }

  predicate NondecreasingClock(config: Config, ops: seq<Op>) {
    forall i, j :: 0 <= i <= j < |ops| && ReadsClock(config, ops[i]) && ReadsClock(config, ops[j])
      ==> ops[i].now <= ops[j].now
  }

  /** No record from `k` on is expired, every earlier one is. */
  predicate Boundary(history: seq<RecordView>, cutoff: int, k: nat) {
    k <= |history|
    && (forall i :: 0 <= i < k ==> history[i].timestamp < cutoff)
    && (forall i :: k <= i < |history| ==> history[i].timestamp >= cutoff)
  }

  lemma {:induction false} FilterAtBoundary(history: seq<RecordView>, cutoff: int, k: nat)
    requires Boundary(history, cutoff, k)
    ensures Filter(history, cutoff) == history[k..]
  {
    if history != [] {
      var front, last := history[..|history| - 1], history[|history| - 1];
      if k == |history| {
        FilterAtBoundary(front, cutoff, k - 1);
      } else {
        FilterAtBoundary(front, cutoff, k);
        assert front[k..] + [last] == history[k..];
      }
    }
  }

  lemma OrderedHasBoundary(history: seq<RecordView>, cutoff: int)
    requires Ordered(history)
    ensures Boundary(history, cutoff, ExpiredPrefix(history, cutoff))
  {
    var k := ExpiredPrefix(history, cutoff);
    forall i | k <= i < |history| ensures history[i].timestamp >= cutoff {
      assert history[k].timestamp <= history[i].timestamp;
    }
  }

  lemma {:induction false} FilterIsFresh(history: seq<RecordView>, cutoff: int)
    ensures forall i :: 0 <= i < |Filter(history, cutoff)| ==> Filter(history, cutoff)[i].timestamp >= cutoff
  {
    if history != [] { FilterIsFresh(history[..|history| - 1], cutoff); }
  }

  /** Prefix purging drops exactly the expired records if and only if no expired one follows a fresh one,
      which a clock stepped backwards can bring about. */
  lemma PurgeIsFilterExactly(records: seq<RecordView>, cutoff: int)
    ensures Purge(records, cutoff) == Filter(records, cutoff)
            <==> forall i, j :: 0 <= i < j < |records| && records[j].timestamp < cutoff
                   ==> records[i].timestamp < cutoff
  {
    var n := ExpiredPrefix(records, cutoff);
    if forall i, j :: 0 <= i < j < |records| && records[j].timestamp < cutoff ==> records[i].timestamp < cutoff {
      assert Boundary(records, cutoff, n);
      FilterAtBoundary(records, cutoff, n);
    }
    if Purge(records, cutoff) == Filter(records, cutoff) {
      FilterIsFresh(records, cutoff);
      forall i | n <= i < |records| ensures records[i].timestamp >= cutoff {
        assert records[n..][i - n] == records[i];
      }
    }
  }

  /** In an ordered history, purging the prefix of a suffix is cutting it at the boundary. */
  lemma PurgeAtBoundary(history: seq<RecordView>, from: nat, cutoff: int, k: nat)
    requires from <= |history| && Boundary(history, cutoff, k)
    ensures Purge(history[from..], cutoff) == history[if from > k then from else k..]
  {
    var n := ExpiredPrefix(history[from..], cutoff);
    assert history[from..][n..] == history[from + n..];
    if n < |history| - from {
      assert history[from + n].timestamp >= cutoff;
    }
    if n > 0 {
      assert history[from..][n - 1] == history[from + n - 1];
    }
  }

  function MaxNat(a: nat, b: int): nat {
    if a > b then a else b
  }

  function Expired(history: seq<RecordView>, cutoff: Option<int>): (n: nat)
    ensures n <= |history|
  {
    if cutoff.None? then 0 else ExpiredPrefix(history, cutoff.value)
  }

  /** Where the naive view of the history starts, after a last purge at `cutoff`. */
  function Start(config: Config, history: seq<RecordView>, cutoff: Option<int>): (from: nat)
    ensures from <= |history|
  {
    MaxNat(Expired(history, cutoff), |history| - config.maximumRecords)
  }

  predicate NotAfter(history: seq<RecordView>, clock: int) {
    forall i :: 0 <= i < |history| ==> history[i].timestamp <= clock
  }

  /** What a nondecreasing clock adds: an ordered history not newer than the clock, cut where the naive one is. */
  predicate AgreesAt(config: Config, records: seq<RecordView>, history: seq<RecordView>, cutoff: Option<int>,
      clock: int) {
    && Ordered(history) && NotAfter(history, clock) && (cutoff.Some? ==> cutoff.value <= clock - config.retention)
    && records == history[Start(config, history, cutoff)..]
  }

  predicate Agrees(config: Config, run: Run, clock: int) {
    AgreesAt(config, run.state.records, run.history, run.cutoff, clock)
  }

  lemma NewestFrom(history: seq<RecordView>, k: nat, n: nat)
    requires k <= |history|
    ensures Newest(history[k..], n) == history[MaxNat(k, |history| - n)..]
  {
  }

  lemma UnexpiredFrom(history: seq<RecordView>, cutoff: Option<int>)
    requires Ordered(history)
    ensures Unexpired(history, cutoff) == history[Expired(history, cutoff)..]
  {
    if cutoff.Some? {
      OrderedHasBoundary(history, cutoff.value);
      FilterAtBoundary(history, cutoff.value, ExpiredPrefix(history, cutoff.value));
    }
  }

  lemma AgreesMeansNaive(config: Config, run: Run, clock: int)
    requires Agrees(config, run, clock)
    ensures run.state.records == Naive(config, run)
  {
    UnexpiredFrom(run.history, run.cutoff);
    NewestFrom(run.history, Expired(run.history, run.cutoff), config.maximumRecords);
  }

  lemma LaterCutoffExpiresMore(history: seq<RecordView>, before: int, cutoff: int)
    requires before <= cutoff
    ensures ExpiredPrefix(history, before) <= ExpiredPrefix(history, cutoff)
  {
  }

  /** Where the naive history starts after purging a suffix of it that starts where it started before. */
  lemma StartAfterPurge(config: Config, history: seq<RecordView>, last: Option<int>, cutoff: int)
    requires Ordered(history) && (last.Some? ==> last.value <= cutoff)
    ensures Purge(history[Start(config, history, last)..], cutoff) == history[Start(config, history, Some(cutoff))..]
  {
    OrderedHasBoundary(history, cutoff);
    PurgeAtBoundary(history, Start(config, history, last), cutoff, ExpiredPrefix(history, cutoff));
    if last.Some? { LaterCutoffExpiresMore(history, last.value, cutoff); }
  }

  lemma NotAfterLater(history: seq<RecordView>, clock: int, now: int)
    requires NotAfter(history, clock) && clock <= now
    ensures NotAfter(history, now)
  {
  }

  lemma PurgedStart(config: Config, records: seq<RecordView>, history: seq<RecordView>, last: Option<int>, cutoff: int)
    requires Ordered(history) && (last.Some? ==> last.value <= cutoff)
             && records == history[Start(config, history, last)..]
    ensures Purge(records, cutoff) == history[Start(config, history, Some(cutoff))..]
  {
    StartAfterPurge(config, history, last, cutoff);
  }

  /** Purging the stored suffix at a later cutoff leaves what the naive history shows at that cutoff. */
  lemma PurgeAgreesAt(config: Config, records: seq<RecordView>, history: seq<RecordView>, last: Option<int>,
      clock: int, now: int)
    requires AgreesAt(config, records, history, last, clock) && clock <= now
    ensures AgreesAt(config, Purge(records, now - config.retention), history, Some(now - config.retention), now)
  {
    NotAfterLater(history, clock, now);
    PurgedStart(config, records, history, last, now - config.retention);
  }

  lemma PurgedRunAgrees(config: Config, run: Run, now: int)
    requires AgreesAt(config, Purge(run.state.records, now - config.retention), run.history,
        Some(now - config.retention), now)
    ensures Agrees(config, PurgeRun(config, run, now), now)
  {
  }

  lemma PurgeAgrees(config: Config, run: Run, clock: int, now: int)
    requires Agrees(config, run, clock) && clock <= now
    ensures Agrees(config, PurgeRun(config, run, now), now)
  {
    PurgeAgreesAt(config, run.state.records, run.history, run.cutoff, clock, now);
    PurgedRunAgrees(config, run, now);
  }

  lemma {:induction false} ExpiredAfterAppend(records: seq<RecordView>, record: RecordView, cutoff: int)
    requires record.timestamp >= cutoff
    ensures ExpiredPrefix(records + [record], cutoff) == ExpiredPrefix(records, cutoff)
  {
    if records != [] {
      assert (records + [record])[1..] == records[1..] + [record];
      ExpiredAfterAppend(records[1..], record, cutoff);
    }
  }

  lemma StartAfterAppend(config: Config, history: seq<RecordView>, record: RecordView, cutoff: int)
    requires 1 <= config.maximumRecords && record.timestamp >= cutoff
    ensures var from := Start(config, history, Some(cutoff));
            Start(config, history + [record], Some(cutoff))
                == from + (if |history| - from == config.maximumRecords then 1 else 0)
  {
    ExpiredAfterAppend(history, record, cutoff);
  }

  lemma EvictAndPush(history: seq<RecordView>, from: nat, drop: nat, record: RecordView)
    requires from + drop <= |history|
    ensures history[from..][drop..] + [record] == (history + [record])[from + drop..]
  {
  }

  lemma OrderedAppend(history: seq<RecordView>, record: RecordView)
    requires Ordered(history) && NotAfter(history, record.timestamp)
    ensures Ordered(history + [record]) && NotAfter(history + [record], record.timestamp)
  {
  }

  lemma AppendAgreesAt(config: Config, records: seq<RecordView>, history: seq<RecordView>, cutoff: int,
      record: RecordView)
    requires 1 <= config.maximumRecords && AgreesAt(config, records, history, Some(cutoff), record.timestamp)
             && cutoff <= record.timestamp
    ensures AgreesAt(config, (if |records| == config.maximumRecords then records[1..] else records) + [record],
                     history + [record], Some(cutoff), record.timestamp)
  {
    OrderedAppend(history, record);
    StartAfterAppend(config, history, record, cutoff);
    var from := Start(config, history, Some(cutoff));
    EvictAndPush(history, from, if |records| == config.maximumRecords then 1 else 0, record);
  }

  lemma AppendAgrees(config: Config, run: Run, record: RecordView)
    requires 1 <= config.maximumRecords && run.cutoff.Some? && Agrees(config, run, record.timestamp)
    requires run.cutoff.value <= record.timestamp
    ensures Agrees(config, AppendRun(config, run, record), record.timestamp)
  {
    AppendAgreesAt(config, run.state.records, run.history, run.cutoff.value, record);
    assert run.cutoff == Some(run.cutoff.value);
  }

  lemma ApplyAgrees(config: Config, run: Run, clock: int, op: Op)
    requires ValidConfig(config) && Agrees(config, run, clock) && ReadsClock(config, op) && clock <= op.now
    ensures Agrees(config, Apply(config, run, op), op.now)
  {
    PurgeAgrees(config, run, clock, op.now);
    if op.OpAdd? && Apply(config, run, op) != PurgeRun(config, run, op.now) {
      AppendAgrees(config, PurgeRun(config, run, op.now), Stamp(run.state, op.summary, op.token, op.now));
    }
  }

  lemma AgreesLater(config: Config, run: Run, clock: int, now: int)
    requires Agrees(config, run, clock) && clock <= now
    ensures Agrees(config, run, now)
  {
    NotAfterLater(run.history, clock, now);
  }

  predicate ReadBy(config: Config, ops: seq<Op>, clock: int) {
    forall i :: 0 <= i < |ops| && ReadsClock(config, ops[i]) ==> ops[i].now <= clock
  }

  lemma FrontOfClock(config: Config, ops: seq<Op>)
    requires ops != [] && NondecreasingClock(config, ops)
    ensures NondecreasingClock(config, ops[..|ops| - 1])
    ensures ReadsClock(config, ops[|ops| - 1]) ==> ReadBy(config, ops[..|ops| - 1], ops[|ops| - 1].now)
    ensures forall clock :: ReadBy(config, ops, clock) ==> ReadBy(config, ops[..|ops| - 1], clock)
  {
    var front := ops[..|ops| - 1];
    assert forall i :: 0 <= i < |front| ==> front[i] == ops[i];
  }

  lemma {:induction false} RunAgrees(config: Config, ops: seq<Op>, clock: int)
    requires ValidConfig(config) && NondecreasingClock(config, ops) && ReadBy(config, ops, clock)
    ensures Agrees(config, Replay(config, ops), clock)
  {
    if ops != [] {
      var front, last := ops[..|ops| - 1], ops[|ops| - 1];
      FrontOfClock(config, ops);
      if ReadsClock(config, last) {
        RunAgrees(config, front, last.now);
        ApplyAgrees(config, Replay(config, front), last.now, last);
        AgreesLater(config, Replay(config, ops), last.now, clock);
      } else {
        RunAgrees(config, front, clock);
      }
    }
  }

  function Latest(ops: seq<Op>): (clock: int)
    ensures forall i :: 0 <= i < |ops| ==> ops[i].now <= clock
  {
    if ops == [] then 0
    else
      var before, last := Latest(ops[..|ops| - 1]), ops[|ops| - 1].now;
      assert forall i :: 0 <= i < |ops| - 1 ==> ops[..|ops| - 1][i] == ops[i];
      if before > last then before else last
  }

  /** Under a nondecreasing clock the bounded in-place store shows exactly what the naive history would:
      prefix purging is filtering, and eviction keeps the newest. */
  lemma RunMatchesNaiveHistory(config: Config, ops: seq<Op>)
    requires ValidConfig(config) && NondecreasingClock(config, ops)
    ensures Replay(config, ops).state.records == Naive(config, Replay(config, ops))
  {
    RunAgrees(config, ops, Latest(ops));
    AgreesMeansNaive(config, Replay(config, ops), Latest(ops));
  }

  lemma FirstAdd(config: Config, a: Summary)
    requires ValidConfig(config) && ValidRecord(config, a, None)
    ensures Apply(config, START, OpAdd(a, None, 1))
        == Run(State([RecordView(a, 1, 1, None)], 1), [RecordView(a, 1, 1, None)], Some(1 - config.retention))
  {
  }

  lemma SecondAddEarlier(config: Config, first: RecordView, b: Summary)
    requires ValidConfig(config) && config.maximumRecords >= 2 && ValidRecord(config, b, None)
    requires first.timestamp == 1 && first.summary.id != b.id
    ensures Apply(config, Run(State([first], 1), [first], Some(1 - config.retention)), OpAdd(b, None, 0))
            == Run(State([first, RecordView(b, 2, 0, None)], 2), [first, RecordView(b, 2, 0, None)],
                Some(0 - config.retention))
  {
    assert Purge([first], 0 - config.retention) == [first];
    assert !HasId([first], b.id);
  }

  lemma FilterDropsSecond(first: RecordView, second: RecordView, cutoff: int)
    requires second.timestamp < cutoff <= first.timestamp
    ensures Purge([first, second], cutoff) == [first, second] && Filter([first, second], cutoff) == [first]
  {
    assert [first, second][..1] == [first] && [first][..0] == [];
    assert Filter([first], cutoff) == [first];
  }

  /** A clock stepped backwards once is enough to break this: with room for two records, the store keeps an expired
      one behind a fresh one. */
  lemma ClockStepKeepsExpiredRecord(config: Config, a: Summary, b: Summary, user: string)
    requires ValidConfig(config) && config.maximumRecords >= 2
    requires ValidRecord(config, a, None) && ValidRecord(config, b, None) && a.id != b.id
    ensures var run := Replay(config, [OpAdd(a, None, 1), OpAdd(b, None, 0), OpList(user, 1 + config.retention)]);
            && run.state.records == [RecordView(a, 1, 1, None), RecordView(b, 2, 0, None)]
            && Naive(config, run) == [RecordView(a, 1, 1, None)]
  {
    var ops := [OpAdd(a, None, 1), OpAdd(b, None, 0), OpList(user, 1 + config.retention)];
    var first, second := RecordView(a, 1, 1, None), RecordView(b, 2, 0, None);
    assert ops[..2][..1][..0] == [] && ops[..2][..1] == [ops[0]];
    FirstAdd(config, a);
    SecondAddEarlier(config, first, b);
    FilterDropsSecond(first, second, 1);
    assert Replay(config, ops[..2][..1]) == Apply(config, START, ops[0]);
    assert Replay(config, ops[..2]) == Apply(config, Replay(config, ops[..2][..1]), ops[1]);
  }
}
