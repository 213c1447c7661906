/** Every interleaving of logins, callbacks, authentications and logouts. Threads stop only between lock
    sections; identifiers, clock readings and everything the identity provider answers are arbitrary. */
module LoginProtocol {
  import opened Text
  import opened WebSessions

  datatype Tokens = Tokens(accessToken: string, idToken: string, refreshToken: string)

  /** What has happened, oldest first. Each event names the earlier one that made it possible by its position. */
  datatype Event =
    | LoggedIn(state: string, nonce: string, verifier: string, now: int)
    | Consumed(login: nat, state: string, code: string, start: int)
    | Exchanged(consumed: nat, code: string, verifier: string, tokens: Tokens)
    | Verified(exchanged: nat, idToken: string, nonce: string, subject: string)
    | Created(verified: nat, id: string, session: Session)
    | Returned(id: string, session: Session, now: int)
    | Deleted(id: string, csrf: string)

  /** A callback or logout between two of its steps, with its local variables; `at` is its last event. */
  datatype Thread =
    | Exchanging(at: nat, code: string, flow: Flow, start: int)
    | Verifying(at: nat, flow: Flow, start: int, tokens: Tokens)
    | Installing(at: nat, start: int, tokens: Tokens, subject: string)
    | LoggingOut(id: string, csrf: string)

  /** The shared tables and the threads, with two bookkeeping maps: where each state was last inserted and
      each session identifier last created. */
  datatype World = World(tables: Tables, threads: map<nat, Thread>, log: seq<Event>,
                         inserted: map<string, nat>, created: map<string, nat>)

  datatype Action =
    | DoLogin(state: string, nonce: string, verifier: string, now: int)
    | DoCallback(tid: nat, state: string, code: string, now: int)
    | DoExchange(tid: nat, tokens: Option<Tokens>)
    | DoVerify(tid: nat, subject: Option<string>)
    | DoInstall(tid: nat, id: string, csrf: string)
    | DoAuthenticate(id: string, now: int)
    | DoLogout(tid: nat, id: string, now: int, originMatches: bool, csrf: string)
    | DoDelete(tid: nat)

  const START: World := World(Tables(map[], map[]), map[], [], map[], map[])

  function Stop(w: World, tid: nat): World {
    w.(threads := w.threads - {tid})
  }

  function StepLogin(config: Config, w: World, state: string, nonce: string, verifier: string, now: int): World {
    var (tables, ok) := Login(config, w.tables, state, nonce, verifier, now);
    if !ok then w.(tables := tables)
    else w.(tables := tables, log := w.log + [LoggedIn(state, nonce, verifier, now)],
        inserted := w.inserted[state := |w.log|])
  }

  function Forget(w: World, state: string): World {
    w.(tables := w.tables.(preAuth := w.tables.preAuth - {state}))
  }

  /** Deletes the pending flow and hands it to the callback's thread. */
  function Claim(w: World, tid: nat, state: string, code: string, now: int): World
    requires state in w.tables.preAuth && state in w.inserted
  {
    Forget(w, state).(log := w.log + [Consumed(w.inserted[state], state, code, now)],
                      threads := w.threads[tid := Exchanging(|w.log|, code, w.tables.preAuth[state], now)])
  }

  function Purged(w: World, now: int): World {
    w.(tables := Purge(w.tables, now))
  }

  /** The first lock section and the expiry check that follows it. */
  function StepCallback(w: World, tid: nat, state: string, code: string, now: int): World {
    var p := Purged(w, now);
    if state in p.tables.preAuth && now < p.tables.preAuth[state].expires && state in p.inserted
    then Claim(p, tid, state, code, now) else Forget(p, state)
  }

  /** The token endpoint's answer to the code and the flow's PKCE verifier. */
  function StepExchange(w: World, tid: nat, answer: Option<Tokens>): World
    requires tid in w.threads && w.threads[tid].Exchanging?
  {
    var t := w.threads[tid];
    if answer.None? || answer.value.refreshToken != "" then Stop(w, tid)
    else w.(log := w.log + [Exchanged(t.at, t.code, t.flow.verifier, answer.value)],
            threads := w.threads[tid := Verifying(|w.log|, t.flow, t.start, answer.value)])
  }

  /** The ID token verifier's answer to the flow's nonce. */
  function StepVerify(w: World, tid: nat, answer: Option<string>): World
    requires tid in w.threads && w.threads[tid].Verifying?
  {
    var t := w.threads[tid];
    if answer.None? || TrimSpace(answer.value) == "" then Stop(w, tid)
    else w.(log := w.log + [Verified(t.at, t.tokens.idToken, t.flow.nonce, answer.value)],
            threads := w.threads[tid := Installing(|w.log|, t.start, t.tokens, answer.value)])
  }

  function NewSession(config: Config, t: Thread, csrf: string): Session
    requires t.Installing?
  {
    Session(t.subject, t.tokens.accessToken, csrf, t.start + config.sessionTtl)
  }

  function Create(config: Config, w: World, tid: nat, id: string, csrf: string): World
    requires tid in w.threads && w.threads[tid].Installing?
  {
    var session := NewSession(config, w.threads[tid], csrf);
    Stop(w, tid).(tables := w.tables.(sessions := w.tables.sessions[id := session]),
                  created := w.created[id := |w.log|],
                  log := w.log + [Created(w.threads[tid].at, id, session)])
  }

  /** The second lock section. */
  function StepInstall(config: Config, w: World, tid: nat, id: string, csrf: string): World
    requires tid in w.threads && w.threads[tid].Installing?
  {
    var p := Purged(w, w.threads[tid].start);
    if |p.tables.sessions| < config.maximumSessions then Create(config, p, tid, id, csrf) else Stop(p, tid)
  }

  /** An empty cookie is refused before the lock. */
  function StepAuthenticate(w: World, id: string, now: int): World {
    var (tables, current) := Authenticate(w.tables, id, now);
    if id == "" then w
    else if current.None? then w.(tables := tables)
    else w.(tables := tables, log := w.log + [Returned(id, current.value, now)])
  }

  /** Authenticates, checks the origin and the CSRF secret, and goes on to the deletion. */
  function StepLogout(w: World, tid: nat, id: string, now: int, originMatches: bool, csrf: string): World {
    var current := Authenticate(w.tables, id, now).1;
    var next := StepAuthenticate(w, id, now);
    if id != "" && current.Some? && originMatches && csrf == current.value.csrf && tid !in w.threads
    then next.(threads := next.threads[tid := LoggingOut(id, csrf)]) else next
  }

  function StepDelete(w: World, tid: nat): World
    requires tid in w.threads && w.threads[tid].LoggingOut?
  {
    var id := w.threads[tid].id;
    Stop(w, tid).(tables := Delete(w.tables, id), log := w.log + [Deleted(id, w.threads[tid].csrf)])
  }

  function Step(config: Config, w: World, a: Action): World {
    match a
    case DoLogin(state, nonce, verifier, now) => StepLogin(config, w, state, nonce, verifier, now)
    case DoCallback(tid, state, code, now) => if tid !in w.threads then StepCallback(w, tid, state, code, now) else w
    case DoExchange(tid, answer) =>
      if tid in w.threads && w.threads[tid].Exchanging? then StepExchange(w, tid, answer) else w
    case DoVerify(tid, answer) =>
      if tid in w.threads && w.threads[tid].Verifying? then StepVerify(w, tid, answer) else w
    case DoInstall(tid, id, csrf) =>
      if tid in w.threads && w.threads[tid].Installing? then StepInstall(config, w, tid, id, csrf) else w
    case DoAuthenticate(id, now) => StepAuthenticate(w, id, now)
    case DoLogout(tid, id, now, originMatches, csrf) => StepLogout(w, tid, id, now, originMatches, csrf)
    case DoDelete(tid) => if tid in w.threads && w.threads[tid].LoggingOut? then StepDelete(w, tid) else w
  }

  /** The callback's first step hands a found and unexpired flow to a new thread, and otherwise stops. */
  lemma CallbackIsLockSection(w: World, tid: nat, state: string, code: string, now: int)
    requires forall s :: s in w.tables.preAuth ==> s in w.inserted
    ensures var (tables, flow) := Consume(w.tables, state, now);
            var next := StepCallback(w, tid, state, code, now);
            && next.tables == tables
            && next.threads == if flow.Some? && now < flow.value.expires
                               then w.threads[tid := Exchanging(|w.log|, code, flow.value, now)]
                               else w.threads
  {
  }

  /** The steps do to the tables, and read from them, exactly what the handler's lock sections do. */
  lemma StepsAreLockSections(config: Config, w: World, tid: nat, state: string, id: string, code: string, csrf: string,
      now: int)
    requires forall s :: s in w.tables.preAuth ==> s in w.inserted
    ensures StepLogin(config, w, state, code, csrf, now).tables == Login(config, w.tables, state, code, csrf, now).0
    ensures StepCallback(w, tid, state, code, now).tables == Consume(w.tables, state, now).0
    ensures tid in w.threads && w.threads[tid].Installing? ==>
              var t := w.threads[tid];
              StepInstall(config, w, tid, id, csrf).tables
              == Install(config, w.tables, id, t.subject, t.tokens.accessToken, csrf, t.start).0
    ensures id != "" ==> StepAuthenticate(w, id, now).tables == Authenticate(w.tables, id, now).0
    ensures tid in w.threads && w.threads[tid].LoggingOut? ==>
              StepDelete(w, tid).tables == Delete(w.tables, w.threads[tid].id)
  {
  }

  function Run(config: Config, actions: seq<Action>): World {
    if actions == [] then START else Step(config, Run(config, actions[..|actions| - 1]), actions[|actions| - 1])
  }

  // ---------------------------------------------------------------------------------------------
  // The invariant.

  /** The event an event was made possible by. */
  function Source(e: Event): Option<nat> {
    match e
    case Consumed(login, _, _, _) => Some(login)
    case Exchanged(consumed, _, _, _) => Some(consumed)
    case Verified(exchanged, _, _, _) => Some(exchanged)
    case Created(verified, _, _) => Some(verified)
    case _ => None
  }

  /** A session with this identifier and this CSRF secret was created before `i`. */
  predicate CreatedBefore(log: seq<Event>, i: nat, id: string, csrf: string) {
    exists k :: 0 <= k < i && k < |log| && log[k].Created? && log[k].id == id && log[k].session.csrf == csrf
  }

  /** The event at `i` agrees with the one it names. */
  predicate Linked(config: Config, log: seq<Event>, i: nat)
    requires i < |log|
  {
    match log[i]
    case Consumed(login, state, _, start) =>
      login < i && log[login].LoggedIn? && state == log[login].state && start < log[login].now + config.preAuthTtl
    case Exchanged(consumed, code, verifier, tokens) =>
      && consumed < i && log[consumed].Consumed? && code == log[consumed].code && tokens.refreshToken == ""
      && log[consumed].login < |log| && log[log[consumed].login].LoggedIn?
      && verifier == log[log[consumed].login].verifier
    case Verified(exchanged, idToken, nonce, subject) =>
      && exchanged < i && log[exchanged].Exchanged? && idToken == log[exchanged].tokens.idToken
      && TrimSpace(subject) != ""
      && log[exchanged].consumed < |log| && log[log[exchanged].consumed].Consumed?
      && var login := log[log[exchanged].consumed].login;
         login < |log| && log[login].LoggedIn? && nonce == log[login].nonce
    case Created(verified, _, session) =>
      && verified < i && log[verified].Verified? && session.subject == log[verified].subject
      && var exchanged := log[verified].exchanged;
         exchanged < |log| && log[exchanged].Exchanged? && session.accessToken == log[exchanged].tokens.accessToken
         && var consumed := log[exchanged].consumed;
            consumed < |log| && log[consumed].Consumed? && session.expires == log[consumed].start + config.sessionTtl
    case Deleted(id, csrf) => CreatedBefore(log, i, id, csrf)
    case _ => true
  }

  predicate AllLinked(config: Config, log: seq<Event>) {
    forall i :: 0 <= i < |log| ==> Linked(config, log, i)
  }

  /** No event is used twice. */
  predicate UsedOnce(log: seq<Event>) {
    forall i, j :: 0 <= i < j < |log| && Source(log[i]).Some? ==> Source(log[i]) != Source(log[j])
  }

  predicate Unused(log: seq<Event>, at: nat) {
    at < |log| && forall i :: 0 <= i < |log| ==> Source(log[i]) != Some(at)
  }

  predicate FlowOk(config: Config, log: seq<Event>, at: nat, state: string, flow: Flow) {
    Unused(log, at) && log[at] == LoggedIn(state, flow.nonce, flow.verifier, flow.expires - config.preAuthTtl)
  }

  /** Every pending flow carries what its login inserted, and nobody has consumed that login. */
  predicate PendingOk(config: Config, log: seq<Event>, preAuth: map<string, Flow>, inserted: map<string, nat>) {
    forall s :: s in preAuth ==> s in inserted && FlowOk(config, log, inserted[s], s, preAuth[s])
  }

  predicate LoginOf(log: seq<Event>, login: nat, flow: Flow) {
    login < |log| && log[login].LoggedIn? && log[login].nonce == flow.nonce && log[login].verifier == flow.verifier
  }

  /** A thread's locals agree with the log, and its last event is still its own to use. */
  predicate ThreadOk(log: seq<Event>, t: Thread) {
    match t
    case LoggingOut(id, csrf) => CreatedBefore(log, |log|, id, csrf)
    case Exchanging(at, code, flow, start) =>
      Unused(log, at) && log[at].Consumed? && log[at].code == code && log[at].start == start
      && LoginOf(log, log[at].login, flow)
    case Verifying(at, flow, start, tokens) =>
      Unused(log, at) && log[at].Exchanged? && log[at].tokens == tokens
      && log[at].consumed < |log| && log[log[at].consumed].Consumed? && log[log[at].consumed].start == start
      && LoginOf(log, log[log[at].consumed].login, flow)
    case Installing(at, start, tokens, subject) =>
      Unused(log, at) && log[at].Verified? && log[at].subject == subject
      && log[at].exchanged < |log| && log[log[at].exchanged].Exchanged? && log[log[at].exchanged].tokens == tokens
      && log[log[at].exchanged].consumed < |log| && log[log[log[at].exchanged].consumed].Consumed?
      && log[log[log[at].exchanged].consumed].start == start
  }

  predicate OwnEvents(threads: map<nat, Thread>) {
    forall x, y :: x in threads && y in threads && x != y && !threads[x].LoggingOut? && !threads[y].LoggingOut?
                   ==> threads[x].at != threads[y].at
  }

  predicate ThreadsOk(log: seq<Event>, threads: map<nat, Thread>) {
    (forall tid :: tid in threads ==> ThreadOk(log, threads[tid])) && OwnEvents(threads)
  }

  /** The last creation of `id`, at `at`, has not been followed by a deletion. */
  predicate Live(log: seq<Event>, at: nat, id: string, session: Session) {
    && at < |log| && log[at].Created? && log[at].id == id && log[at].session == session
    && forall k :: at < k < |log| ==> !(log[k].Deleted? && log[k].id == id) && !(log[k].Created? && log[k].id == id)
  }

  predicate SessionsOk(log: seq<Event>, sessions: map<string, Session>, created: map<string, nat>) {
    forall id :: id in sessions ==> id in created && Live(log, created[id], id, sessions[id])
  }

  /** What a returned session was when it was returned. */
  predicate ReturnOk(log: seq<Event>, i: nat)
    requires i < |log|
  {
    log[i].Returned? ==>
      log[i].now < log[i].session.expires && exists at :: 0 <= at < i && Live(log[..i], at, log[i].id, log[i].session)
  }

  predicate ReturnsOk(log: seq<Event>) {
    forall i :: 0 <= i < |log| ==> ReturnOk(log, i)
  }

  predicate LogOk(config: Config, log: seq<Event>) {
    AllLinked(config, log) && UsedOnce(log) && ReturnsOk(log)
  }

  predicate Inv(config: Config, w: World) {
    && WithinBounds(config, w.tables)
    && LogOk(config, w.log)
    && PendingOk(config, w.log, w.tables.preAuth, w.inserted)
    && ThreadsOk(w.log, w.threads)
    && SessionsOk(w.log, w.tables.sessions, w.created)
  }

  // ---------------------------------------------------------------------------------------------
  // Appending an event keeps every part of it.

  lemma CreatedBeforeLater(log: seq<Event>, e: Event, i: nat, id: string, csrf: string)
    requires i <= |log| && CreatedBefore(log, i, id, csrf)
    ensures CreatedBefore(log + [e], i, id, csrf) && CreatedBefore(log + [e], |log| + 1, id, csrf)
  {
    var k :| 0 <= k < i && k < |log| && log[k].Created? && log[k].id == id && log[k].session.csrf == csrf;
    assert (log + [e])[k] == log[k];
  }

  lemma LinkedLater(config: Config, log: seq<Event>, e: Event, i: nat)
    requires i < |log| && Linked(config, log, i)
    ensures Linked(config, log + [e], i)
  {
    if log[i].Deleted? { CreatedBeforeLater(log, e, i, log[i].id, log[i].csrf); }
  }

  lemma AppendReturnsOk(log: seq<Event>, e: Event)
    requires ReturnsOk(log) && ReturnOk(log + [e], |log|)
    ensures ReturnsOk(log + [e])
  {
    forall i | 0 <= i < |log| + 1 ensures ReturnOk(log + [e], i) {
      if i < |log| {
        assert ReturnOk(log, i);
        assert (log + [e])[..i] == log[..i];
      }
    }
  }

  lemma LogLater(config: Config, log: seq<Event>, e: Event)
    requires LogOk(config, log) && Linked(config, log + [e], |log|) && ReturnOk(log + [e], |log|)
    requires Source(e).Some? ==> Unused(log, Source(e).value)
    ensures LogOk(config, log + [e]) && Unused(log + [e], |log|)
  {
    forall i | 0 <= i < |log| + 1 ensures Linked(config, log + [e], i) {
      if i < |log| { LinkedLater(config, log, e, i); }
    }
    AppendReturnsOk(log, e);
    forall i | 0 <= i < |log| + 1 ensures Source((log + [e])[i]) != Some(|log|) {
      assert Linked(config, log + [e], i);
    }
  }

  predicate SubmapOf<K, V(==)>(a: map<K, V>, b: map<K, V>) {
    a.Keys <= b.Keys && forall k :: k in a ==> a[k] == b[k]
  }

  lemma PendingLater(config: Config, log: seq<Event>, e: Event, preAuth: map<string, Flow>, fewer: map<string, Flow>,
      inserted: map<string, nat>)
    requires PendingOk(config, log, preAuth, inserted) && SubmapOf(fewer, preAuth)
    requires forall s :: s in fewer ==> Source(e) != Some(inserted[s])
    ensures PendingOk(config, log + [e], fewer, inserted)
  {
    forall s | s in fewer ensures FlowOk(config, log + [e], inserted[s], s, fewer[s]) {
      assert FlowOk(config, log, inserted[s], s, preAuth[s]);
    }
  }

  lemma ThreadOkLater(log: seq<Event>, e: Event, t: Thread)
    requires ThreadOk(log, t) && (!t.LoggingOut? ==> Source(e) != Some(t.at))
    ensures ThreadOk(log + [e], t)
  {
    if t.LoggingOut? { CreatedBeforeLater(log, e, |log|, t.id, t.csrf); }
  }

  lemma ThreadsLater(log: seq<Event>, e: Event, threads: map<nat, Thread>)
    requires ThreadsOk(log, threads)
    requires forall tid :: tid in threads && !threads[tid].LoggingOut? ==> Source(e) != Some(threads[tid].at)
    ensures ThreadsOk(log + [e], threads)
  {
    forall tid | tid in threads ensures ThreadOk(log + [e], threads[tid]) {
      ThreadOkLater(log, e, threads[tid]);
    }
  }

  lemma OwnEventsMoved(others: map<nat, Thread>, tid: nat, t: Thread, moved: map<nat, Thread>)
    requires OwnEvents(others) && tid in moved && moved[tid] == t
    requires forall x :: x in moved && x != tid ==> x in others && moved[x] == others[x]
    requires !t.LoggingOut? ==> forall x :: x in others && x != tid && !others[x].LoggingOut? ==> others[x].at < t.at
    ensures OwnEvents(moved)
  {
  }

  /** Adds or advances a thread whose last event is the newest. */
  lemma ThreadMoves(log: seq<Event>, threads: map<nat, Thread>, tid: nat, t: Thread, moved: map<nat, Thread>)
    requires ThreadsOk(log, threads - {tid}) && ThreadOk(log, t) && moved == threads[tid := t]
    requires !t.LoggingOut? ==> forall x :: x in threads && x != tid && !threads[x].LoggingOut? ==> threads[x].at < t.at
    ensures ThreadsOk(log, moved)
  {
    var others := threads - {tid};
    assert forall x :: x in moved && x != tid ==> x in others && moved[x] == others[x];
    OwnEventsMoved(others, tid, t, moved);
  }

  lemma LiveLater(log: seq<Event>, e: Event, at: nat, id: string, session: Session)
    requires Live(log, at, id, session) && !(e.Deleted? && e.id == id) && !(e.Created? && e.id == id)
    ensures Live(log + [e], at, id, session)
  {
  }

  lemma SessionsLater(log: seq<Event>, e: Event, sessions: map<string, Session>, fewer: map<string, Session>,
      created: map<string, nat>)
    requires SessionsOk(log, sessions, created) && SubmapOf(fewer, sessions)
    requires forall id :: id in fewer ==> !(e.Deleted? && e.id == id) && !(e.Created? && e.id == id)
    ensures SessionsOk(log + [e], fewer, created)
  {
    forall id | id in fewer ensures Live(log + [e], created[id], id, fewer[id]) {
      LiveLater(log, e, created[id], id, sessions[id]);
    }
  }

  // ---------------------------------------------------------------------------------------------
  // Every step keeps it.

  lemma PurgeIsSubmap(t: Tables, now: int)
    ensures SubmapOf(Purge(t, now).preAuth, t.preAuth) && SubmapOf(Purge(t, now).sessions, t.sessions)
    ensures |Purge(t, now).preAuth| <= |t.preAuth| && |Purge(t, now).sessions| <= |t.sessions|
  {
    SubmapNotLarger(Purge(t, now).preAuth, t.preAuth);
    SubmapNotLarger(Purge(t, now).sessions, t.sessions);
  }

  lemma PurgedKeeps(config: Config, w: World, now: int)
    requires Inv(config, w)
    ensures Inv(config, Purged(w, now))
  {
    PurgeIsSubmap(w.tables, now);
  }

  lemma PutSize<K, V>(m: map<K, V>, k: K, v: V)
    ensures |m[k := v]| <= |m| + 1
  {
    assert m[k := v].Keys == m.Keys + {k};
  }

  lemma PendingInserted(config: Config, log: seq<Event>, preAuth: map<string, Flow>, inserted: map<string, nat>,
      state: string, flow: Flow, at: nat)
    requires PendingOk(config, log, preAuth, inserted) && FlowOk(config, log, at, state, flow)
    ensures PendingOk(config, log, preAuth[state := flow], inserted[state := at])
  {
  }

  lemma LoginKeeps(config: Config, w: World, state: string, nonce: string, verifier: string, now: int)
    requires Inv(config, w)
    ensures Inv(config, StepLogin(config, w, state, nonce, verifier, now))
  {
    PurgedKeeps(config, w, now);
    var p := Purge(w.tables, now);
    if |p.preAuth| < config.maximumSessions {
      var e := LoggedIn(state, nonce, verifier, now);
      var flow := Flow(nonce, verifier, now + config.preAuthTtl);
      PutSize(p.preAuth, state, flow);
      LogLater(config, w.log, e);
      PendingLater(config, w.log, e, p.preAuth, p.preAuth, w.inserted);
      PendingInserted(config, w.log + [e], p.preAuth, w.inserted, state, flow, |w.log|);
      ThreadsLater(w.log, e, w.threads);
      SessionsLater(w.log, e, p.sessions, p.sessions, w.created);
    }
  }

  /** No thread holds the login a pending flow came from, and no other pending flow does. */
  lemma PendingOwnsLogin(config: Config, w: World, state: string)
    requires Inv(config, w) && state in w.tables.preAuth
    ensures var login := w.inserted[state];
            && Unused(w.log, login)
            && (forall s :: s in w.tables.preAuth && s != state ==> w.inserted[s] != login)
            && (forall x :: x in w.threads && !w.threads[x].LoggingOut? ==> w.threads[x].at != login)
  {
    var login := w.inserted[state];
    assert FlowOk(config, w.log, login, state, w.tables.preAuth[state]);
    forall s | s in w.tables.preAuth && s != state ensures w.inserted[s] != login {
      assert FlowOk(config, w.log, w.inserted[s], s, w.tables.preAuth[s]);
    }
    forall x | x in w.threads && !w.threads[x].LoggingOut? ensures w.threads[x].at != login {
      assert ThreadOk(w.log, w.threads[x]);
    }
  }

  lemma ThreadsBelow(log: seq<Event>, threads: map<nat, Thread>)
    requires ThreadsOk(log, threads)
    ensures forall x :: x in threads && !threads[x].LoggingOut? ==> threads[x].at < |log|
  {
    forall x | x in threads && !threads[x].LoggingOut? ensures threads[x].at < |log| {
      assert ThreadOk(log, threads[x]);
    }
  }

  lemma ClaimThread(log: seq<Event>, e: Event, threads: map<nat, Thread>, tid: nat, flow: Flow)
    requires ThreadsOk(log, threads) && tid !in threads && e.Consumed? && LoginOf(log, e.login, flow)
             && Unused(log + [e], |log|)
    requires forall x :: x in threads && !threads[x].LoggingOut? ==> threads[x].at != e.login
    ensures ThreadsOk(log + [e], threads[tid := Exchanging(|log|, e.code, flow, e.start)])
  {
    var t := Exchanging(|log|, e.code, flow, e.start);
    ThreadsLater(log, e, threads);
    ThreadsBelow(log, threads);
    assert threads - {tid} == threads;
    assert ThreadOk(log + [e], t);
    ThreadMoves(log + [e], threads, tid, t, threads[tid := t]);
  }

  lemma ClaimKeeps(config: Config, w: World, tid: nat, state: string, code: string, now: int)
    requires Inv(config, w) && tid !in w.threads && state in w.tables.preAuth && now < w.tables.preAuth[state].expires
    ensures Inv(config, Claim(w, tid, state, code, now))
  {
    var e := Consumed(w.inserted[state], state, code, now);
    var flow := w.tables.preAuth[state];
    var fewer := w.tables.preAuth - {state};
    assert FlowOk(config, w.log, w.inserted[state], state, flow);
    SubmapNotLarger(fewer, w.tables.preAuth);
    PendingOwnsLogin(config, w, state);
    LogLater(config, w.log, e);
    PendingLater(config, w.log, e, w.tables.preAuth, fewer, w.inserted);
    ClaimThread(w.log, e, w.threads, tid, flow);
    SessionsLater(w.log, e, w.tables.sessions, w.tables.sessions, w.created);
  }

  lemma DropKeeps(config: Config, w: World, preAuth: map<string, Flow>, sessions: map<string, Session>)
    requires Inv(config, w) && SubmapOf(preAuth, w.tables.preAuth) && SubmapOf(sessions, w.tables.sessions)
    ensures Inv(config, w.(tables := Tables(preAuth, sessions)))
  {
    SubmapNotLarger(preAuth, w.tables.preAuth);
    SubmapNotLarger(sessions, w.tables.sessions);
  }

  lemma CallbackKeeps(config: Config, w: World, tid: nat, state: string, code: string, now: int)
    requires Inv(config, w) && tid !in w.threads
    ensures Inv(config, StepCallback(w, tid, state, code, now))
  {
    PurgedKeeps(config, w, now);
    var p := Purged(w, now);
    if state in p.tables.preAuth && now < p.tables.preAuth[state].expires {
      ClaimKeeps(config, p, tid, state, code, now);
    } else {
      DropKeeps(config, p, p.tables.preAuth - {state}, p.tables.sessions);
    }
  }

  /** A thread's last event is its own to use. */
  lemma ThreadOwnsEvent(config: Config, w: World, tid: nat)
    requires Inv(config, w) && tid in w.threads && !w.threads[tid].LoggingOut?
    ensures var at := w.threads[tid].at;
            && Unused(w.log, at)
            && (forall s :: s in w.tables.preAuth ==> w.inserted[s] != at)
            && (forall x :: x in w.threads - {tid} && !w.threads[x].LoggingOut? ==> w.threads[x].at != at)
  {
    assert ThreadOk(w.log, w.threads[tid]);
    forall s | s in w.tables.preAuth ensures w.inserted[s] != w.threads[tid].at {
      assert FlowOk(config, w.log, w.inserted[s], s, w.tables.preAuth[s]);
    }
  }

  lemma StopKeeps(log: seq<Event>, threads: map<nat, Thread>, tid: nat)
    requires ThreadsOk(log, threads)
    ensures ThreadsOk(log, threads - {tid})
  {
  }

  /** The exchange and verification steps: one event, and the thread moves on to it. */
  lemma Advance(config: Config, w: World, tid: nat, e: Event, t: Thread)
    requires Inv(config, w) && tid in w.threads && !w.threads[tid].LoggingOut? && Source(e) == Some(w.threads[tid].at)
    requires Linked(config, w.log + [e], |w.log|) && (e.Exchanged? || e.Verified?)
    requires !t.LoggingOut? && t.at == |w.log| && (Unused(w.log + [e], |w.log|) ==> ThreadOk(w.log + [e], t))
    ensures Inv(config, w.(log := w.log + [e], threads := w.threads[tid := t]))
  {
    ThreadOwnsEvent(config, w, tid);
    LogLater(config, w.log, e);
    PendingLater(config, w.log, e, w.tables.preAuth, w.tables.preAuth, w.inserted);
    StopKeeps(w.log, w.threads, tid);
    ThreadsLater(w.log, e, w.threads - {tid});
    ThreadsBelow(w.log, w.threads);
    ThreadMoves(w.log + [e], w.threads, tid, t, w.threads[tid := t]);
    SessionsLater(w.log, e, w.tables.sessions, w.tables.sessions, w.created);
  }

  lemma ExchangeKeeps(config: Config, w: World, tid: nat, answer: Option<Tokens>)
    requires Inv(config, w) && tid in w.threads && w.threads[tid].Exchanging?
    ensures Inv(config, StepExchange(w, tid, answer))
  {
    var t := w.threads[tid];
    assert ThreadOk(w.log, t);
    if answer.None? || answer.value.refreshToken != "" {
      StopKeeps(w.log, w.threads, tid);
    } else {
      var e := Exchanged(t.at, t.code, t.flow.verifier, answer.value);
      Advance(config, w, tid, e, Verifying(|w.log|, t.flow, t.start, answer.value));
    }
  }

  lemma VerifyKeeps(config: Config, w: World, tid: nat, answer: Option<string>)
    requires Inv(config, w) && tid in w.threads && w.threads[tid].Verifying?
    ensures Inv(config, StepVerify(w, tid, answer))
  {
    var t := w.threads[tid];
    assert ThreadOk(w.log, t);
    if answer.None? || TrimSpace(answer.value) == "" {
      StopKeeps(w.log, w.threads, tid);
    } else {
      var e := Verified(t.at, t.tokens.idToken, t.flow.nonce, answer.value);
      Advance(config, w, tid, e, Installing(|w.log|, t.start, t.tokens, answer.value));
    }
  }

  lemma SessionsInserted(log: seq<Event>, sessions: map<string, Session>, created: map<string, nat>, e: Event,
      id: string, session: Session)
    requires SessionsOk(log, sessions, created) && e.Created? && e.id == id && e.session == session
    ensures SessionsOk(log + [e], sessions[id := session], created[id := |log|])
  {
    var next, at := sessions[id := session], created[id := |log|];
    forall s | s in next ensures s in at && Live(log + [e], at[s], s, next[s]) {
      if s != id { LiveLater(log, e, created[s], s, sessions[s]); }
    }
  }

  lemma CreateKeeps(config: Config, w: World, tid: nat, id: string, csrf: string)
    requires Inv(config, w) && tid in w.threads && w.threads[tid].Installing?
             && |w.tables.sessions| < config.maximumSessions
    ensures Inv(config, Create(config, w, tid, id, csrf))
  {
    var session := NewSession(config, w.threads[tid], csrf);
    var e := Created(w.threads[tid].at, id, session);
    assert ThreadOk(w.log, w.threads[tid]);
    PutSize(w.tables.sessions, id, session);
    ThreadOwnsEvent(config, w, tid);
    LogLater(config, w.log, e);
    PendingLater(config, w.log, e, w.tables.preAuth, w.tables.preAuth, w.inserted);
    StopKeeps(w.log, w.threads, tid);
    ThreadsLater(w.log, e, w.threads - {tid});
    SessionsInserted(w.log, w.tables.sessions, w.created, e, id, session);
  }

  lemma InstallKeeps(config: Config, w: World, tid: nat, id: string, csrf: string)
    requires Inv(config, w) && tid in w.threads && w.threads[tid].Installing?
    ensures Inv(config, StepInstall(config, w, tid, id, csrf))
  {
    var p := Purged(w, w.threads[tid].start);
    PurgedKeeps(config, w, w.threads[tid].start);
    if |p.tables.sessions| < config.maximumSessions {
      CreateKeeps(config, p, tid, id, csrf);
    } else {
      StopKeeps(w.log, w.threads, tid);
    }
  }

  lemma AuthenticateKeeps(config: Config, w: World, id: string, now: int)
    requires Inv(config, w)
    ensures Inv(config, StepAuthenticate(w, id, now))
  {
    PurgedKeeps(config, w, now);
    var (p, current) := Authenticate(w.tables, id, now);
    if id != "" && current.Some? {
      var e := Returned(id, current.value, now);
      assert (w.log + [e])[..|w.log|] == w.log;
      assert Live(w.log, w.created[id], id, current.value);
      LogLater(config, w.log, e);
      PendingLater(config, w.log, e, p.preAuth, p.preAuth, w.inserted);
      ThreadsLater(w.log, e, w.threads);
      SessionsLater(w.log, e, p.sessions, p.sessions, w.created);
    }
  }

  lemma LogoutThread(log: seq<Event>, threads: map<nat, Thread>, tid: nat, id: string, csrf: string)
    requires ThreadsOk(log, threads) && tid !in threads && CreatedBefore(log, |log|, id, csrf)
    ensures ThreadsOk(log, threads[tid := LoggingOut(id, csrf)])
  {
    assert threads - {tid} == threads;
    ThreadMoves(log, threads, tid, LoggingOut(id, csrf), threads[tid := LoggingOut(id, csrf)]);
  }

  lemma AuthenticatedWasCreated(config: Config, w: World, id: string, now: int)
    requires Inv(config, w) && id != "" && Authenticate(w.tables, id, now).1.Some?
    ensures var log := StepAuthenticate(w, id, now).log;
            CreatedBefore(log, |log|, id, Authenticate(w.tables, id, now).1.value.csrf)
  {
    assert Live(w.log, w.created[id], id, w.tables.sessions[id]);
    CreatedBeforeLater(w.log, Returned(id, w.tables.sessions[id], now), |w.log|, id, w.tables.sessions[id].csrf);
  }

  /** The logout thread that follows a successful authentication. */
  lemma LogoutKeeps(config: Config, w: World, tid: nat, id: string, now: int)
    requires Inv(config, w) && tid !in w.threads && id != "" && Authenticate(w.tables, id, now).1.Some?
    ensures var next := StepAuthenticate(w, id, now);
            Inv(config, next.(threads := next.threads[tid := LoggingOut(id,
                Authenticate(w.tables, id, now).1.value.csrf)]))
  {
    AuthenticatedWasCreated(config, w, id, now);
    AuthenticateKeeps(config, w, id, now);
    var next := StepAuthenticate(w, id, now);
    LogoutThread(next.log, next.threads, tid, id, Authenticate(w.tables, id, now).1.value.csrf);
  }

  lemma LogoutStepKeeps(config: Config, w: World, tid: nat, id: string, now: int, originMatches: bool, csrf: string)
    requires Inv(config, w)
    ensures Inv(config, StepLogout(w, tid, id, now, originMatches, csrf))
  {
    AuthenticateKeeps(config, w, id, now);
    if tid !in w.threads && id != "" && Authenticate(w.tables, id, now).1.Some? {
      LogoutKeeps(config, w, tid, id, now);
    }
  }

  lemma DeleteKeeps(config: Config, w: World, tid: nat)
    requires Inv(config, w) && tid in w.threads && w.threads[tid].LoggingOut?
    ensures Inv(config, StepDelete(w, tid))
  {
    var id := w.threads[tid].id;
    var e := Deleted(id, w.threads[tid].csrf);
    var fewer := w.tables.sessions - {id};
    SubmapNotLarger(fewer, w.tables.sessions);
    assert ThreadOk(w.log, w.threads[tid]);
    CreatedBeforeLater(w.log, e, |w.log|, id, w.threads[tid].csrf);
    LogLater(config, w.log, e);
    PendingLater(config, w.log, e, w.tables.preAuth, w.tables.preAuth, w.inserted);
    StopKeeps(w.log, w.threads, tid);
    ThreadsLater(w.log, e, w.threads - {tid});
    SessionsLater(w.log, e, w.tables.sessions, fewer, w.created);
  }

  /** The steps that take a thread further. */
  lemma ThreadStepKeeps(config: Config, w: World, a: Action)
    requires Inv(config, w) && (a.DoExchange? || a.DoVerify? || a.DoInstall? || a.DoDelete?)
    ensures Inv(config, Step(config, w, a))
  {
    if a.tid in w.threads {
      var t := w.threads[a.tid];
      if a.DoExchange? && t.Exchanging? { ExchangeKeeps(config, w, a.tid, a.tokens); }
      if a.DoVerify? && t.Verifying? { VerifyKeeps(config, w, a.tid, a.subject); }
      if a.DoInstall? && t.Installing? { InstallKeeps(config, w, a.tid, a.id, a.csrf); }
      if a.DoDelete? && t.LoggingOut? { DeleteKeeps(config, w, a.tid); }
    }
  }

  /** The steps that start from a request. */
  lemma RequestStepKeeps(config: Config, w: World, a: Action)
    requires Inv(config, w) && (a.DoLogin? || a.DoCallback? || a.DoAuthenticate? || a.DoLogout?)
    ensures Inv(config, Step(config, w, a))
  {
    if a.DoLogin? { LoginKeeps(config, w, a.state, a.nonce, a.verifier, a.now); }
    if a.DoCallback? && a.tid !in w.threads { CallbackKeeps(config, w, a.tid, a.state, a.code, a.now); }
    if a.DoAuthenticate? { AuthenticateKeeps(config, w, a.id, a.now); }
    if a.DoLogout? { LogoutStepKeeps(config, w, a.tid, a.id, a.now, a.originMatches, a.csrf); }
  }

  lemma StepKeeps(config: Config, w: World, a: Action)
    requires Inv(config, w)
    ensures Inv(config, Step(config, w, a))
  {
    if a.DoLogin? || a.DoCallback? || a.DoAuthenticate? || a.DoLogout? {
      RequestStepKeeps(config, w, a);
    } else {
      ThreadStepKeeps(config, w, a);
    }
  }

  lemma {:induction false} RunKeeps(config: Config, actions: seq<Action>)
    requires ValidConfig(config)
    ensures Inv(config, Run(config, actions))
  {
    if actions != [] {
      RunKeeps(config, actions[..|actions| - 1]);
      StepKeeps(config, Run(config, actions[..|actions| - 1]), actions[|actions| - 1]);
    }
  }

  // ---------------------------------------------------------------------------------------------
  // What every run guarantees.

  /** Both tables stay within the configured bound, whatever happens between callback's two lock sections. */
  lemma TablesBounded(config: Config, actions: seq<Action>)
    requires ValidConfig(config)
    ensures WithinBounds(config, Run(config, actions).tables)
  {
    RunKeeps(config, actions);
  }

  /** Only this event names the one at `at`. */
  predicate OnlyUser(log: seq<Event>, at: nat, user: nat) {
    user < |log| && Source(log[user]) == Some(at)
    && forall k :: 0 <= k < |log| && Source(log[k]) == Some(at) ==> k == user
  }

  /** The whole history of one created session: the login, the one consumption of its state, the one exchange, with
      that login's verifier, and the one ID token check, against that login's nonce, in this order. */
  predicate Provenance(config: Config, log: seq<Event>, created: nat, login: nat, consumed: nat, exchanged: nat,
      verified: nat) {
    && login < consumed < exchanged < verified < created < |log|
    && log[login].LoggedIn? && log[consumed].Consumed? && log[exchanged].Exchanged? && log[verified].Verified?
    && log[created].Created?
    && OnlyUser(log, login, consumed) && OnlyUser(log, consumed, exchanged) && OnlyUser(log, exchanged, verified)
    && OnlyUser(log, verified, created)
    && log[consumed].state == log[login].state && log[consumed].start < log[login].now + config.preAuthTtl
    && log[exchanged].code == log[consumed].code && log[exchanged].verifier == log[login].verifier
    && log[exchanged].tokens.refreshToken == ""
    && log[verified].idToken == log[exchanged].tokens.idToken && log[verified].nonce == log[login].nonce
    && TrimSpace(log[verified].subject) != ""
    && var session := log[created].session;
       session.subject == log[verified].subject && session.accessToken == log[exchanged].tokens.accessToken
       && session.expires == log[consumed].start + config.sessionTtl
  }

  /** The login a created session goes back to. */
  function LoginIndex(log: seq<Event>, created: nat): nat {
    if created < |log| && log[created].Created? && log[created].verified < |log| && log[log[created].verified].Verified?
       && log[log[created].verified].exchanged < |log| && log[log[log[created].verified].exchanged].Exchanged?
       && log[log[log[created].verified].exchanged].consumed < |log|
       && log[log[log[log[created].verified].exchanged].consumed].Consumed?
    then log[log[log[log[created].verified].exchanged].consumed].login
    else 0
  }

  lemma UsedByOne(log: seq<Event>, user: nat)
    requires UsedOnce(log) && user < |log| && Source(log[user]).Some?
    ensures OnlyUser(log, Source(log[user]).value, user)
  {
  }

  lemma CreatedHasProvenance(config: Config, log: seq<Event>, created: nat)
      returns (consumed: nat, exchanged: nat, verified: nat)
    requires AllLinked(config, log) && UsedOnce(log) && created < |log| && log[created].Created?
    ensures Provenance(config, log, created, LoginIndex(log, created), consumed, exchanged, verified)
    ensures verified == log[created].verified && exchanged == log[verified].exchanged
            && consumed == log[exchanged].consumed
  {
    assert Linked(config, log, created);
    verified := log[created].verified;
    assert Linked(config, log, verified);
    exchanged := log[verified].exchanged;
    assert Linked(config, log, exchanged);
    consumed := log[exchanged].consumed;
    assert Linked(config, log, consumed);
    UsedByOne(log, created);
    UsedByOne(log, verified);
    UsedByOne(log, exchanged);
    UsedByOne(log, consumed);
  }

  /** Every session ever created goes back to a login, through the one consumption of its state, one exchange with
      its verifier and one check of its nonce. */
  lemma CreatedSessionsAreGenuine(config: Config, actions: seq<Action>, i: nat)
    requires ValidConfig(config)
    requires var log := Run(config, actions).log; i < |log| && log[i].Created?
    ensures var log := Run(config, actions).log;
            exists consumed, exchanged, verified ::
              Provenance(config, log, i, LoginIndex(log, i), consumed, exchanged, verified)
  {
    RunKeeps(config, actions);
    var consumed, exchanged, verified := CreatedHasProvenance(config, Run(config, actions).log, i);
  }

  lemma DistinctSources(log: seq<Event>, a: nat, b: nat)
    requires UsedOnce(log) && a < |log| && b < |log| && a != b && Source(log[a]).Some?
    ensures Source(log[a]) != Source(log[b])
  {
  }

  /** No two sessions ever created go back to the same login. */
  lemma SessionsMapInjectivelyToLogins(config: Config, actions: seq<Action>, i: nat, j: nat)
    requires ValidConfig(config)
    requires var log := Run(config, actions).log; i < j < |log| && log[i].Created? && log[j].Created?
    ensures var log := Run(config, actions).log; LoginIndex(log, i) != LoginIndex(log, j)
  {
    RunKeeps(config, actions);
    var log := Run(config, actions).log;
    var ci, xi, vi := CreatedHasProvenance(config, log, i);
    var cj, xj, vj := CreatedHasProvenance(config, log, j);
    DistinctSources(log, i, j);
    DistinctSources(log, vi, vj);
    DistinctSources(log, xi, xj);
    DistinctSources(log, ci, cj);
  }

  /** Every authentication that succeeds returns a session created earlier with full provenance, not deleted
      or replaced since, strictly before callback start + SessionTTL, hence before login + both lifetimes. */
  lemma ReturnedSessionsAreGenuine(config: Config, actions: seq<Action>, i: nat)
      returns (created: nat, consumed: nat, exchanged: nat, verified: nat)
    requires ValidConfig(config)
    requires var log := Run(config, actions).log; i < |log| && log[i].Returned?
    ensures var log := Run(config, actions).log;
            && created < i && Live(log[..i], created, log[i].id, log[i].session)
            && Provenance(config, log, created, LoginIndex(log, created), consumed, exchanged, verified)
            && log[created].session == log[i].session
            && log[i].now < log[consumed].start + config.sessionTtl
            && log[i].now < log[LoginIndex(log, created)].now + config.preAuthTtl + config.sessionTtl
  {
    RunKeeps(config, actions);
    var log := Run(config, actions).log;
    assert ReturnOk(log, i);
    created :| 0 <= created < i && Live(log[..i], created, log[i].id, log[i].session);
    assert log[..i][created] == log[created];
    consumed, exchanged, verified := CreatedHasProvenance(config, log, created);
  }

  /** A session is returned after a deletion only if a callback in between drew the same identifier again. */
  lemma ReturnAfterDeletionNeedsNewSession(config: Config, actions: seq<Action>, i: nat, j: nat) returns (created: nat)
    requires ValidConfig(config)
    requires var log := Run(config, actions).log;
             i < j < |log| && log[i].Deleted? && log[j].Returned? && log[i].id == log[j].id
    ensures var log := Run(config, actions).log;
            i < created < j && log[created].Created? && log[created].id == log[i].id
  {
    var log := Run(config, actions).log;
    var c, x, v;
    created, c, x, v := ReturnedSessionsAreGenuine(config, actions, j);
    assert log[..j][created] == log[created];
    assert log[..j][i] == log[i];
  }

  /** No session identifier is drawn twice. */
  predicate FreshIds(log: seq<Event>) {
    forall k, m :: 0 <= k < m < |log| && log[k].Created? && log[m].Created? ==> log[k].id != log[m].id
  }

  /** A logout deletes a session only if its request presented the CSRF secret of a session created under that
      identifier. */
  lemma DeletionNeedsSecret(config: Config, actions: seq<Action>, i: nat)
    requires ValidConfig(config)
    requires i < |Run(config, actions).log| && Run(config, actions).log[i].Deleted?
    ensures var log := Run(config, actions).log;
            exists k :: 0 <= k < i && log[k].Created? && log[k].id == log[i].id && log[k].session.csrf == log[i].csrf
  {
    RunKeeps(config, actions);
    assert Linked(config, Run(config, actions).log, i);
  }

  /** With fresh identifiers, nothing returned after a logout's deletion is the deleted session. */
  lemma NothingReturnedAfterDeletion(config: Config, actions: seq<Action>, i: nat, j: nat)
    requires ValidConfig(config)
    requires var log := Run(config, actions).log;
             FreshIds(log) && i < j < |log| && log[i].Deleted? && log[j].Returned?
    ensures var log := Run(config, actions).log; log[i].id != log[j].id
  {
    RunKeeps(config, actions);
    var log := Run(config, actions).log;
    assert Linked(config, log, i);
    var k :| 0 <= k < i && k < |log| && log[k].Created? && log[k].id == log[i].id;
    if log[i].id == log[j].id {
      var again := ReturnAfterDeletionNeedsNewSession(config, actions, i, j);
    }
  }

  // ---------------------------------------------------------------------------------------------
  // Undisturbed logins succeed, and their sessions serve until they expire.

  /** The world after these actions, from any world. */
  function Continue(config: Config, w: World, actions: seq<Action>): World {
    if actions == [] then w else Step(config, Continue(config, w, actions[..|actions| - 1]), actions[|actions| - 1])
  }

  /** What the browser and the provider bring to one login. */
  datatype Attempt = Attempt(
    state: string, nonce: string, verifier: string, begun: int, tid: nat, code: string, start: int, tokens: Tokens,
    subject: string, id: string, csrf: string)

  function BeginOf(a: Attempt): Action {
    DoLogin(a.state, a.nonce, a.verifier, a.begun)
  }

  function CallbackOf(a: Attempt): Action {
    DoCallback(a.tid, a.state, a.code, a.start)
  }

  function ExchangeOf(a: Attempt): Action {
    DoExchange(a.tid, Some(a.tokens))
  }

  function VerifyOf(a: Attempt): Action {
    DoVerify(a.tid, Some(a.subject))
  }

  function InstallOf(a: Attempt): Action {
    DoInstall(a.tid, a.id, a.csrf)
  }

  function ActionsOf(a: Attempt): seq<Action> {
    [BeginOf(a), CallbackOf(a), ExchangeOf(a), VerifyOf(a), InstallOf(a)]
  }

  function SessionOf(config: Config, a: Attempt): Session {
    Session(a.subject, a.tokens.accessToken, a.csrf, a.start + config.sessionTtl)
  }

  /** There is room, the callback comes before the login expires, and the provider's answers are acceptable. */
  predicate Succeeds(config: Config, w: World, a: Attempt) {
    && |Purge(w.tables, a.begun).preAuth| < config.maximumSessions
    && |Purge(Purge(w.tables, a.begun), a.start).sessions| < config.maximumSessions
    && a.tid !in w.threads && a.start < a.begun + config.preAuthTtl
    && a.tokens.refreshToken == "" && TrimSpace(a.subject) != ""
  }

  lemma PurgeTwice(t: Tables, now: int)
    ensures Purge(Purge(t, now), now) == Purge(t, now)
  {
  }

  lemma LoginThenCallback(config: Config, w: World, a: Attempt)
    requires Succeeds(config, w, a)
    ensures var u := StepCallback(StepLogin(config, w, a.state, a.nonce, a.verifier, a.begun), a.tid, a.state, a.code,
        a.start);
            && a.tid in u.threads && u.threads[a.tid].Exchanging? && u.threads[a.tid].start == a.start
            && u.tables.sessions == Purge(Purge(w.tables, a.begun), a.start).sessions
  {
    var v := StepLogin(config, w, a.state, a.nonce, a.verifier, a.begun);
    assert v.tables.preAuth[a.state] == Flow(a.nonce, a.verifier, a.begun + config.preAuthTtl);
    assert v.tables.sessions == Purge(w.tables, a.begun).sessions;
    assert a.state in Purge(v.tables, a.start).preAuth;
  }

  lemma AnswersThenInstall(config: Config, u: World, a: Attempt)
    requires a.tid in u.threads && u.threads[a.tid].Exchanging? && u.threads[a.tid].start == a.start
    requires a.tokens.refreshToken == "" && TrimSpace(a.subject) != ""
    requires |Purge(u.tables, a.start).sessions| < config.maximumSessions
    ensures var v := StepVerify(StepExchange(u, a.tid, Some(a.tokens)), a.tid, Some(a.subject));
            && v.threads[a.tid].Installing?
            && var x := StepInstall(config, v, a.tid, a.id, a.csrf);
               a.id in x.tables.sessions && x.tables.sessions[a.id] == SessionOf(config, a)
  {
  }

  lemma FiveActions(config: Config, w: World, a: Attempt)
    ensures var v := Step(config, Step(config, w, BeginOf(a)), CallbackOf(a));
            Continue(config, w, ActionsOf(a))
            == Step(config, Step(config, Step(config, v, ExchangeOf(a)), VerifyOf(a)), InstallOf(a))
  {
    var all := ActionsOf(a);
    assert all[..4][..3] == all[..3] && all[..3][..2] == all[..2] && all[..2][..1] == all[..1] && all[..1][..0] == [];
    assert Continue(config, w, all[..1]) == Step(config, w, all[0]);
    assert Continue(config, w, all[..2]) == Step(config, Continue(config, w, all[..1]), all[1]);
    assert Continue(config, w, all[..3]) == Step(config, Continue(config, w, all[..2]), all[2]);
    assert Continue(config, w, all[..4]) == Step(config, Continue(config, w, all[..3]), all[3]);
  }

  lemma FirstTwoActions(config: Config, w: World, a: Attempt)
    requires Succeeds(config, w, a)
    ensures Step(config, Step(config, w, BeginOf(a)), CallbackOf(a))
            == StepCallback(StepLogin(config, w, a.state, a.nonce, a.verifier, a.begun), a.tid, a.state, a.code,
                a.start)
  {
    var v := StepLogin(config, w, a.state, a.nonce, a.verifier, a.begun);
    assert Step(config, w, BeginOf(a)) == v && a.tid !in v.threads;
  }

  lemma LastThreeActions(config: Config, u: World, a: Attempt)
    requires a.tid in u.threads && u.threads[a.tid].Exchanging? && u.threads[a.tid].start == a.start
    requires a.tokens.refreshToken == "" && TrimSpace(a.subject) != ""
    requires |Purge(u.tables, a.start).sessions| < config.maximumSessions
    ensures var x := Step(config, Step(config, Step(config, u, ExchangeOf(a)), VerifyOf(a)), InstallOf(a));
            a.id in x.tables.sessions && x.tables.sessions[a.id] == SessionOf(config, a)
  {
    AnswersThenInstall(config, u, a);
    var v := StepExchange(u, a.tid, Some(a.tokens));
    assert Step(config, u, ExchangeOf(a)) == v && v.threads[a.tid].Verifying?;
    assert Step(config, v, VerifyOf(a)) == StepVerify(v, a.tid, Some(a.subject));
  }

  /** In any world with room, a login, a callback before it expires and accepting answers install the session. */
  lemma AttemptInstallsSession(config: Config, w: World, a: Attempt)
    requires Succeeds(config, w, a)
    ensures var sessions := Continue(config, w, ActionsOf(a)).tables.sessions;
            a.id in sessions && sessions[a.id] == SessionOf(config, a)
  {
    FiveActions(config, w, a);
    FirstTwoActions(config, w, a);
    LoginThenCallback(config, w, a);
    var u := Step(config, Step(config, w, BeginOf(a)), CallbackOf(a));
    PurgeTwice(Purge(w.tables, a.begun), a.start);
    assert Purge(u.tables, a.start).sessions == u.tables.sessions;
    LastThreeActions(config, u, a);
  }

  /** The time an action purges with, if it does. */
  function PurgeTime(w: World, a: Action): Option<int> {
    match a
    case DoLogin(_, _, _, now) => Some(now)
    case DoCallback(tid, _, _, now) => if tid !in w.threads then Some(now) else None
    case DoInstall(tid, _, _) =>
      if tid in w.threads && w.threads[tid].Installing? then Some(w.threads[tid].start) else None
    case DoAuthenticate(id, now) => if id != "" then Some(now) else None
    case DoLogout(_, id, now, _, _) => if id != "" then Some(now) else None
    case _ => None
  }

  /** The action neither deletes nor replaces this session, and its clock has not reached the session's end. */
  predicate Spares(w: World, a: Action, id: string, expires: int) {
    && (PurgeTime(w, a).Some? ==> PurgeTime(w, a).value < expires)
    && (a.DoInstall? ==> a.id != id)
    && (a.DoDelete? && a.tid in w.threads && w.threads[a.tid].LoggingOut? ==> w.threads[a.tid].id != id)
  }

  /** The session is in the tables as it was. */
  predicate Keeps(before: Tables, after: Tables, id: string) {
    id in before.sessions ==> id in after.sessions && after.sessions[id] == before.sessions[id]
  }

  lemma SparedPurge(t: Tables, now: int, id: string)
    requires id in t.sessions && now < t.sessions[id].expires
    ensures Keeps(t, Purge(t, now), id)
  {
  }

  lemma SparedInstall(config: Config, w: World, tid: nat, other: string, csrf: string, id: string)
    requires tid in w.threads && w.threads[tid].Installing? && other != id
    requires id in w.tables.sessions && w.threads[tid].start < w.tables.sessions[id].expires
    ensures Keeps(w.tables, StepInstall(config, w, tid, other, csrf).tables, id)
  {
    SparedPurge(w.tables, w.threads[tid].start, id);
  }

  lemma SparedLogout(w: World, tid: nat, id: string, other: string, now: int, originMatches: bool, csrf: string)
    requires id in w.tables.sessions && (other != "" ==> now < w.tables.sessions[id].expires)
    ensures Keeps(w.tables, StepLogout(w, tid, other, now, originMatches, csrf).tables, id)
  {
    if other != "" { SparedPurge(w.tables, now, id); }
  }

  lemma SparedStep(config: Config, w: World, a: Action, id: string)
    requires id in w.tables.sessions && Spares(w, a, id, w.tables.sessions[id].expires)
    ensures Keeps(w.tables, Step(config, w, a).tables, id)
  {
    match a
    case DoLogin(_, _, _, now) => SparedPurge(w.tables, now, id);
    case DoCallback(tid, _, _, now) => if tid !in w.threads { SparedPurge(w.tables, now, id); }
    case DoExchange(_, _) =>
    case DoVerify(_, _) =>
    case DoInstall(tid, other, csrf) =>
      if tid in w.threads && w.threads[tid].Installing? { SparedInstall(config, w, tid, other, csrf, id); }
    case DoAuthenticate(other, now) => if other != "" { SparedPurge(w.tables, now, id); }
    case DoLogout(tid, other, now, originMatches, csrf) => SparedLogout(w, tid, id, other, now, originMatches, csrf);
    case DoDelete(_) =>
  }

  predicate AllSpare(config: Config, w: World, actions: seq<Action>, id: string, expires: int) {
    forall i :: 0 <= i < |actions| ==> Spares(Continue(config, w, actions[..i]), actions[i], id, expires)
  }

  lemma {:induction false} SparedRun(config: Config, w: World, actions: seq<Action>, id: string)
    requires id in w.tables.sessions && AllSpare(config, w, actions, id, w.tables.sessions[id].expires)
    ensures var sessions := Continue(config, w, actions).tables.sessions;
            id in sessions && sessions[id] == w.tables.sessions[id]
  {
    if actions != [] {
      var front, last := actions[..|actions| - 1], actions[|actions| - 1];
      forall i | 0 <= i < |front|
          ensures Spares(Continue(config, w, front[..i]), front[i], id, w.tables.sessions[id].expires) {
        assert front[..i] == actions[..i] && front[i] == actions[i];
      }
      SparedRun(config, w, front, id);
      assert actions[..|actions| - 1] == front;
      SparedStep(config, Continue(config, w, front), last, id);
    }
  }

  /** The session of such an attempt is returned to whoever presents its identifier at any time before callback start +
      SessionTTL, whatever else happens meanwhile short of deleting or replacing it or moving the clock past its end. */
  lemma SessionServesUntilExpiry(config: Config, w: World, a: Attempt, others: seq<Action>, now: int)
    requires Succeeds(config, w, a) && a.id != "" && now < a.start + config.sessionTtl
    requires AllSpare(config, Continue(config, w, ActionsOf(a)), others, a.id, a.start + config.sessionTtl)
    ensures var last := Continue(config, Continue(config, w, ActionsOf(a)), others);
            StepAuthenticate(last, a.id, now).log == last.log + [Returned(a.id, SessionOf(config, a), now)]
  {
    AttemptInstallsSession(config, w, a);
    SparedRun(config, Continue(config, w, ActionsOf(a)), others, a.id);
  }
}
