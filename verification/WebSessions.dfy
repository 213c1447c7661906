/** The browser login handler's two tables and the lock sections that touch them. Times are nanoseconds. */
module WebSessions {
  import opened Text

  datatype Config = Config(sessionTtl: int, preAuthTtl: int, maximumSessions: int)

  /** New's checks on the bounds. */
  predicate ValidConfig(config: Config) {
    config.sessionTtl > 0 && config.preAuthTtl > 0 && config.maximumSessions > 0
  }

  datatype Flow = Flow(nonce: string, verifier: string, expires: int)
  datatype Session = Session(subject: string, accessToken: string, csrf: string, expires: int)
  datatype Tables = Tables(preAuth: map<string, Flow>, sessions: map<string, Session>)

  /** purgeLocked: drops what has expired at `now` from both tables. */
  function Purge(t: Tables, now: int): Tables {
    Tables(map k | k in t.preAuth && now < t.preAuth[k].expires :: t.preAuth[k],
           map k | k in t.sessions && now < t.sessions[k].expires :: t.sessions[k])
  }

  /** login's lock section: whether the flow was inserted. */
  function Login(config: Config, t: Tables, state: string, nonce: string, verifier: string, now: int): (Tables, bool) {
    var p := Purge(t, now);
    if |p.preAuth| >= config.maximumSessions then (p, false)
    else (p.(preAuth := p.preAuth[state := Flow(nonce, verifier, now + config.preAuthTtl)]), true)
  }

  /** callback's first lock section: looks the flow up and deletes it whatever comes later. */
  function Consume(t: Tables, state: string, now: int): (Tables, Option<Flow>) {
    var p := Purge(t, now);
    (p.(preAuth := p.preAuth - {state}), if state in p.preAuth then Some(p.preAuth[state]) else None)
  }

  /** callback's second lock section, purging and stamping with the time read before the first. */
  function Install(config: Config, t: Tables, id: string, subject: string, accessToken: string, csrf: string,
      start: int): (Tables, bool) {
    var p := Purge(t, start);
    if |p.sessions| >= config.maximumSessions then (p, false)
    else (p.(sessions := p.sessions[id := Session(subject, accessToken, csrf, start + config.sessionTtl)]), true)
  }

  /** authenticate's lock section. */
  function Authenticate(t: Tables, id: string, now: int): (Tables, Option<Session>) {
    var p := Purge(t, now);
    (p, if id in p.sessions && now < p.sessions[id].expires then Some(p.sessions[id]) else None)
  }

  function Delete(t: Tables, id: string): Tables {
    t.(sessions := t.sessions - {id})
  }

  predicate WithinBounds(config: Config, t: Tables) {
    |t.preAuth| <= config.maximumSessions && |t.sessions| <= config.maximumSessions
  }

  lemma SubmapNotLarger<K, V>(a: map<K, V>, b: map<K, V>)
    requires a.Keys <= b.Keys
    ensures |a| <= |b|
  {
    var extra := b.Keys - a.Keys;
    assert b.Keys == a.Keys + extra;
  }

  /** The handler's mutable tables; each method is one critical section. */
  class Handler {
    const config: Config
    var preAuth: map<string, Flow>
    var sessions: map<string, Session>

    function Held(): Tables
      reads this
    {
      Tables(preAuth, sessions)
    }

    constructor (config: Config)
      requires ValidConfig(config)
      ensures this.config == config && Held() == Tables(map[], map[])
    {
      this.config := config;
      preAuth, sessions := map[], map[];
    }

    method PurgeLocked(now: int)
      modifies this`preAuth, this`sessions
      ensures Held() == Purge(old(Held()), now)
    {
      var keys := preAuth.Keys;
      while keys != {}
        invariant keys <= preAuth.Keys <= old(preAuth).Keys && sessions == old(sessions)
        invariant forall k :: k in preAuth ==> preAuth[k] == old(preAuth)[k]
        invariant forall k :: k in old(preAuth) && k !in keys ==> (k in preAuth <==> now < old(preAuth)[k].expires)
        decreases keys
      {
        var key :| key in keys;
        if !(now < preAuth[key].expires) {
          preAuth := preAuth - {key};
        }
        keys := keys - {key};
      }
      keys := sessions.Keys;
      while keys != {}
        invariant keys <= sessions.Keys <= old(sessions).Keys && preAuth == Purge(old(Held()), now).preAuth
        invariant forall k :: k in sessions ==> sessions[k] == old(sessions)[k]
        invariant forall k :: k in old(sessions) && k !in keys ==> (k in sessions <==> now < old(sessions)[k].expires)
        decreases keys
      {
        var key :| key in keys;
        if !(now < sessions[key].expires) {
          sessions := sessions - {key};
        }
        keys := keys - {key};
      }
    }

    method LoginSection(state: string, nonce: string, verifier: string, now: int) returns (inserted: bool)
      modifies this`preAuth, this`sessions
      ensures (Held(), inserted) == Login(config, old(Held()), state, nonce, verifier, now)
    {
      PurgeLocked(now);
      if |preAuth| >= config.maximumSessions { return false; }
      preAuth := preAuth[state := Flow(nonce, verifier, now + config.preAuthTtl)];
      return true;
    }

    method ConsumeSection(state: string, now: int) returns (flow: Option<Flow>)
      modifies this`preAuth, this`sessions
      ensures (Held(), flow) == Consume(old(Held()), state, now)
    {
      PurgeLocked(now);
      flow := if state in preAuth then Some(preAuth[state]) else None;
      preAuth := preAuth - {state};
    }

    method InstallSection(id: string, subject: string, accessToken: string, csrf: string, start: int)
        returns (installed: bool)
      modifies this`preAuth, this`sessions
      ensures (Held(), installed) == Install(config, old(Held()), id, subject, accessToken, csrf, start)
    {
      PurgeLocked(start);
      if |sessions| >= config.maximumSessions { return false; }
      sessions := sessions[id := Session(subject, accessToken, csrf, start + config.sessionTtl)];
      return true;
    }

    method AuthenticateSection(id: string, now: int) returns (current: Option<Session>)
      modifies this`preAuth, this`sessions
      ensures (Held(), current) == Authenticate(old(Held()), id, now)
    {
      PurgeLocked(now);
      current := if id in sessions && now < sessions[id].expires then Some(sessions[id]) else None;
    }

    method DeleteSection(id: string)
      modifies this`sessions
      ensures Held() == Delete(old(Held()), id)
    {
      sessions := sessions - {id};
    }
  }
}
