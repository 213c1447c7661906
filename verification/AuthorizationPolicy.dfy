/** The JSON authorization policy: a rule list compiled to a keyed index, against the list itself. */
module AuthorizationPolicy {
  import opened Text

  datatype Rule = Rule(agentId: string, workloadId: string, purposes: seq<string>, scopes: seq<string>, target: string,
      tools: seq<string>)
  datatype Key = Key(agent: string, workload: string, purpose: string, target: string, tool: string)
  datatype Request = Request(agent: string, workload: string, purpose: string, scopes: seq<string>, target: string,
      tool: string)

  // ---------------------------------------------------------------------------------------------
  // The rule list as a decision procedure.

  predicate NoneBlank(items: seq<string>) {
    forall s :: s in items ==> TrimSpace(s) != ""
  }

  predicate WellFormed(rule: Rule) {
    && TrimSpace(rule.agentId) != "" && HasPrefix(TrimSpace(rule.workloadId), "spiffe://")
    && TrimSpace(rule.target) != ""
    && rule.purposes != [] && rule.scopes != [] && rule.tools != []
    && NoneBlank(rule.scopes) && NoneBlank(rule.purposes) && NoneBlank(rule.tools)
  }

  function Required(rule: Rule): set<string> {
    set s | s in rule.scopes :: TrimSpace(s)
  }

  predicate Matches(rule: Rule, request: Request) {
    && TrimSpace(rule.agentId) == request.agent && TrimSpace(rule.workloadId) == request.workload
    && (exists p :: p in rule.purposes && TrimSpace(p) == request.purpose)
    && TrimSpace(rule.target) == request.target
    && (exists t :: t in rule.tools && TrimSpace(t) == request.tool)
  }

  /** Some rule, trimmed, matches and asks for no scope that was not granted. */
  predicate Permits(rules: seq<Rule>, request: Request) {
    exists rule :: rule in rules && Matches(rule, request) && forall s :: s in Required(rule) ==> s in request.scopes
  }

  // ---------------------------------------------------------------------------------------------
  // The keys a list expands to.

  function KeyOf(rule: Rule, purpose: string, tool: string): Key {
    Key(TrimSpace(rule.agentId), TrimSpace(rule.workloadId), TrimSpace(purpose), TrimSpace(rule.target),
        TrimSpace(tool))
  }

  function ToolKeys(rule: Rule, purpose: string, tools: seq<string>): (keys: seq<Key>)
    ensures |keys| == |tools|
    ensures forall i :: 0 <= i < |tools| ==> keys[i] == KeyOf(rule, purpose, tools[i])
  {
    if tools == [] then []
    else ToolKeys(rule, purpose, tools[..|tools| - 1]) + [KeyOf(rule, purpose, tools[|tools| - 1])]
  }

  function PurposeKeys(rule: Rule, purposes: seq<string>): seq<Key> {
    if purposes == [] then []
    else PurposeKeys(rule, purposes[..|purposes| - 1]) + ToolKeys(rule, purposes[|purposes| - 1], rule.tools)
  }

  function RuleKeys(rule: Rule): seq<Key> {
    PurposeKeys(rule, rule.purposes)
  }

  function ListKeys(rules: seq<Rule>): seq<Key> {
    if rules == [] then [] else ListKeys(rules[..|rules| - 1]) + RuleKeys(rules[|rules| - 1])
  }

  predicate SoFar(rules: seq<Rule>) {
    (forall rule :: rule in rules ==> WellFormed(rule)) && Distinct(ListKeys(rules))
  }

  /** What loading demands: well-formed rules whose expanded keys never coincide. */
  predicate Loadable(rules: seq<Rule>) {
    rules != [] && SoFar(rules)
  }

  function RequestKey(r: Request): Key {
    Key(r.agent, r.workload, r.purpose, r.target, r.tool)
  }

  predicate Expands(rule: Rule, purposes: seq<string>, key: Key) {
    exists p, t :: p in purposes && t in rule.tools && key == KeyOf(rule, p, t)
  }

  lemma ToolKeysMembers(rule: Rule, purpose: string, key: Key)
    ensures key in ToolKeys(rule, purpose, rule.tools) <==>
              exists t :: t in rule.tools && key == KeyOf(rule, purpose, t)
  {
    var keys := ToolKeys(rule, purpose, rule.tools);
    if key in keys {
      var n :| 0 <= n < |keys| && keys[n] == key;
      assert rule.tools[n] in rule.tools;
    }
    if t :| t in rule.tools && key == KeyOf(rule, purpose, t) {
      var n :| 0 <= n < |rule.tools| && rule.tools[n] == t;
      assert keys[n] == key;
    }
  }

  lemma {:induction false} PurposeKeysMembers(rule: Rule, purposes: seq<string>, key: Key)
    ensures key in PurposeKeys(rule, purposes) <==> Expands(rule, purposes, key)
  {
    if purposes != [] {
      var front, last := purposes[..|purposes| - 1], purposes[|purposes| - 1];
      PurposeKeysMembers(rule, front, key);
      ToolKeysMembers(rule, last, key);
      assert purposes == front + [last];
      assert forall p :: p in purposes <==> p in front || p == last;
    }
  }

  /** A rule matches exactly the requests whose key it expands to. */
  lemma MatchesIsKey(rule: Rule, request: Request)
    ensures Matches(rule, request) <==> RequestKey(request) in RuleKeys(rule)
  {
    PurposeKeysMembers(rule, rule.purposes, RequestKey(request));
    if Matches(rule, request) {
      var p :| p in rule.purposes && TrimSpace(p) == request.purpose;
      var t :| t in rule.tools && TrimSpace(t) == request.tool;
      assert RequestKey(request) == KeyOf(rule, p, t);
    }
  }

  // ---------------------------------------------------------------------------------------------
  // The index.

  predicate Disjoint(index: map<Key, set<string>>, keys: seq<Key>) {
    Distinct(keys) && forall k :: k in keys ==> k !in index
  }

  function Extend(index: map<Key, set<string>>, keys: seq<Key>, scopes: set<string>): map<Key, set<string>> {
    index + map k | k in keys :: scopes
  }

  lemma ExtendTwice(index: map<Key, set<string>>, a: seq<Key>, b: seq<Key>, scopes: set<string>)
    ensures Extend(Extend(index, a, scopes), b, scopes) == Extend(index, a + b, scopes)
  {
    var twice, once := Extend(Extend(index, a, scopes), b, scopes), Extend(index, a + b, scopes);
    assert forall k :: k in a + b <==> k in a || k in b;
    assert twice.Keys == once.Keys;
    assert forall k :: k in once ==> twice[k] == once[k];
  }

  /** Keys can be entered in two batches; the second must avoid the index the first one leaves. */
  lemma ExtendAppend(index: map<Key, set<string>>, a: seq<Key>, b: seq<Key>, scopes: set<string>)
    requires Disjoint(index, a)
    ensures Disjoint(Extend(index, a, scopes), b) <==> Disjoint(index, a + b)
    ensures Extend(Extend(index, a, scopes), b, scopes) == Extend(index, a + b, scopes)
  {
    DistinctAppend(a, b);
    ExtendTwice(index, a, b, scopes);
    var first := Extend(index, a, scopes);
    assert forall k :: k in b ==> (k in first <==> k in index || k in a);
    assert forall k :: k in a + b <==> k in a || k in b;
  }

  lemma DisjointPrefix(index: map<Key, set<string>>, keys: seq<Key>, n: nat)
    requires n <= |keys| && Disjoint(index, keys)
    ensures Disjoint(index, keys[..n])
  {
    DistinctAppend(keys[..n], keys[n..]);
    assert keys == keys[..n] + keys[n..];
  }

  lemma PurposeKeysStep(rule: Rule, i: nat)
    requires i < |rule.purposes|
    ensures PurposeKeys(rule, rule.purposes[..i + 1])
            == PurposeKeys(rule, rule.purposes[..i]) + ToolKeys(rule, rule.purposes[i], rule.tools)
  {
    assert rule.purposes[..i + 1][..i] == rule.purposes[..i];
  }

  lemma {:induction false} PurposeKeysPrefix(rule: Rule, i: nat)
    requires i <= |rule.purposes|
    ensures PurposeKeys(rule, rule.purposes[..i]) <= RuleKeys(rule)
    decreases |rule.purposes| - i
  {
    if i == |rule.purposes| {
      assert rule.purposes[..i] == rule.purposes;
    } else {
      PurposeKeysPrefix(rule, i + 1);
      PurposeKeysStep(rule, i);
    }
  }

  lemma DisjointPart(index: map<Key, set<string>>, rule: Rule, i: nat)
    requires i <= |rule.purposes| && Disjoint(index, RuleKeys(rule))
    ensures Disjoint(index, PurposeKeys(rule, rule.purposes[..i]))
  {
    PurposeKeysPrefix(rule, i);
    DisjointPrefix(index, RuleKeys(rule), |PurposeKeys(rule, rule.purposes[..i])|);
  }

  lemma EnterFreshKey(before: map<Key, set<string>>, keys: seq<Key>, key: Key, scopes: set<string>)
    requires Disjoint(before, keys) && key !in Extend(before, keys, scopes)
    ensures Disjoint(before, keys + [key])
  {
    assert key !in keys && key !in before;
    DistinctAppend(keys, [key]);
  }

  lemma EnterKeyTwice(before: map<Key, set<string>>, keys: seq<Key>, key: Key, scopes: set<string>)
    requires key in Extend(before, keys, scopes)
    ensures !Disjoint(before, keys + [key])
  {
    assert key in [key];
    DistinctAppend(keys, [key]);
    assert key in keys + [key];
  }

  lemma EnteredKey(before: map<Key, set<string>>, keys: seq<Key>, key: Key, scopes: set<string>)
    ensures Extend(before, keys, scopes)[key := scopes] == Extend(before, keys + [key], scopes)
  {
    assert forall k :: k in keys + [key] <==> k in keys || k == key;
  }

  /** Entering one more key: a key already present is a collision of the whole batch. */
  lemma EnterKey(before: map<Key, set<string>>, keys: seq<Key>, j: nat, scopes: set<string>)
    requires j < |keys| && Disjoint(before, keys[..j])
    ensures keys[j] in Extend(before, keys[..j], scopes) ==> !Disjoint(before, keys)
    ensures keys[j] !in Extend(before, keys[..j], scopes) ==> Disjoint(before, keys[..j + 1])
    ensures Extend(before, keys[..j], scopes)[keys[j] := scopes] == Extend(before, keys[..j + 1], scopes)
  {
    var front, key := keys[..j], keys[j];
    assert keys[..j + 1] == front + [key];
    EnteredKey(before, front, key, scopes);
    if key in Extend(before, front, scopes) {
      EnterKeyTwice(before, front, key, scopes);
      if Disjoint(before, keys) { DisjointPrefix(before, keys, j + 1); }
    } else {
      EnterFreshKey(before, front, key, scopes);
    }
  }

  lemma PurposeStep(before: map<Key, set<string>>, rule: Rule, i: nat, scopes: set<string>)
    requires i < |rule.purposes| && Disjoint(before, PurposeKeys(rule, rule.purposes[..i]))
    ensures var entered, next := Extend(before, PurposeKeys(rule, rule.purposes[..i]), scopes),
        ToolKeys(rule, rule.purposes[i], rule.tools);
            && (Disjoint(entered, next) <==> Disjoint(before, PurposeKeys(rule, rule.purposes[..i + 1])))
            && Extend(entered, next, scopes) == Extend(before, PurposeKeys(rule, rule.purposes[..i + 1]), scopes)
    ensures Disjoint(before, RuleKeys(rule)) ==> Disjoint(before, PurposeKeys(rule, rule.purposes[..i + 1]))
  {
    PurposeKeysStep(rule, i);
    ExtendAppend(before, PurposeKeys(rule, rule.purposes[..i]), ToolKeys(rule, rule.purposes[i], rule.tools), scopes);
    if Disjoint(before, RuleKeys(rule)) { DisjointPart(before, rule, i + 1); }
  }

  lemma NoneBlankStep(items: seq<string>, i: nat)
    requires i < |items|
    ensures NoneBlank(items[..i + 1]) <==> NoneBlank(items[..i]) && TrimSpace(items[i]) != ""
    ensures NoneBlank(items) ==> NoneBlank(items[..i + 1])
    ensures items[..|items|] == items
  {
    assert items[..i + 1] == items[..i] + [items[i]];
  }

  predicate Decides(index: map<Key, set<string>>, request: Request) {
    RequestKey(request) in index && forall s :: s in index[RequestKey(request)] ==> s in request.scopes
  }

  class Policy {
    var requiredScopes: map<Key, set<string>>

    constructor ()
      ensures requiredScopes == map[]
    {
      requiredScopes := map[];
    }

    method CollectScopes(rule: Rule) returns (scopes: Option<set<string>>)
      ensures scopes.Some? <==> NoneBlank(rule.scopes)
      ensures scopes.Some? ==> scopes.value == Required(rule)
    {
      var collected: set<string> := {};
      for i := 0 to |rule.scopes|
        invariant collected == set s | s in rule.scopes[..i] :: TrimSpace(s)
        invariant forall k :: 0 <= k < i ==> TrimSpace(rule.scopes[k]) != ""
      {
        var scope := TrimSpace(rule.scopes[i]);
        if scope == "" { return None; }
        assert rule.scopes[..i + 1] == rule.scopes[..i] + [rule.scopes[i]];
        collected := collected + {scope};
      }
      assert rule.scopes[..|rule.scopes|] == rule.scopes;
      return Some(collected);
    }

    /** The inner loop of Policy.add. */
    method AddPurpose(rule: Rule, rawPurpose: string, scopes: set<string>) returns (ok: bool)
      requires rule.tools != []
      modifies this
      ensures ok <==> TrimSpace(rawPurpose) != "" && NoneBlank(rule.tools)
                      && Disjoint(old(requiredScopes), ToolKeys(rule, rawPurpose, rule.tools))
      ensures ok ==> requiredScopes == Extend(old(requiredScopes), ToolKeys(rule, rawPurpose, rule.tools), scopes)
    {
      ghost var before := requiredScopes;
      ghost var keys := ToolKeys(rule, rawPurpose, rule.tools);
      var purpose := TrimSpace(rawPurpose);
      for j := 0 to |rule.tools|
        invariant (j > 0 ==> purpose != "") && NoneBlank(rule.tools[..j])
        invariant Disjoint(before, keys[..j])
        invariant requiredScopes == Extend(before, keys[..j], scopes)
      {
        NoneBlankStep(rule.tools, j);
        var tool := TrimSpace(rule.tools[j]);
        if purpose == "" || tool == "" { return false; }
        var binding := Key(TrimSpace(rule.agentId), TrimSpace(rule.workloadId), purpose, TrimSpace(rule.target), tool);
        EnterKey(before, keys, j, scopes);
        if binding in requiredScopes { return false; }
        requiredScopes := requiredScopes[binding := scopes];
      }
      assert rule.tools[..|rule.tools|] == rule.tools && keys[..|rule.tools|] == keys;
      return true;
    }

    /** The outer loop of Policy.add. */
    method AddBindings(rule: Rule, scopes: set<string>) returns (ok: bool)
      requires rule.purposes != [] && rule.tools != []
      modifies this
      ensures ok <==> NoneBlank(rule.purposes) && NoneBlank(rule.tools) && Disjoint(old(requiredScopes), RuleKeys(rule))
      ensures ok ==> requiredScopes == Extend(old(requiredScopes), RuleKeys(rule), scopes)
    {
      ghost var before := requiredScopes;
      for i := 0 to |rule.purposes|
        invariant NoneBlank(rule.purposes[..i]) && (i > 0 ==> NoneBlank(rule.tools))
        invariant Disjoint(before, PurposeKeys(rule, rule.purposes[..i]))
        invariant requiredScopes == Extend(before, PurposeKeys(rule, rule.purposes[..i]), scopes)
      {
        PurposeStep(before, rule, i, scopes);
        NoneBlankStep(rule.purposes, i);
        var added := AddPurpose(rule, rule.purposes[i], scopes);
        if !added {
          return false;
        }
      }
      assert rule.purposes[..|rule.purposes|] == rule.purposes;
      return true;
    }

    /** Policy.add: every purpose with every tool becomes a key; a blank or an existing key is an error. */
    method Add(rule: Rule) returns (ok: bool)
      modifies this
      ensures ok <==> WellFormed(rule) && Disjoint(old(requiredScopes), RuleKeys(rule))
      ensures ok ==> requiredScopes == Extend(old(requiredScopes), RuleKeys(rule), Required(rule))
    {
      if TrimSpace(rule.agentId) == "" || !HasPrefix(TrimSpace(rule.workloadId), "spiffe://")
         || TrimSpace(rule.target) == ""
         || |rule.purposes| == 0 || |rule.scopes| == 0 || |rule.tools| == 0 {
        return false;
      }
      var collected := CollectScopes(rule);
      if collected.None? { return false; }
      ok := AddBindings(rule, collected.value);
    }

    /** Policy.Authorize. */
    method Authorize(request: Request) returns (allowed: bool)
      ensures allowed <==> Decides(requiredScopes, request)
    {
      if RequestKey(request) !in requiredScopes { return false; }
      var required := requiredScopes[RequestKey(request)];
      var granted: set<string> := {};
      for i := 0 to |request.scopes|
        invariant granted == set s | s in request.scopes[..i]
      {
        assert request.scopes[..i + 1] == request.scopes[..i] + [request.scopes[i]];
        granted := granted + {request.scopes[i]};
      }
      assert request.scopes[..|request.scopes|] == request.scopes;
      while required != {}
        invariant required <= requiredScopes[RequestKey(request)]
        invariant forall s :: s in requiredScopes[RequestKey(request)] - required ==> s in request.scopes
      {
        var scope :| scope in required;
        if scope !in granted { return false; }
        required := required - {scope};
      }
      assert requiredScopes[RequestKey(request)] - required == requiredScopes[RequestKey(request)];
      return true;
    }
  }

  /** The index a whole list compiles to. */
  function Index(rules: seq<Rule>): map<Key, set<string>> {
    if rules == [] then map[]
    else Extend(Index(rules[..|rules| - 1]), RuleKeys(rules[|rules| - 1]), Required(rules[|rules| - 1]))
  }

  lemma {:induction false} IndexKeys(rules: seq<Rule>)
    ensures forall k :: k in Index(rules) <==> k in ListKeys(rules)
  {
    if rules != [] { IndexKeys(rules[..|rules| - 1]); }
  }

  lemma {:induction false} ListKeysPrefix(rules: seq<Rule>, i: nat)
    requires i <= |rules|
    ensures ListKeys(rules[..i]) <= ListKeys(rules)
    decreases |rules| - i
  {
    if i == |rules| {
      assert rules[..i] == rules;
    } else {
      ListKeysPrefix(rules, i + 1);
      assert rules[..i + 1][..i] == rules[..i];
    }
  }

  /** One more rule keeps the list loadable exactly when its keys are new to the index. */
  lemma ListStep(front: seq<Rule>, rule: Rule)
    requires SoFar(front)
    ensures SoFar(front + [rule]) <==> WellFormed(rule) && Disjoint(Index(front), RuleKeys(rule))
    ensures Index(front + [rule]) == Extend(Index(front), RuleKeys(rule), Required(rule))
  {
    var rules := front + [rule];
    assert rules[..|rules| - 1] == front;
    assert ListKeys(rules) == ListKeys(front) + RuleKeys(rule);
    IndexKeys(front);
    DistinctAppend(ListKeys(front), RuleKeys(rule));
    assert forall r :: r in rules <==> r in front || r == rule;
  }

  lemma SoFarPrefix(rules: seq<Rule>, i: nat)
    requires i <= |rules| && SoFar(rules)
    ensures SoFar(rules[..i])
  {
    ListKeysPrefix(rules, i);
    var keys, n := ListKeys(rules), |ListKeys(rules[..i])|;
    assert keys == keys[..n] + keys[n..];
    DistinctAppend(keys[..n], keys[n..]);
  }

  lemma LoadStep(rules: seq<Rule>, i: nat)
    requires i < |rules| && SoFar(rules[..i])
    ensures SoFar(rules[..i + 1]) <==> WellFormed(rules[i]) && Disjoint(Index(rules[..i]), RuleKeys(rules[i]))
    ensures Index(rules[..i + 1]) == Extend(Index(rules[..i]), RuleKeys(rules[i]), Required(rules[i]))
    ensures SoFar(rules) ==> SoFar(rules[..i + 1])
  {
    assert rules[..i + 1] == rules[..i] + [rules[i]];
    ListStep(rules[..i], rules[i]);
    if SoFar(rules) { SoFarPrefix(rules, i + 1); }
  }

  /** LoadJSON's rule loop. */
  method Load(rules: seq<Rule>) returns (policy: Policy?)
    ensures policy != null <==> Loadable(rules)
    ensures policy != null ==> fresh(policy) && policy.requiredScopes == Index(rules)
  {
    if |rules| == 0 { return null; }
    policy := new Policy();
    for i := 0 to |rules|
      invariant SoFar(rules[..i])
      invariant fresh(policy) && policy.requiredScopes == Index(rules[..i])
    {
      LoadStep(rules, i);
      var ok := policy.Add(rules[i]);
      if !ok { return null; }
    }
    assert rules[..|rules|] == rules;
  }

  // ---------------------------------------------------------------------------------------------
  // The index decides like the list.

  lemma {:induction false} IndexEntry(rules: seq<Rule>, rule: Rule, key: Key)
    requires Distinct(ListKeys(rules)) && rule in rules && key in RuleKeys(rule)
    ensures key in Index(rules) && Index(rules)[key] == Required(rule)
  {
    var front, last := rules[..|rules| - 1], rules[|rules| - 1];
    DistinctAppend(ListKeys(front), RuleKeys(last));
    if rule in front {
      IndexEntry(front, rule, key);
      IndexKeys(front);
    }
  }

  lemma {:induction false} IndexSource(rules: seq<Rule>, key: Key) returns (rule: Rule)
    requires key in ListKeys(rules)
    ensures rule in rules && key in RuleKeys(rule)
  {
    var front, last := rules[..|rules| - 1], rules[|rules| - 1];
    if key in RuleKeys(last) { rule := last; } else { rule := IndexSource(front, key); }
  }

  /** The compiled policy permits a request if and only if some rule of the list does. */
  lemma IndexDecidesLikeList(rules: seq<Rule>, request: Request)
    requires Loadable(rules)
    ensures Decides(Index(rules), request) <==> Permits(rules, request)
  {
    var key := RequestKey(request);
    IndexKeys(rules);
    if key in Index(rules) {
      var rule := IndexSource(rules, key);
      IndexEntry(rules, rule, key);
      MatchesIsKey(rule, request);
    }
    if rule :| rule in rules && Matches(rule, request) && forall s :: s in Required(rule) ==> s in request.scopes {
      MatchesIsKey(rule, request);
      IndexEntry(rules, rule, key);
    }
  }

  function Entries(rules: seq<Rule>): nat {
    if rules == [] then 0
    else Entries(rules[..|rules| - 1]) + |rules[|rules| - 1].purposes| * |rules[|rules| - 1].tools|
  }

  lemma {:induction false} DistinctSize<T>(s: seq<T>)
    requires Distinct(s)
    ensures |set x | x in s| == |s|
  {
    if s != [] {
      var front, last := s[..|s| - 1], s[|s| - 1];
      DistinctSize(front);
      assert s == front + [last];
      assert (set x | x in s) == (set x | x in front) + {last};
    }
  }

  lemma {:induction false} PurposeKeyCount(rule: Rule, purposes: seq<string>)
    ensures |PurposeKeys(rule, purposes)| == |purposes| * |rule.tools|
  {
    if purposes != [] {
      PurposeKeyCount(rule, purposes[..|purposes| - 1]);
      assert |purposes| * |rule.tools| == (|purposes| - 1) * |rule.tools| + |rule.tools|;
    }
  }

  lemma {:induction false} KeyCount(rules: seq<Rule>)
    ensures |ListKeys(rules)| == Entries(rules)
  {
    if rules != [] {
      KeyCount(rules[..|rules| - 1]);
      PurposeKeyCount(rules[|rules| - 1], rules[|rules| - 1].purposes);
    }
  }

  /** A loaded index has one entry for each purpose and tool of each rule. */
  lemma {:induction false} EntryCount(rules: seq<Rule>)
    requires Distinct(ListKeys(rules))
    ensures |Index(rules)| == Entries(rules) == |ListKeys(rules)|
  {
    KeyCount(rules);
    IndexKeys(rules);
    DistinctSize(ListKeys(rules));
    assert Index(rules).Keys == set k | k in ListKeys(rules);
  }

  // ---------------------------------------------------------------------------------------------
  // Rule order is immaterial.

  function Without<T>(s: seq<T>, j: nat): seq<T>
    requires j < |s|
  {
    s[..j] + s[j + 1..]
  }

  lemma WithoutMultiset<T>(s: seq<T>, j: nat)
    requires j < |s|
    ensures multiset(s) == multiset(Without(s, j)) + multiset{s[j]}
  {
    assert s == s[..j] + [s[j]] + s[j + 1..];
  }

  lemma WithoutSnoc<T>(front: seq<T>, last: T, j: nat)
    requires j <= |front|
    ensures Without(front + [last], j) == if j == |front| then front else Without(front, j) + [last]
  {
  }

  lemma ListKeysSnoc(front: seq<Rule>, last: Rule)
    ensures multiset(ListKeys(front + [last])) == multiset(ListKeys(front)) + multiset(RuleKeys(last))
  {
    assert (front + [last])[..|front|] == front;
  }

  lemma BagSwap(a: multiset<Key>, b: multiset<Key>, c: multiset<Key>)
    ensures a + b + c == a + c + b
  {
  }

  lemma {:induction false} ListKeysWithout(rules: seq<Rule>, j: nat)
    requires j < |rules|
    ensures multiset(ListKeys(rules)) == multiset(ListKeys(Without(rules, j))) + multiset(RuleKeys(rules[j]))
    decreases |rules|
  {
    var front, last := rules[..|rules| - 1], rules[|rules| - 1];
    assert rules == front + [last];
    WithoutSnoc(front, last, j);
    ListKeysSnoc(front, last);
    if j < |front| {
      ListKeysWithout(front, j);
      ListKeysSnoc(Without(front, j), last);
      BagSwap(multiset(ListKeys(Without(front, j))), multiset(RuleKeys(rules[j])), multiset(RuleKeys(last)));
      assert rules[j] == front[j];
    }
  }

  lemma {:induction false} ListKeysOfPermutation(a: seq<Rule>, b: seq<Rule>)
    requires multiset(a) == multiset(b)
    ensures multiset(ListKeys(a)) == multiset(ListKeys(b))
    decreases |a|
  {
    assert |multiset(a)| == |a| && |multiset(b)| == |b|;
    if a != [] {
      var front, last := a[..|a| - 1], a[|a| - 1];
      assert a == front + [last];
      assert last in multiset(b);
      var j :| 0 <= j < |b| && b[j] == last;
      WithoutMultiset(b, j);
      assert multiset(a) == multiset(front) + multiset{last};
      assert multiset(front) == multiset(a) - multiset{last} == multiset(Without(b, j));
      ListKeysOfPermutation(front, Without(b, j));
      ListKeysWithout(b, j);
      ListKeysSnoc(front, last);
    }
  }

  /** Permuting the rules changes neither whether they load nor any decision. */
  lemma RuleOrderIsImmaterial(a: seq<Rule>, b: seq<Rule>, request: Request)
    requires multiset(a) == multiset(b)
    ensures Loadable(a) <==> Loadable(b)
    ensures Loadable(a) ==> (Decides(Index(a), request) <==> Decides(Index(b), request))
  {
    ListKeysOfPermutation(a, b);
    DistinctIsMultiset(ListKeys(a));
    DistinctIsMultiset(ListKeys(b));
    assert forall rule :: rule in a <==> rule in multiset(a);
    assert forall rule :: rule in b <==> rule in multiset(b);
    assert |a| == |multiset(a)| && |b| == |multiset(b)|;
    if Loadable(a) {
      IndexDecidesLikeList(a, request);
      IndexDecidesLikeList(b, request);
    }
  }
}
