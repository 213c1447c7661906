/** The canonical scope attribute sent to the policy decision service: a sorted copy with an adjacency check. */
module CanonicalScopes {
  import opened Text

  // ---------------------------------------------------------------------------------------------
  // sort.Strings: strings in code point order, which is the order of their UTF-8 bytes.

  predicate Leq(a: string, b: string) {
    a == [] || (b != [] && (a[0] < b[0] || (a[0] == b[0] && Leq(a[1..], b[1..]))))
  }

  lemma {:induction false} LeqTotal(a: string, b: string)
    ensures Leq(a, b) || Leq(b, a)
  {
    if a != [] && b != [] && a[0] == b[0] { LeqTotal(a[1..], b[1..]); }
  }

  lemma {:induction false} LeqTransitive(a: string, b: string, c: string)
    requires Leq(a, b) && Leq(b, c)
    ensures Leq(a, c)
  {
    if a != [] && a[0] == b[0] == c[0] { LeqTransitive(a[1..], b[1..], c[1..]); }
  }

  lemma {:induction false} LeqAntisymmetric(a: string, b: string)
    requires Leq(a, b) && Leq(b, a)
    ensures a == b
  {
    if a != [] {
      LeqAntisymmetric(a[1..], b[1..]);
      assert a == [a[0]] + a[1..] && b == [b[0]] + b[1..];
    }
  }

  predicate Sorted(s: seq<string>) {
    forall i, j :: 0 <= i < j < |s| ==> Leq(s[i], s[j])
  }

  function Insert(x: string, s: seq<string>): seq<string> {
    if s == [] || Leq(x, s[0]) then [x] + s else [s[0]] + Insert(x, s[1..])
  }

  function Sort(s: seq<string>): seq<string> {
    if s == [] then [] else Insert(s[0], Sort(s[1..]))
  }

  lemma SortedCons(x: string, s: seq<string>)
    requires Sorted(s) && forall y :: y in s ==> Leq(x, y)
    ensures Sorted([x] + s)
  {
    forall i, j | 0 <= i < j < |s| + 1 ensures Leq(([x] + s)[i], ([x] + s)[j]) {
      assert s[j - 1] in s;
    }
  }

  lemma {:induction false} InsertKeepsSorted(x: string, s: seq<string>)
    requires Sorted(s)
    ensures Sorted(Insert(x, s)) && multiset(Insert(x, s)) == multiset{x} + multiset(s)
  {
    if s != [] && !Leq(x, s[0]) {
      var rest := s[1..];
      assert s == [s[0]] + rest;
      InsertKeepsSorted(x, rest);
      LeqTotal(x, s[0]);
      forall y | y in Insert(x, rest) ensures Leq(s[0], y) {
        assert y in multiset(Insert(x, rest));
      }
      SortedCons(s[0], Insert(x, rest));
    } else {
      forall y | y in s ensures Leq(x, y) {
        var i :| 0 <= i < |s| && s[i] == y;
        if i > 0 { LeqTransitive(x, s[0], y); }
      }
      SortedCons(x, s);
    }
  }

  lemma {:induction false} SortIsSortedPermutation(s: seq<string>)
    ensures Sorted(Sort(s)) && multiset(Sort(s)) == multiset(s)
  {
    if s != [] {
      SortIsSortedPermutation(s[1..]);
      InsertKeepsSorted(s[0], Sort(s[1..]));
      assert s == [s[0]] + s[1..];
    }
  }

  // ---------------------------------------------------------------------------------------------
  // canonicalScopes.

  predicate Clean(scope: string) {
    scope != "" && TrimSpace(scope) == scope && !ContainsAny(scope, " \t\r\n")
  }

  predicate Acceptable(scopes: seq<string>) {
    scopes != [] && Distinct(scopes) && forall s :: s in scopes ==> Clean(s)
  }

  /** In a sorted list equal members are neighbours. */
  lemma AdjacentCheckIsComplete(s: seq<string>)
    requires Sorted(s) && forall i :: 0 < i < |s| ==> s[i] != s[i - 1]
    ensures Distinct(s)
  {
    forall i, j | 0 <= i < j < |s| ensures s[i] != s[j] {
      if s[i] == s[j] {
        assert Leq(s[i], s[i + 1]);
        if i + 1 < j { assert Leq(s[i + 1], s[j]); }
        LeqAntisymmetric(s[i], s[i + 1]);
      }
    }
  }

  lemma SortKeepsMembers(s: seq<string>)
    ensures |Sort(s)| == |s| && (Distinct(Sort(s)) <==> Distinct(s)) && forall x :: x in Sort(s) <==> x in s
  {
    SortIsSortedPermutation(s);
    DistinctIsMultiset(s);
    DistinctIsMultiset(Sort(s));
    assert |multiset(s)| == |s| && |multiset(Sort(s))| == |Sort(s)|;
    assert forall x :: x in s <==> x in multiset(s);
    assert forall x :: x in Sort(s) <==> x in multiset(Sort(s));
  }

  method Canonical(scopes: seq<string>) returns (r: Option<seq<string>>)
    ensures r.Some? <==> Acceptable(scopes)
    ensures r.Some? ==> r.value == Sort(scopes)
  {
    if |scopes| == 0 { return None; }
    var result := Sort(scopes);
    SortKeepsMembers(scopes);
    SortIsSortedPermutation(scopes);
    for i := 0 to |result|
      invariant forall k :: 0 <= k < i ==> Clean(result[k])
      invariant forall k :: 0 < k < i ==> result[k] != result[k - 1]
    {
      var scope := result[i];
      if scope == "" || TrimSpace(scope) != scope || ContainsAny(scope, " \t\r\n")
         || (i > 0 && scope == result[i - 1]) {
        assert result[i] in scopes;
        return None;
      }
    }
    AdjacentCheckIsComplete(result);
    return Some(result);
  }

  lemma TailMember(s: seq<string>, x: string)
    requires s != [] && Distinct(s)
    ensures x in s[1..] <==> x in s && x != s[0]
  {
    assert s == [s[0]] + s[1..];
  }

  lemma {:induction false} SortedListOfSet(a: seq<string>, b: seq<string>)
    requires Sorted(a) && Sorted(b) && Distinct(a) && Distinct(b) && forall x :: x in a <==> x in b
    ensures a == b
  {
    assert b != [] ==> b[0] in b && b[0] in a;
    if a != [] {
      assert a[0] in b && b[0] in b && b[0] in a;
      var i :| 0 <= i < |b| && b[i] == a[0];
      var j :| 0 <= j < |a| && a[j] == b[0];
      assert a[0] == b[0] by {
        if i > 0 && j > 0 { LeqAntisymmetric(a[0], b[0]); }
      }
      forall x ensures x in a[1..] <==> x in b[1..] {
        TailMember(a, x);
        TailMember(b, x);
      }
      SortedListOfSet(a[1..], b[1..]);
      assert a == [a[0]] + a[1..];
      assert b == [b[0]] + b[1..];
    }
  }

  function Members(s: seq<string>): set<string> {
    set x | x in s
  }

  lemma SortedListDenotesSet(a: seq<string>, b: seq<string>)
    requires Distinct(a) && Distinct(b)
    ensures Sort(a) == Sort(b) <==> Members(a) == Members(b)
  {
    SortKeepsMembers(a);
    SortKeepsMembers(b);
    assert Members(Sort(a)) == Members(a) && Members(Sort(b)) == Members(b);
    if Members(a) == Members(b) {
      SortIsSortedPermutation(a);
      SortIsSortedPermutation(b);
      forall x ensures x in Sort(a) <==> x in Sort(b) {
        assert x in a <==> x in Members(a);
        assert x in b <==> x in Members(b);
      }
      SortedListOfSet(Sort(a), Sort(b));
    }
  }

  lemma NoSpaceInside(scopes: seq<string>)
    requires Acceptable(scopes)
    ensures forall i :: 0 <= i < |Sort(scopes)| ==> ' ' !in Sort(scopes)[i]
  {
    SortKeepsMembers(scopes);
    forall i | 0 <= i < |Sort(scopes)| ensures ' ' !in Sort(scopes)[i] {
      var scope := Sort(scopes)[i];
      assert scope in scopes;
      assert ' ' in " \t\r\n";
    }
  }

  /** Two accepted lists give the same joined attribute if and only if they are equal as sets. */
  lemma AttributeDenotesSet(a: seq<string>, b: seq<string>)
    requires Acceptable(a) && Acceptable(b)
    ensures Join(Sort(a), ' ') == Join(Sort(b), ' ') <==> Members(a) == Members(b)
  {
    SortedListDenotesSet(a, b);
    if Join(Sort(a), ' ') == Join(Sort(b), ' ') {
      NoSpaceInside(a);
      NoSpaceInside(b);
      SortKeepsMembers(a);
      SortKeepsMembers(b);
      JoinInjective(Sort(a), Sort(b), ' ');
    }
  }
}
