/** uniqueJSONObjectFields: one object with distinct names of its own, whose values are decoded raw. */
module JsonObjectFields {
  import opened Text
  import opened JsonScanner

  /** Members of one object whose own names are distinct, each value read raw. */
  function UniqueMembers(c: Cursor, seen: set<string>): (r: Option<(set<string>, Cursor)>)
    ensures r.Some? ==> |r.value.1.rest| < |c.rest|
    decreases |c.rest|
  {
    if MoreAt(c) then
      match Next(c)
      case Got(StringToken(name), d) =>
        if name in seen || ScanValue(d, false).None? then None
        else UniqueMembers(ScanValue(d, false).value, seen + {name})
      case _ => None
    else
      match Next(c)
      case Got(_, d) => Some((seen, d))
      case _ => None
  }

  predicate IsObjectWithFields(v: Json, input: seq<Lexeme>, fields: set<string>) {
    v.Object? && Serialises(v, input) && Distinct(Names(v.members)) && fields == NameSet(v.members)
  }

  lemma {:induction false} UniqueMembersSound(c: Cursor, seen: set<string>, first: bool) returns (members: Members)
    requires c.state == (if first then ObjectStart else ObjectComma) && c.stack == [TopValue]
             && UniqueMembers(c, seen).Some?
    ensures WellFormedMembers(members) && Distinct(Names(members))
            && forall name :: name in Names(members) ==> name !in seen
    ensures UniqueMembers(c, seen).value.0 == seen + NameSet(members)
    ensures UniqueMembers(c, seen).value.1.state == TopValue && UniqueMembers(c, seen).value.1.stack == []
    ensures c.rest == PrintMembers(members, first) + [RBrace] + UniqueMembers(c, seen).value.1.rest
    decreases |c.rest|
  {
    if MoreAt(c) {
      var name, d := NameConsumed(c, first);
      var value := ScanSound(d, false);
      var rest := UniqueMembersSound(ScanValue(d, false).value, seen + {name}, false);
      members := Member(name, value, rest);
      MemberRegrouped(name, Print(value), first, PrintMembers(rest, false), UniqueMembers(c, seen).value.1.rest);
    } else {
      members := NoMembers;
      assert c.rest == [RBrace] + c.rest[1..];
    }
  }

  function AtMember(rest: seq<Lexeme>, first: bool): Cursor {
    Cursor(rest, if first then ObjectStart else ObjectComma, [TopValue])
  }

  lemma UniqueMembersEnd(seen: set<string>, first: bool)
    ensures UniqueMembers(AtMember([RBrace], first), seen) == Some((seen, Cursor([], TopValue, [])))
  {
    var c := AtMember([RBrace], first);
    assert c.rest[1..] == [] && c.stack[..|c.stack| - 1] == [];
  }

  lemma UniqueMembersStep(name: string, value: Json, first: bool, later: seq<Lexeme>, seen: set<string>)
    requires WellFormed(value) && name !in seen
    ensures UniqueMembers(AtMember((if first then [] else [Comma]) + [Str(name)] + ([Colon] + Print(value) + later),
        first), seen)
            == UniqueMembers(AtMember(later, false), seen + {name})
  {
    NextName(name, first, [Colon] + Print(value) + later, [TopValue]);
    ScanPrinted(value, false, ObjectColon, later, [TopValue]);
  }

  lemma {:induction false} UniqueMembersPrinted(members: Members, seen: set<string>, first: bool)
    requires WellFormedMembers(members) && Distinct(Names(members))
    requires forall name :: name in Names(members) ==> name !in seen
    ensures UniqueMembers(AtMember(PrintMembers(members, first) + [RBrace], first), seen)
            == Some((seen + NameSet(members), Cursor([], TopValue, [])))
    decreases members
  {
    match members
    case NoMembers =>
      UniqueMembersEnd(seen, first);
      assert PrintMembers(members, first) + [RBrace] == [RBrace] && seen + NameSet(members) == seen;
    case Member(name, value, rest) =>
      var later := PrintMembers(rest, false) + [RBrace];
      MemberRegrouped(name, Print(value), first, PrintMembers(rest, false), []);
      assert later + [] == later;
      assert PrintMembers(members, first) + [RBrace] + [] == PrintMembers(members, first) + [RBrace];
      assert PrintMembers(members, first) + [RBrace]
          == (if first then [] else [Comma]) + [Str(name)] + ([Colon] + Print(value) + later);
      assert Names(members)[0] == name && Names(members)[1..] == Names(rest);
      UniqueMembersStep(name, value, first, later, seen);
      UniqueMembersPrinted(rest, seen + {name}, false);
      assert seen + {name} + NameSet(rest) == seen + NameSet(members);
  }

  /** The member loop, up to and including the closing brace. */
  method ReadUniqueMembers(decoder: Decoder) returns (fields: Option<set<string>>)
    modifies decoder
    ensures fields.Some? == UniqueMembers(old(decoder.cursor), {}).Some?
    ensures fields.Some? ==> UniqueMembers(old(decoder.cursor), {}) == Some((fields.value, decoder.cursor))
  {
    var seen: set<string> := {};
    while MoreAt(decoder.cursor)
      invariant UniqueMembers(old(decoder.cursor), {}) == UniqueMembers(decoder.cursor, seen)
      decreases |decoder.cursor.rest|
    {
      var name := decoder.Token();
      if !name.Got? || !name.token.StringToken? { return None; }
      if name.token.text in seen { return None; }
      seen := seen + {name.token.text};
      var raw := decoder.DecodeRaw();
      if !raw { return None; }
    }
    var closer := decoder.Token();
    if !closer.Got? { return None; }
    return Some(seen);
  }

  predicate Reads(input: seq<Lexeme>, names: set<string>) {
    var open := Next(Cursor(input, TopValue, []));
    open.Got? && open.token == Delim(LBrace) && UniqueMembers(open.next, {}) == Some((names, Cursor([], TopValue, [])))
  }

  /** Every serialised object with distinct names of its own is read to the end, giving its names. */
  lemma ObjectsAccepted(input: seq<Lexeme>)
    ensures forall v, names :: IsObjectWithFields(v, input, names) ==> Reads(input, names)
  {
    forall v, names | IsObjectWithFields(v, input, names) ensures Reads(input, names) {
      assert input[1..] == PrintMembers(v.members, true) + [RBrace] && [] + [TopValue] == [TopValue];
      UniqueMembersPrinted(v.members, {}, true);
      assert {} + NameSet(v.members) == NameSet(v.members);
    }
  }

  lemma ObjectRead(input: seq<Lexeme>) returns (v: Json)
    requires var open := Next(Cursor(input, TopValue, []));
             open.Got? && open.token == Delim(LBrace) && UniqueMembers(open.next, {}).Some?
    ensures var end := UniqueMembers(Next(Cursor(input, TopValue, [])).next, {}).value;
            end.1.state == TopValue && end.1.stack == [] && (end.1.rest == [] ==> IsObjectWithFields(v, input, end.0))
  {
    var c := Next(Cursor(input, TopValue, [])).next;
    var members := UniqueMembersSound(c, {}, true);
    v := Object(members);
    var after := UniqueMembers(c, {}).value.1.rest;
    assert input == [LBrace] + c.rest;
    Tail(LBrace, PrintMembers(members, true), RBrace, after);
    if after == [] {
      assert Print(v) + [] == Print(v);
    }
  }

  method UniqueJsonObjectFields(input: seq<Lexeme>) returns (fields: Option<set<string>>)
    ensures fields.Some? <==> exists v, names :: IsObjectWithFields(v, input, names)
    ensures fields.Some? ==> exists v :: IsObjectWithFields(v, input, fields.value)
  {
    ObjectsAccepted(input);
    var decoder := new Decoder(input);
    var open := decoder.Token();
    if !open.Got? || open.token != Delim(LBrace) { return None; }
    ghost var entry := decoder.cursor;
    fields := ReadUniqueMembers(decoder);
    if fields.None? { return None; }
    ghost var v := ObjectRead(input);
    var trailing := decoder.Token();
    if !trailing.EndOfInput? { return None; }
    assert IsObjectWithFields(v, input, fields.value);
  }
}
