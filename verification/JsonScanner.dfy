/** The duplicate-rejecting JSON scanners. Input starts at lexemes (strings already unescaped); the
    comma and colon bookkeeping of encoding/json's Decoder is modelled state by state. */
module JsonScanner {
  import opened Text

  datatype Lexeme =
    | LBrace | RBrace | LBracket | RBracket | Comma | Colon
    | Str(text: string)
    | Literal(literal: string)  // a number, true, false or null

  /** The decoder's tokenState. */
  datatype TokenState =
    | TopValue
    | ArrayStart | ArrayValue | ArrayComma
    | ObjectStart | ObjectKey | ObjectColon | ObjectValue | ObjectComma

  datatype Token = Delim(lexeme: Lexeme) | StringToken(text: string) | LiteralToken(literal: string)

  /** What a Decoder holds: the unread lexemes, the current state and the states to return to. */
  datatype Cursor = Cursor(rest: seq<Lexeme>, state: TokenState, stack: seq<TokenState>)

  datatype Outcome = Got(token: Token, next: Cursor) | EndOfInput | SyntaxError

  predicate ValueAllowed(state: TokenState) {
    state.TopValue? || state.ArrayStart? || state.ArrayValue? || state.ObjectValue?
  }

  function ValueEnd(state: TokenState): TokenState {
    match state
    case ArrayStart => ArrayComma
    case ArrayValue => ArrayComma
    case ObjectValue => ObjectComma
    case _ => state
  }

  function Push(c: Cursor, start: TokenState): Cursor
    requires c.rest != []
  {
    Cursor(c.rest[1..], start, c.stack + [c.state])
  }

  function Pop(c: Cursor): Cursor
    requires c.rest != [] && c.stack != []
  {
    Cursor(c.rest[1..], ValueEnd(c.stack[|c.stack| - 1]), c.stack[..|c.stack| - 1])
  }

  /** Decoder.Token. An empty stack at a closer cannot arise from TopValue; the source would panic. */
  function Next(c: Cursor): (o: Outcome)
    ensures o.Got? ==> |o.next.rest| < |c.rest|
    decreases |c.rest|
  {
    if c.rest == [] then EndOfInput else
    match c.rest[0]
    case LBracket => if ValueAllowed(c.state) then Got(Delim(LBracket), Push(c, ArrayStart)) else SyntaxError
    case LBrace => if ValueAllowed(c.state) then Got(Delim(LBrace), Push(c, ObjectStart)) else SyntaxError
    case RBracket =>
      if (c.state.ArrayStart? || c.state.ArrayComma?) && c.stack != [] then Got(Delim(RBracket), Pop(c))
      else SyntaxError
    case RBrace =>
      if (c.state.ObjectStart? || c.state.ObjectComma?) && c.stack != [] then Got(Delim(RBrace), Pop(c))
      else SyntaxError
    case Colon =>
      if c.state.ObjectColon? then Next(Cursor(c.rest[1..], ObjectValue, c.stack)) else SyntaxError
    case Comma =>
      if c.state.ArrayComma? then Next(Cursor(c.rest[1..], ArrayValue, c.stack))
      else if c.state.ObjectComma? then Next(Cursor(c.rest[1..], ObjectKey, c.stack))
      else SyntaxError
    case Str(s) =>
      if c.state.ObjectStart? || c.state.ObjectKey? then
        Got(StringToken(s), Cursor(c.rest[1..], ObjectColon, c.stack))
      else if ValueAllowed(c.state) then
        Got(StringToken(s), Cursor(c.rest[1..], ValueEnd(c.state), c.stack))
      else SyntaxError
    case Literal(l) =>
      if ValueAllowed(c.state) then
        Got(LiteralToken(l), Cursor(c.rest[1..], ValueEnd(c.state), c.stack))
      else SyntaxError
  }

  /** Decoder.More: some lexeme is left and it closes nothing. */
  predicate MoreAt(c: Cursor) {
    c.rest != [] && c.rest[0] != RBracket && c.rest[0] != RBrace
  }

  /** What reading one value from a cursor leaves, when it succeeds. A strict reader refuses repeated
      names; the lax one is what decoding a raw value accepts. */
  function ScanValue(c: Cursor, strict: bool): (r: Option<Cursor>)
    ensures r.Some? ==> |r.value.rest| < |c.rest|
    decreases |c.rest|, 1
  {
    match Next(c)
    case Got(Delim(LBrace), d) => ScanMembers(d, strict, {})
    case Got(Delim(LBracket), d) => ScanItems(d, strict)
    case Got(Delim(_), _) => None
    case Got(_, d) => Some(d)
    case _ => None
  }

  function Close(c: Cursor): (r: Option<Cursor>)
    ensures r.Some? ==> |r.value.rest| < |c.rest|
  {
    match Next(c)
    case Got(_, d) => Some(d)
    case _ => None
  }

  function ScanMembers(c: Cursor, strict: bool, seen: set<string>): (r: Option<Cursor>)
    ensures r.Some? ==> |r.value.rest| < |c.rest|
    decreases |c.rest|, 0
  {
    if MoreAt(c) then
      match Next(c)
      case Got(StringToken(name), d) =>
        if strict && name in seen then None
        else if ScanValue(d, strict).None? then None
        else ScanMembers(ScanValue(d, strict).value, strict, seen + {name})
      case _ => None
    else Close(c)
  }

  function ScanItems(c: Cursor, strict: bool): (r: Option<Cursor>)
    ensures r.Some? ==> |r.value.rest| < |c.rest|
    decreases |c.rest|, 2
  {
    if MoreAt(c) then
      if ScanValue(c, strict).None? then None else ScanItems(ScanValue(c, strict).value, strict)
    else Close(c)
  }

  /** encoding/json's token reader. */
  class Decoder {
    var cursor: Cursor

    constructor (input: seq<Lexeme>)
      ensures cursor == Cursor(input, TopValue, [])
    {
      cursor := Cursor(input, TopValue, []);
    }

    method Token() returns (o: Outcome)
      modifies this
      ensures o == Next(old(cursor))
      ensures o.Got? ==> cursor == o.next
      ensures !o.Got? ==> cursor == old(cursor)
    {
      o := Next(cursor);
      if o.Got? {
        cursor := o.next;
      }
    }

    /** Decode into a json.RawMessage: skips one syntactically valid value. */
    method DecodeRaw() returns (ok: bool)
      modifies this
      ensures ok == ScanValue(old(cursor), false).Some?
      ensures ok ==> cursor == ScanValue(old(cursor), false).value
    {
      var end := ScanValue(cursor, false);
      ok := end.Some?;
      if ok {
        cursor := end.value;
      }
    }
  }

  /** scanJSONValue: recursive descent over the shared decoder with one `seen` set per object. */
  method ScanJsonValue(decoder: Decoder) returns (ok: bool)
    modifies decoder
    ensures ok == ScanValue(old(decoder.cursor), true).Some?
    ensures ok ==> decoder.cursor == ScanValue(old(decoder.cursor), true).value
    decreases |decoder.cursor.rest|
  {
    var token := decoder.Token();
    if !token.Got? { return false; }
    if !token.token.Delim? { return true; }
    if token.token.lexeme == LBrace {
      var seen: set<string> := {};
      ghost var entry := decoder.cursor;
      while MoreAt(decoder.cursor)
        invariant |decoder.cursor.rest| <= |entry.rest|
        invariant ScanMembers(entry, true, {}) == ScanMembers(decoder.cursor, true, seen)
        decreases |decoder.cursor.rest|
      {
        var name := decoder.Token();
        if !name.Got? || !name.token.StringToken? { return false; }
        if name.token.text in seen { return false; }
        seen := seen + {name.token.text};
        var scanned := ScanJsonValue(decoder);
        if !scanned { return false; }
      }
      var closer := decoder.Token();
      return closer.Got?;
    } else if token.token.lexeme == LBracket {
      ghost var entry := decoder.cursor;
      while MoreAt(decoder.cursor)
        invariant |decoder.cursor.rest| <= |entry.rest|
        invariant ScanItems(entry, true) == ScanItems(decoder.cursor, true)
        decreases |decoder.cursor.rest|
      {
        var scanned := ScanJsonValue(decoder);
        if !scanned { return false; }
      }
      var closer := decoder.Token();
      return closer.Got?;
    } else {
      return false;
    }
  }

  // ---------------------------------------------------------------------------------------------
  // The reference: JSON trees and their serialisation.

  datatype Json = Leaf(lexeme: Lexeme) | Array(items: Items) | Object(members: Members)
  datatype Items = NoItems | Item(head: Json, tail: Items)
  datatype Members = NoMembers | Member(name: string, value: Json, rest: Members)

  predicate WellFormed(v: Json) {
    match v
    case Leaf(l) => l.Str? || l.Literal?
    case Array(items) => WellFormedItems(items)
    case Object(members) => WellFormedMembers(members)
  }

  predicate WellFormedItems(items: Items) {
    items.Item? ==> WellFormed(items.head) && WellFormedItems(items.tail)
  }

  predicate WellFormedMembers(members: Members) {
    members.Member? ==> WellFormed(members.value) && WellFormedMembers(members.rest)
  }

  function Names(members: Members): seq<string> {
    match members
    case NoMembers => []
    case Member(name, _, rest) => [name] + Names(rest)
  }

  function NameSet(members: Members): set<string> {
    set name | name in Names(members)
  }

  /** Every object, at every depth, has pairwise distinct names. */
  predicate DuplicateFree(v: Json) {
    match v
    case Leaf(_) => true
    case Array(items) => DuplicateFreeItems(items)
    case Object(members) => Distinct(Names(members)) && DuplicateFreeMembers(members)
  }

  predicate DuplicateFreeItems(items: Items) {
    items.Item? ==> DuplicateFree(items.head) && DuplicateFreeItems(items.tail)
  }

  predicate DuplicateFreeMembers(members: Members) {
    members.Member? ==> DuplicateFree(members.value) && DuplicateFreeMembers(members.rest)
  }

  function Print(v: Json): seq<Lexeme> {
    match v
    case Leaf(l) => [l]
    case Array(items) => [LBracket] + PrintItems(items, true) + [RBracket]
    case Object(members) => [LBrace] + PrintMembers(members, true) + [RBrace]
  }

  function PrintItems(items: Items, first: bool): seq<Lexeme> {
    match items
    case NoItems => []
    case Item(head, tail) => (if first then [] else [Comma]) + Print(head) + PrintItems(tail, false)
  }

  function PrintMembers(members: Members, first: bool): seq<Lexeme> {
    match members
    case NoMembers => []
    case Member(name, value, rest) =>
      (if first then [] else [Comma]) + [Str(name), Colon] + Print(value) + PrintMembers(rest, false)
  }

  /** The states a value can be read in, with the punctuation still to come before it. */
  predicate Entry(state: TokenState) {
    state.TopValue? || state.ArrayStart? || state.ArrayComma? || state.ObjectColon?
  }

  function Lead(state: TokenState): seq<Lexeme> {
    match state
    case ArrayComma => [Comma]
    case ObjectColon => [Colon]
    case _ => []
  }

  function Ready(state: TokenState): TokenState {
    match state
    case ArrayComma => ArrayValue
    case ObjectColon => ObjectValue
    case _ => state
  }

  lemma PrintStart(v: Json)
    requires WellFormed(v)
    ensures Print(v) != []
    ensures Print(v)[0].LBrace? || Print(v)[0].LBracket? || Print(v)[0].Str? || Print(v)[0].Literal?
  {
  }

  lemma NextAfterLead(rest: seq<Lexeme>, state: TokenState, stack: seq<TokenState>)
    requires Entry(state)
    ensures Next(Cursor(Lead(state) + rest, state, stack)) == Next(Cursor(rest, Ready(state), stack))
  {
    if Lead(state) == [] {
      assert Lead(state) + rest == rest;
    } else {
      assert (Lead(state) + rest)[1..] == rest;
    }
  }

  // ---------------------------------------------------------------------------------------------
  // Completeness: a printed value is read, and exactly its lexemes are consumed.

  lemma {:induction false} ScanPrinted(v: Json, strict: bool, state: TokenState, after: seq<Lexeme>,
      stack: seq<TokenState>)
    requires Entry(state) && WellFormed(v) && (strict ==> DuplicateFree(v))
    ensures ScanValue(Cursor(Lead(state) + Print(v) + after, state, stack), strict)
            == Some(Cursor(after, ValueEnd(Ready(state)), stack))
    decreases v, 1
  {
    assert Lead(state) + Print(v) + after == Lead(state) + (Print(v) + after);
    NextAfterLead(Print(v) + after, state, stack);
    ScanReadyPrinted(v, strict, Ready(state), after, stack);
  }

  lemma Tail(open: Lexeme, body: seq<Lexeme>, close: Lexeme, after: seq<Lexeme>)
    ensures [open] + body + [close] + after == [open] + (body + [close] + after)
    ensures ([open] + body + [close] + after)[1..] == body + [close] + after
  {
  }

  lemma {:induction false} ScanReadyPrinted(v: Json, strict: bool, state: TokenState, after: seq<Lexeme>,
      stack: seq<TokenState>)
    requires ValueAllowed(state) && WellFormed(v) && (strict ==> DuplicateFree(v))
    ensures ScanValue(Cursor(Print(v) + after, state, stack), strict) == Some(Cursor(after, ValueEnd(state), stack))
    decreases v, 0
  {
    PrintStart(v);
    assert (Print(v) + after)[0] == Print(v)[0];
    assert (stack + [state])[..|stack|] == stack;
    match v
    case Leaf(l) =>
      assert (Print(v) + after)[1..] == after;
    case Array(items) =>
      Tail(LBracket, PrintItems(items, true), RBracket, after);
      ScanPrintedItems(items, strict, true, after, stack + [state]);
    case Object(members) =>
      Tail(LBrace, PrintMembers(members, true), RBrace, after);
      ScanPrintedMembers(members, strict, true, {}, after, stack + [state]);
  }

  lemma ItemRegrouped(lead: seq<Lexeme>, head: seq<Lexeme>, rest: seq<Lexeme>, after: seq<Lexeme>)
    ensures lead + head + (rest + [RBracket] + after) == lead + head + rest + [RBracket] + after
  {
  }

  lemma {:induction false} ScanPrintedItems(items: Items, strict: bool, first: bool, after: seq<Lexeme>,
      stack: seq<TokenState>)
    requires stack != [] && WellFormedItems(items) && (strict ==> DuplicateFreeItems(items))
    ensures ScanItems(Cursor(PrintItems(items, first) + [RBracket] + after,
                             if first then ArrayStart else ArrayComma, stack), strict)
            == Some(Cursor(after, ValueEnd(stack[|stack| - 1]), stack[..|stack| - 1]))
    decreases items
  {
    var state := if first then ArrayStart else ArrayComma;
    var c := Cursor(PrintItems(items, first) + [RBracket] + after, state, stack);
    match items
    case NoItems =>
      assert c.rest == [RBracket] + after;
    case Item(head, tail) =>
      var later := PrintItems(tail, false) + [RBracket] + after;
      ItemRegrouped(Lead(state), Print(head), PrintItems(tail, false), after);
      assert c.rest == Lead(state) + Print(head) + later;
      PrintStart(head);
      ScanPrinted(head, strict, state, later, stack);
      ScanPrintedItems(tail, strict, false, after, stack);
  }

  lemma NextName(name: string, first: bool, after: seq<Lexeme>, stack: seq<TokenState>)
    ensures var c := Cursor((if first then [] else [Comma]) + [Str(name)] + after,
                            if first then ObjectStart else ObjectComma, stack);
            MoreAt(c) && Next(c) == Got(StringToken(name), Cursor(after, ObjectColon, stack))
  {
    var named := [Str(name)] + after;
    assert named[1..] == after;
    if first {
      assert [] + [Str(name)] + after == named;
    } else {
      assert ([Comma] + [Str(name)] + after)[1..] == named;
    }
  }

  lemma MemberRegrouped(name: string, value: seq<Lexeme>, first: bool, rest: seq<Lexeme>, after: seq<Lexeme>)
    ensures var lead := if first then [] else [Comma];
            lead + [Str(name)] + ([Colon] + value + (rest + [RBrace] + after))
            == lead + [Str(name), Colon] + value + rest + [RBrace] + after
  {
  }

  lemma {:induction false} ScanPrintedMembers(members: Members, strict: bool, first: bool, seen: set<string>,
      after: seq<Lexeme>, stack: seq<TokenState>)
    requires stack != [] && WellFormedMembers(members) && (strict ==> DuplicateFreeMembers(members))
    requires strict ==> Distinct(Names(members)) && forall name :: name in Names(members) ==> name !in seen
    ensures ScanMembers(Cursor(PrintMembers(members, first) + [RBrace] + after,
                               if first then ObjectStart else ObjectComma, stack), strict, seen)
            == Some(Cursor(after, ValueEnd(stack[|stack| - 1]), stack[..|stack| - 1]))
    decreases members
  {
    var state := if first then ObjectStart else ObjectComma;
    var c := Cursor(PrintMembers(members, first) + [RBrace] + after, state, stack);
    match members
    case NoMembers =>
      assert c.rest == [RBrace] + after;
    case Member(name, value, rest) =>
      var later := PrintMembers(rest, false) + [RBrace] + after;
      var fromColon := Lead(ObjectColon) + Print(value) + later;
      MemberRegrouped(name, Print(value), first, PrintMembers(rest, false), after);
      assert c.rest == (if first then [] else [Comma]) + [Str(name)] + fromColon;
      NextName(name, first, fromColon, stack);
      ScanPrinted(value, strict, ObjectColon, later, stack);
      assert Names(members)[0] == name && Names(members)[1..] == Names(rest);
      ScanPrintedMembers(rest, strict, false, seen + {name}, after, stack);
  }

  // ---------------------------------------------------------------------------------------------
  // Soundness: whatever the reader consumes is the serialisation of a value, duplicate-free if strict.

  lemma LeadConsumed(c: Cursor, strict: bool) returns (d: Cursor)
    requires Entry(c.state) && ScanValue(c, strict).Some?
    ensures d.state == Ready(c.state) && d.stack == c.stack && c.rest == Lead(c.state) + d.rest && d.rest != []
    ensures Next(c) == Next(d)
    ensures d.rest[0].Str? || d.rest[0].Literal? || d.rest[0].LBrace? || d.rest[0].LBracket?
  {
    if Lead(c.state) == [] {
      d := c;
    } else {
      d := Cursor(c.rest[1..], Ready(c.state), c.stack);
    }
  }

  lemma {:induction false} ScanSound(c: Cursor, strict: bool) returns (v: Json)
    requires Entry(c.state) && ScanValue(c, strict).Some?
    ensures WellFormed(v) && (strict ==> DuplicateFree(v))
    ensures c.rest == Lead(c.state) + Print(v) + ScanValue(c, strict).value.rest
    ensures ScanValue(c, strict).value.state == ValueEnd(Ready(c.state)) && ScanValue(c, strict).value.stack == c.stack
    decreases |c.rest|, 1
  {
    var d := LeadConsumed(c, strict);
    assert ScanValue(c, strict) == ScanValue(d, strict);
    v := ScanReadySound(d, strict);
    var after := ScanValue(c, strict).value.rest;
    assert Lead(c.state) + (Print(v) + after) == Lead(c.state) + Print(v) + after;
  }

  lemma {:induction false} ScanReadySound(d: Cursor, strict: bool) returns (v: Json)
    requires ValueAllowed(d.state) && ScanValue(d, strict).Some?
    requires d.rest[0].Str? || d.rest[0].Literal? || d.rest[0].LBrace? || d.rest[0].LBracket?
    ensures WellFormed(v) && (strict ==> DuplicateFree(v))
    ensures d.rest == Print(v) + ScanValue(d, strict).value.rest
    ensures ScanValue(d, strict).value.state == ValueEnd(d.state) && ScanValue(d, strict).value.stack == d.stack
    decreases |d.rest|, 0
  {
    var after := ScanValue(d, strict).value.rest;
    assert d.rest == [d.rest[0]] + d.rest[1..];
    assert (d.stack + [d.state])[..|d.stack|] == d.stack;
    if d.rest[0].LBracket? {
      var items := ScanItemsSound(Push(d, ArrayStart), strict, true);
      v := Array(items);
      Tail(LBracket, PrintItems(items, true), RBracket, after);
    } else if d.rest[0].LBrace? {
      var members := ScanMembersSound(Push(d, ObjectStart), strict, {}, true);
      v := Object(members);
      Tail(LBrace, PrintMembers(members, true), RBrace, after);
    } else {
      v := Leaf(d.rest[0]);
    }
  }

  lemma {:induction false} ScanItemsSound(c: Cursor, strict: bool, first: bool) returns (items: Items)
    requires c.state == (if first then ArrayStart else ArrayComma) && c.stack != [] && ScanItems(c, strict).Some?
    ensures WellFormedItems(items) && (strict ==> DuplicateFreeItems(items))
    ensures c.rest == PrintItems(items, first) + [RBracket] + ScanItems(c, strict).value.rest
    ensures ScanItems(c, strict).value.state == ValueEnd(c.stack[|c.stack| - 1])
    ensures ScanItems(c, strict).value.stack == c.stack[..|c.stack| - 1]
    decreases |c.rest|, 2
  {
    if MoreAt(c) {
      var head := ScanSound(c, strict);
      var tail := ScanItemsSound(ScanValue(c, strict).value, strict, false);
      items := Item(head, tail);
      ItemRegrouped(Lead(c.state), Print(head), PrintItems(tail, false), ScanItems(c, strict).value.rest);
    } else {
      items := NoItems;
      assert c.rest == [RBracket] + c.rest[1..];
    }
  }

  lemma NameConsumed(c: Cursor, first: bool) returns (name: string, d: Cursor)
    requires c.state == (if first then ObjectStart else ObjectComma) && MoreAt(c)
    requires Next(c).Got? && Next(c).token.StringToken?
    ensures Next(c) == Got(StringToken(name), d) && d.state == ObjectColon && d.stack == c.stack
    ensures c.rest == (if first then [] else [Comma]) + [Str(name)] + d.rest
  {
    name, d := Next(c).token.text, Next(c).next;
    if !first && c.rest[0] == Comma {
      assert c.rest == [Comma] + c.rest[1..];
    }
  }

  lemma {:induction false} ScanMembersSound(c: Cursor, strict: bool, seen: set<string>, first: bool)
      returns (members: Members)
    requires c.state == (if first then ObjectStart else ObjectComma) && c.stack != []
             && ScanMembers(c, strict, seen).Some?
    ensures WellFormedMembers(members) && (strict ==> DuplicateFreeMembers(members))
    ensures strict ==> Distinct(Names(members)) && forall name :: name in Names(members) ==> name !in seen
    ensures c.rest == PrintMembers(members, first) + [RBrace] + ScanMembers(c, strict, seen).value.rest
    ensures ScanMembers(c, strict, seen).value.state == ValueEnd(c.stack[|c.stack| - 1])
    ensures ScanMembers(c, strict, seen).value.stack == c.stack[..|c.stack| - 1]
    decreases |c.rest|, 0
  {
    if MoreAt(c) {
      var name, d := NameConsumed(c, first);
      var value := ScanSound(d, strict);
      var rest := ScanMembersSound(ScanValue(d, strict).value, strict, seen + {name}, false);
      members := Member(name, value, rest);
      MemberRegrouped(name, Print(value), first, PrintMembers(rest, false), ScanMembers(c, strict, seen).value.rest);
    } else {
      members := NoMembers;
      assert c.rest == [RBrace] + c.rest[1..];
    }
  }

  /** The source's "non-string object key" branch cannot be taken: after More, the decoder in a member
      position either returns a string or an error. */
  lemma NonStringKeyUnreachable(c: Cursor)
    requires c.state.ObjectStart? || c.state.ObjectComma?
    requires MoreAt(c) && Next(c).Got?
    ensures Next(c).token.StringToken?
  {
    if c.rest[0] == Comma && |c.rest| > 1 {
      assert Next(c) == Next(Cursor(c.rest[1..], ObjectKey, c.stack));
    }
  }

  // ---------------------------------------------------------------------------------------------
  // A serialisation determines its tree.

  lemma {:induction false} PrintPrefixFree(v: Json, w: Json, k: seq<Lexeme>, m: seq<Lexeme>)
    requires WellFormed(v) && WellFormed(w) && Print(v) + k == Print(w) + m
    ensures v == w && k == m
    decreases v
  {
    PrintStart(v);
    PrintStart(w);
    assert (Print(v) + k)[0] == Print(v)[0] && (Print(w) + m)[0] == Print(w)[0];
    match v
    case Leaf(_) =>
      assert w.Leaf?;
      assert (Print(v) + k)[1..] == k && (Print(w) + m)[1..] == m;
    case Array(items) =>
      assert w.Array?;
      Tail(LBracket, PrintItems(items, true), RBracket, k);
      Tail(LBracket, PrintItems(w.items, true), RBracket, m);
      PrintItemsPrefixFree(items, w.items, true, k, m);
    case Object(members) =>
      assert w.Object?;
      Tail(LBrace, PrintMembers(members, true), RBrace, k);
      Tail(LBrace, PrintMembers(w.members, true), RBrace, m);
      PrintMembersPrefixFree(members, w.members, true, k, m);
  }

  lemma {:induction false} PrintItemsPrefixFree(a: Items, b: Items, first: bool, k: seq<Lexeme>, m: seq<Lexeme>)
    requires WellFormedItems(a) && WellFormedItems(b)
    requires PrintItems(a, first) + [RBracket] + k == PrintItems(b, first) + [RBracket] + m
    ensures a == b && k == m
    decreases a
  {
    var left, right := PrintItems(a, first) + [RBracket] + k, PrintItems(b, first) + [RBracket] + m;
    if a.NoItems? || b.NoItems? {
      if a.Item? { PrintStart(a.head); }
      if b.Item? { PrintStart(b.head); }
      assert left[0] == right[0];
      assert a.NoItems? && b.NoItems?;
      assert left[1..] == k && right[1..] == m;
    } else {
      var lead := if first then [] else [Comma];
      var ka, kb := PrintItems(a.tail, false) + [RBracket] + k, PrintItems(b.tail, false) + [RBracket] + m;
      assert left == lead + (Print(a.head) + ka) && right == lead + (Print(b.head) + kb);
      assert left[|lead|..] == Print(a.head) + ka && right[|lead|..] == Print(b.head) + kb;
      PrintPrefixFree(a.head, b.head, ka, kb);
      PrintItemsPrefixFree(a.tail, b.tail, false, k, m);
    }
  }

  lemma MemberHead(a: string, b: string, first: bool, ra: seq<Lexeme>, rb: seq<Lexeme>)
    requires var lead := if first then [] else [Comma];
             lead + [Str(a)] + ([Colon] + ra) == lead + [Str(b)] + ([Colon] + rb)
    ensures a == b && ra == rb
  {
    var lead := if first then [] else [Comma];
    var left, right := lead + [Str(a)] + ([Colon] + ra), lead + [Str(b)] + ([Colon] + rb);
    assert left[|lead|] == Str(a) && right[|lead|] == Str(b);
    assert left[|lead| + 2..] == ra && right[|lead| + 2..] == rb;
  }

  lemma {:induction false} PrintMembersPrefixFree(a: Members, b: Members, first: bool, k: seq<Lexeme>, m: seq<Lexeme>)
    requires WellFormedMembers(a) && WellFormedMembers(b)
    requires PrintMembers(a, first) + [RBrace] + k == PrintMembers(b, first) + [RBrace] + m
    ensures a == b && k == m
    decreases a
  {
    var left, right := PrintMembers(a, first) + [RBrace] + k, PrintMembers(b, first) + [RBrace] + m;
    if a.NoMembers? || b.NoMembers? {
      assert left[0] == right[0];
      assert a.NoMembers? && b.NoMembers?;
      assert left[1..] == k && right[1..] == m;
    } else {
      var ka, kb := PrintMembers(a.rest, false) + [RBrace] + k, PrintMembers(b.rest, false) + [RBrace] + m;
      MemberRegrouped(a.name, Print(a.value), first, PrintMembers(a.rest, false), k);
      MemberRegrouped(b.name, Print(b.value), first, PrintMembers(b.rest, false), m);
      assert [Colon] + Print(a.value) + ka == [Colon] + (Print(a.value) + ka);
      assert [Colon] + Print(b.value) + kb == [Colon] + (Print(b.value) + kb);
      MemberHead(a.name, b.name, first, Print(a.value) + ka, Print(b.value) + kb);
      PrintPrefixFree(a.value, b.value, ka, kb);
      PrintMembersPrefixFree(a.rest, b.rest, false, k, m);
    }
  }

  // ---------------------------------------------------------------------------------------------
  // The main results.

  predicate Serialises(v: Json, input: seq<Lexeme>) {
    WellFormed(v) && Print(v) == input
  }

  lemma SerialisationUnique(v: Json, w: Json, input: seq<Lexeme>)
    requires Serialises(v, input) && Serialises(w, input)
    ensures v == w
  {
    assert Print(v) + [] == Print(w) + [];
    PrintPrefixFree(v, w, [], []);
  }

  /** Reading the whole input leaves nothing exactly when the input serialises one value, duplicate-free if strict. */
  lemma ScanAcceptsExactlySerialisations(input: seq<Lexeme>, strict: bool)
    ensures (ScanValue(Cursor(input, TopValue, []), strict).Some?
            && ScanValue(Cursor(input, TopValue, []), strict).value.rest == [])
            <==> exists v :: Serialises(v, input) && (strict ==> DuplicateFree(v))
  {
    var c := Cursor(input, TopValue, []);
    if ScanValue(c, strict).Some? && ScanValue(c, strict).value.rest == [] {
      var v := ScanSound(c, strict);
      assert Serialises(v, input);
    }
    if v :| Serialises(v, input) && (strict ==> DuplicateFree(v)) {
      ScanPrinted(v, strict, TopValue, [], []);
      assert Lead(TopValue) + Print(v) + [] == input;
    }
  }

  /** rejectDuplicateJSONKeys and its twin rejectDuplicateJSON: one value, then end of input. */
  method RejectDuplicateJsonKeys(input: seq<Lexeme>) returns (accepted: bool)
    ensures accepted <==> exists v :: Serialises(v, input) && DuplicateFree(v)
  {
    var decoder := new Decoder(input);
    var scanned := ScanJsonValue(decoder);
    ScanAcceptsExactlySerialisations(input, true);
    if !scanned { return false; }
    ghost var v := ScanSound(Cursor(input, TopValue, []), true);
    var trailing := decoder.Token();
    return trailing.EndOfInput?;
  }
}
