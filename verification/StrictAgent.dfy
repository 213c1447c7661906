/** The strict agent: decoding the adapter's response and sending the token it carries. */
module StrictAgent {
  import opened Text
  import opened JsonScanner
  import opened JsonObjectFields
  import TtsAdapter
  import Transport
  import TxnVerifier

  // ---------------------------------------------------------------------------------------------
  // Integers as encoding/json writes and reads them.

  function DigitOf(n: nat): char
    requires n < 10
  {
    '0' + n as char
  }

  function Decimal(n: nat): (s: string)
    ensures s != ""
    ensures forall i :: 0 <= i < |s| ==> '0' <= s[i] <= '9'
  {
    if n < 10 then [DigitOf(n)] else Decimal(n / 10) + [DigitOf(n % 10)]
  }

  predicate AllDigits(s: string) {
    s != "" && forall i :: 0 <= i < |s| ==> '0' <= s[i] <= '9'
  }

  function Value(s: string): nat
    requires forall i :: 0 <= i < |s| ==> '0' <= s[i] <= '9'
  {
    if s == "" then 0 else Value(s[..|s| - 1]) * 10 + (s[|s| - 1] - '0') as nat
  }

  /** strconv.ParseInt in base 10 and 64 bits. */
  function ParseInt(s: string): Option<Int64> {
    var negative := s != "" && s[0] == '-';
    var digits := if negative then s[1..] else s;
    if !AllDigits(digits) then None
    else
      var magnitude: int := Value(digits);
      var n := if negative then -magnitude else magnitude;
      if IsInt64(n) then Some(n) else None
  }

  lemma {:induction false} ValueOfDecimal(n: nat)
    ensures Value(Decimal(n)) == n
  {
    if n >= 10 {
      ValueOfDecimal(n / 10);
      assert Decimal(n)[..|Decimal(n)| - 1] == Decimal(n / 10);
    } else {
      assert Decimal(n)[..0] == "";
    }
  }

  lemma ParsePrinted(n: nat)
    requires n <= MAX_INT64
    ensures ParseInt(Decimal(n)) == Some(n) && Decimal(n) != "null"
  {
    ValueOfDecimal(n);
    assert '0' <= Decimal(n)[0] <= '9' && "null"[0] == 'n';
  }

  // ---------------------------------------------------------------------------------------------
  // decodeStrictAdapterResponse.

  datatype Reply = Reply(accessToken: string, issuedTokenType: string, tokenType: string, expiresIn: Int64)

  const BLANK: Reply := Reply("", "", "", 0)
  const REPLY_FIELDS: set<string> := {"access_token", "issued_token_type", "token_type", "expires_in"}

  /** Decode into a string: null leaves the target alone, anything but a string is an error. */
  function DecodeText(token: Token, current: string): Option<string> {
    match token
    case StringToken(s) => Some(s)
    case LiteralToken(l) => if l == "null" then Some(current) else None
    case Delim(_) => None
  }

  /** Decode into an int64. */
  function DecodeInt(token: Token, current: Int64): Option<Int64> {
    match token
    case LiteralToken(l) => if l == "null" then Some(current) else ParseInt(l)
    case _ => None
  }

  /** The switch over member names. */
  function Assign(r: Reply, name: string, token: Token): Option<Reply> {
    if name == "access_token" then
      match DecodeText(token, r.accessToken) { case Some(s) => Some(r.(accessToken := s)) case None => None }
    else if name == "issued_token_type" then
      match DecodeText(token, r.issuedTokenType) { case Some(s) => Some(r.(issuedTokenType := s)) case None => None }
    else if name == "token_type" then
      match DecodeText(token, r.tokenType) { case Some(s) => Some(r.(tokenType := s)) case None => None }
    else if name == "expires_in" then
      match DecodeInt(token, r.expiresIn) { case Some(n) => Some(r.(expiresIn := n)) case None => None }
    else None
  }

  datatype Filled = Filled(seen: set<string>, reply: Reply, cursor: Cursor)

  /** The member loop. A composite value is an error whatever it holds, so only its opening is read. */
  function Fill(c: Cursor, seen: set<string>, r: Reply): Option<Filled>
    decreases |c.rest|
  {
    if MoreAt(c) then
      match Next(c)
      case Got(StringToken(name), d) =>
        if name in seen || !Next(d).Got? || Assign(r, name, Next(d).token).None? then None
        else Fill(Next(d).next, seen + {name}, Assign(r, name, Next(d).token).value)
      case _ => None
    else
      match Next(c)
      case Got(_, d) => Some(Filled(seen, r, d))
      case _ => None
  }

  predicate Usable(r: Reply, maximumBytes: int) {
    && r.accessToken != "" && ByteLen(r.accessToken) <= maximumBytes
    && r.issuedTokenType == TtsAdapter.TRANSACTION_TOKEN_TYPE
    && r.tokenType == "N_A" && 0 < r.expiresIn <= 60
  }

  method FillReply(decoder: Decoder) returns (filled: Option<(set<string>, Reply)>)
    modifies decoder
    ensures filled.Some? == Fill(old(decoder.cursor), {}, BLANK).Some?
    ensures filled.Some? ==>
              Fill(old(decoder.cursor), {}, BLANK) == Some(Filled(filled.value.0, filled.value.1, decoder.cursor))
  {
    var seen: set<string> := {};
    var result := BLANK;
    while MoreAt(decoder.cursor)
      invariant Fill(old(decoder.cursor), {}, BLANK) == Fill(decoder.cursor, seen, result)
      decreases |decoder.cursor.rest|
    {
      var name := decoder.Token();
      if !name.Got? || !name.token.StringToken? { return None; }
      if name.token.text in seen { return None; }
      seen := seen + {name.token.text};
      var value := decoder.Token();
      if !value.Got? { return None; }
      var updated := Assign(result, name.token.text, value.token);
      if updated.None? { return None; }
      result := updated.value;
    }
    var closer := decoder.Token();
    if !closer.Got? { return None; }
    return Some((seen, result));
  }

  /** decodeStrictAdapterResponse on values. */
  function Decoded(input: seq<Lexeme>, bodyBytes: nat, maximumBytes: int): Option<Reply> {
    var open := Next(Cursor(input, TopValue, []));
    if bodyBytes > maximumBytes || !open.Got? || open.token != Delim(LBrace) then None
    else
      match Fill(open.next, {}, BLANK)
      case Some(filled) =>
        if filled.cursor.rest == [] && |filled.seen| == 4 && Usable(filled.reply, maximumBytes) then Some(filled.reply)
        else None
      case None => None
  }

  // ---------------------------------------------------------------------------------------------
  // The reference: an object with the four names once each and these values, in any order.

  predicate Has(members: Members, name: string, value: Json) {
    members.Member? && ((members.name == name && members.value == value) || Has(members.rest, name, value))
  }

  ghost predicate Carries(members: Members, r: Reply) {
    && Has(members, "access_token", Leaf(Str(r.accessToken)))
    && Has(members, "issued_token_type", Leaf(Str(r.issuedTokenType)))
    && Has(members, "token_type", Leaf(Str(r.tokenType)))
    && exists l :: Has(members, "expires_in", Leaf(Literal(l))) && l != "null" && ParseInt(l) == Some(r.expiresIn)
  }

  ghost predicate IsReply(v: Json, input: seq<Lexeme>, maximumBytes: int, r: Reply) {
    && v.Object? && Serialises(v, input) && Distinct(Names(v.members)) && NameSet(v.members) == REPLY_FIELDS
    && Carries(v.members, r) && Usable(r, maximumBytes)
  }

  // ---------------------------------------------------------------------------------------------
  // The loop against member lists.

  function TokenOf(v: Json): Token {
    match v
    case Leaf(Str(s)) => StringToken(s)
    case Leaf(Literal(l)) => LiteralToken(l)
    case Leaf(l) => Delim(l)
    case Array(_) => Delim(LBracket)
    case Object(_) => Delim(LBrace)
  }

  function AssignAll(members: Members, r: Reply): Option<Reply> {
    match members
    case NoMembers => Some(r)
    case Member(name, value, rest) =>
      if Assign(r, name, TokenOf(value)).None? then None else AssignAll(rest, Assign(r, name, TokenOf(value)).value)
  }

  lemma LeafRead(d: Cursor, r: Reply, name: string) returns (value: Json)
    requires d.state == ObjectColon && Next(d).Got? && Assign(r, name, Next(d).token).Some?
    ensures WellFormed(value) && TokenOf(value) == Next(d).token && d.rest == [Colon] + Print(value) + Next(d).next.rest
    ensures Next(d).next.state == ObjectComma && Next(d).next.stack == d.stack
  {
    assert Next(d).token.StringToken? || Next(d).token.LiteralToken?;
    assert d.rest[0] == Colon;
    var l := d.rest[1];
    value := Leaf(l);
    assert d.rest == [Colon] + [l] + d.rest[2..];
  }

  lemma {:induction false} FillSound(c: Cursor, seen: set<string>, r: Reply, first: bool) returns (members: Members)
    requires c.state == (if first then ObjectStart else ObjectComma) && c.stack == [TopValue] && Fill(c, seen, r).Some?
    ensures WellFormedMembers(members) && Distinct(Names(members))
            && forall name :: name in Names(members) ==> name !in seen
    ensures Fill(c, seen, r).value.seen == seen + NameSet(members)
    ensures AssignAll(members, r) == Some(Fill(c, seen, r).value.reply)
    ensures Fill(c, seen, r).value.cursor.state == TopValue && Fill(c, seen, r).value.cursor.stack == []
    ensures c.rest == PrintMembers(members, first) + [RBrace] + Fill(c, seen, r).value.cursor.rest
    decreases |c.rest|
  {
    if MoreAt(c) {
      var name, d := NameConsumed(c, first);
      var value := LeafRead(d, r, name);
      var next := Assign(r, name, Next(d).token).value;
      var rest := FillSound(Next(d).next, seen + {name}, next, false);
      members := Member(name, value, rest);
      MemberRegrouped(name, Print(value), first, PrintMembers(rest, false), Fill(c, seen, r).value.cursor.rest);
    } else {
      members := NoMembers;
      assert c.rest == [RBrace] + c.rest[1..];
    }
  }

  lemma FillEnd(seen: set<string>, r: Reply, first: bool)
    ensures Fill(AtMember([RBrace], first), seen, r) == Some(Filled(seen, r, Cursor([], TopValue, [])))
  {
    var c := AtMember([RBrace], first);
    assert c.rest[1..] == [] && c.stack[..|c.stack| - 1] == [];
  }

  lemma FillStep(name: string, value: Json, first: bool, later: seq<Lexeme>, seen: set<string>, r: Reply)
    requires value.Leaf? && WellFormed(value) && name !in seen && Assign(r, name, TokenOf(value)).Some?
    ensures Fill(AtMember((if first then [] else [Comma]) + [Str(name)] + ([Colon] + Print(value) + later), first),
        seen, r)
            == Fill(AtMember(later, false), seen + {name}, Assign(r, name, TokenOf(value)).value)
  {
    var from := [Colon] + Print(value) + later;
    NextName(name, first, from, [TopValue]);
    var d := Cursor(from, ObjectColon, [TopValue]);
    assert from[1..] == [value.lexeme] + later && ([value.lexeme] + later)[1..] == later;
    assert Next(d) == Got(TokenOf(value), AtMember(later, false));
  }

  lemma PrintedMember(name: string, value: Json, rest: Members, first: bool)
    ensures PrintMembers(Member(name, value, rest), first) + [RBrace]
            == (if first then [] else [Comma]) + [Str(name)]
                + ([Colon] + Print(value) + (PrintMembers(rest, false) + [RBrace]))
  {
    MemberRegrouped(name, Print(value), first, PrintMembers(rest, false), []);
    var later := PrintMembers(rest, false) + [RBrace];
    assert later + [] == later;
    assert PrintMembers(Member(name, value, rest), first) + [RBrace] + []
        == PrintMembers(Member(name, value, rest), first) + [RBrace];
  }

  lemma {:induction false} FillPrinted(members: Members, seen: set<string>, r: Reply, first: bool)
    requires WellFormedMembers(members) && Distinct(Names(members)) && AssignAll(members, r).Some?
    requires forall name :: name in Names(members) ==> name !in seen
    ensures Fill(AtMember(PrintMembers(members, first) + [RBrace], first), seen, r)
            == Some(Filled(seen + NameSet(members), AssignAll(members, r).value, Cursor([], TopValue, [])))
    decreases members
  {
    match members
    case NoMembers =>
      FillEnd(seen, r, first);
      assert PrintMembers(members, first) + [RBrace] == [RBrace] && seen + NameSet(members) == seen;
    case Member(name, value, rest) =>
      var later := PrintMembers(rest, false) + [RBrace];
      PrintedMember(name, value, rest, first);
      assert Names(members)[0] == name && Names(members)[1..] == Names(rest);
      FillStep(name, value, first, later, seen, r);
      FillPrinted(rest, seen + {name}, Assign(r, name, TokenOf(value)).value, false);
      assert seen + {name} + NameSet(rest) == seen + NameSet(members);
  }

  // ---------------------------------------------------------------------------------------------
  // What the assignments leave, looked up by name.

  function TextIn(members: Members, name: string, current: string): string {
    match members
    case NoMembers => current
    case Member(n, value, rest) =>
      if n == name then (if value.Leaf? && value.lexeme.Str? then value.lexeme.text else current)
      else TextIn(rest, name, current)
  }

  function IntIn(members: Members, name: string, current: Int64): Int64 {
    match members
    case NoMembers => current
    case Member(n, value, rest) =>
      if n == name then
        (if value.Leaf? && value.lexeme.Literal? && value.lexeme.literal != "null"
        && ParseInt(value.lexeme.literal).Some?
         then ParseInt(value.lexeme.literal).value else current)
      else IntIn(rest, name, current)
  }

  lemma {:induction false} AbsentName(members: Members, name: string, text: string, n: Int64)
    requires name !in Names(members)
    ensures TextIn(members, name, text) == text && IntIn(members, name, n) == n
  {
    if members.Member? {
      assert Names(members)[0] == members.name;
      AbsentName(members.rest, name, text, n);
    }
  }

  function ReplyIn(members: Members, r: Reply): Reply {
    Reply(TextIn(members, "access_token", r.accessToken), TextIn(members, "issued_token_type", r.issuedTokenType),
          TextIn(members, "token_type", r.tokenType), IntIn(members, "expires_in", r.expiresIn))
  }

  lemma {:induction false} AssignAllIsLookup(members: Members, r: Reply)
    requires Distinct(Names(members)) && AssignAll(members, r).Some?
    ensures AssignAll(members, r).value == ReplyIn(members, r)
    ensures NameSet(members) <= REPLY_FIELDS
  {
    if members.Member? {
      var name, rest := members.name, members.rest;
      var next := Assign(r, name, TokenOf(members.value)).value;
      assert Names(members)[0] == name && Names(members)[1..] == Names(rest);
      AssignAllIsLookup(rest, next);
      if name == "access_token" { AbsentName(rest, name, next.accessToken, 0); }
      else if name == "issued_token_type" { AbsentName(rest, name, next.issuedTokenType, 0); }
      else if name == "token_type" { AbsentName(rest, name, next.tokenType, 0); }
      else { AbsentName(rest, name, "", next.expiresIn); }
      assert NameSet(members) == {name} + NameSet(rest);
    }
  }

  lemma {:induction false} HasName(members: Members, name: string, value: Json)
    requires Has(members, name, value)
    ensures name in Names(members)
  {
    assert Names(members)[0] == members.name;
    if !(members.name == name && members.value == value) {
      HasName(members.rest, name, value);
      assert Names(members)[1..] == Names(members.rest);
    }
  }

  lemma {:induction false} TextInIsHas(members: Members, name: string, text: string)
    requires Distinct(Names(members)) && text != ""
    ensures TextIn(members, name, "") == text <==> Has(members, name, Leaf(Str(text)))
  {
    if members.Member? {
      assert Names(members)[0] == members.name && Names(members)[1..] == Names(members.rest);
      TextInIsHas(members.rest, name, text);
      if Has(members.rest, name, Leaf(Str(text))) { HasName(members.rest, name, Leaf(Str(text))); }
    }
  }

  lemma {:induction false} IntInIsHas(members: Members, name: string, n: Int64)
    requires Distinct(Names(members)) && n != 0
    ensures IntIn(members, name, 0) == n <==>
              exists l :: Has(members, name, Leaf(Literal(l))) && l != "null" && ParseInt(l) == Some(n)
  {
    if members.Member? {
      assert Names(members)[0] == members.name && Names(members)[1..] == Names(members.rest);
      IntInIsHas(members.rest, name, n);
      if members.name == name {
        forall l | Has(members.rest, name, Leaf(Literal(l)))
            ensures false { HasName(members.rest, name, Leaf(Literal(l))); }
        if IntIn(members, name, 0) == n { assert Has(members, name, Leaf(Literal(members.value.lexeme.literal))); }
      } else {
        assert forall l :: Has(members, name, Leaf(Literal(l))) <==> Has(members.rest, name, Leaf(Literal(l)));
      }
    }
  }

  lemma UsableReplyIsCarried(members: Members, maximumBytes: int, r: Reply)
    requires Distinct(Names(members)) && Usable(r, maximumBytes)
    ensures ReplyIn(members, BLANK) == r <==> Carries(members, r)
  {
    TextInIsHas(members, "access_token", r.accessToken);
    TextInIsHas(members, "issued_token_type", r.issuedTokenType);
    TextInIsHas(members, "token_type", r.tokenType);
    IntInIsHas(members, "expires_in", r.expiresIn);
  }

  lemma {:induction false} ValuesAreUnique(members: Members, name: string, a: Json, b: Json)
    requires Distinct(Names(members)) && Has(members, name, a) && Has(members, name, b)
    ensures a == b
  {
    assert Names(members)[0] == members.name && Names(members)[1..] == Names(members.rest);
    if Has(members.rest, name, a) { HasName(members.rest, name, a); }
    if Has(members.rest, name, b) { HasName(members.rest, name, b); }
    if members.name != name { ValuesAreUnique(members.rest, name, a, b); }
  }

  predicate Assignable(name: string, value: Json) {
    Assign(BLANK, name, TokenOf(value)).Some?
  }

  lemma {:induction false} AssignAllSucceeds(members: Members, r: Reply)
    requires forall name, value :: Has(members, name, value) ==> Assignable(name, value)
    ensures AssignAll(members, r).Some?
  {
    if members.Member? {
      assert Has(members, members.name, members.value);
      assert Assignable(members.name, members.value);
      forall name, value | Has(members.rest, name, value) ensures Assignable(name, value) {
        assert Has(members, name, value);
      }
      AssignAllSucceeds(members.rest, Assign(r, members.name, TokenOf(members.value)).value);
    }
  }

  lemma TextIsAssignable(name: string, text: string)
    requires name == "access_token" || name == "issued_token_type" || name == "token_type"
    ensures Assignable(name, Leaf(Str(text)))
  {
  }

  lemma NumberIsAssignable(l: string)
    requires ParseInt(l).Some?
    ensures Assignable("expires_in", Leaf(Literal(l)))
  {
    assert "token_type"[0] == 't' && "expires_in"[0] == 'e';
    assert |"access_token"| == 12 && |"issued_token_type"| == 17 && |"expires_in"| == 10;
  }

  lemma CarriedValue(members: Members, r: Reply, name: string, value: Json)
    requires Distinct(Names(members)) && name in REPLY_FIELDS && Carries(members, r) && Has(members, name, value)
    ensures Assignable(name, value)
  {
    if name == "expires_in" {
      var l :| Has(members, "expires_in", Leaf(Literal(l))) && l != "null" && ParseInt(l) == Some(r.expiresIn);
      ValuesAreUnique(members, name, value, Leaf(Literal(l)));
      NumberIsAssignable(l);
    } else {
      var text := if name == "access_token" then r.accessToken else if name == "issued_token_type"
          then r.issuedTokenType else r.tokenType;
      ValuesAreUnique(members, name, value, Leaf(Str(text)));
      TextIsAssignable(name, text);
    }
  }

  lemma CarriedIsAssignable(members: Members, r: Reply)
    requires Distinct(Names(members)) && NameSet(members) == REPLY_FIELDS && Carries(members, r)
    ensures AssignAll(members, BLANK).Some?
  {
    forall name, value | Has(members, name, value) ensures Assignable(name, value) {
      HasName(members, name, value);
      assert name in NameSet(members);
      CarriedValue(members, r, name, value);
    }
    AssignAllSucceeds(members, BLANK);
  }

  predicate Reads(input: seq<Lexeme>, r: Reply) {
    var open := Next(Cursor(input, TopValue, []));
    open.Got? && open.token == Delim(LBrace)
    && Fill(open.next, {}, BLANK) == Some(Filled(REPLY_FIELDS, r, Cursor([], TopValue, [])))
  }

  lemma CarriedIsAssigned(members: Members, maximumBytes: int, r: Reply)
    requires Distinct(Names(members)) && NameSet(members) == REPLY_FIELDS && Carries(members, r)
             && Usable(r, maximumBytes)
    ensures AssignAll(members, BLANK) == Some(r)
  {
    CarriedIsAssignable(members, r);
    AssignAllIsLookup(members, BLANK);
    UsableReplyIsCarried(members, maximumBytes, r);
  }

  lemma ReplyIsRead(v: Json, input: seq<Lexeme>, maximumBytes: int, r: Reply)
    requires IsReply(v, input, maximumBytes, r)
    ensures Reads(input, r)
  {
    CarriedIsAssigned(v.members, maximumBytes, r);
    FillPrinted(v.members, {}, BLANK, true);
    assert input[1..] == PrintMembers(v.members, true) + [RBrace] && [] + [TopValue] == [TopValue];
    assert {} + NameSet(v.members) == REPLY_FIELDS;
  }

  lemma FourFields()
    ensures |REPLY_FIELDS| == 4
  {
    assert |"access_token"| == 12 && |"issued_token_type"| == 17 && |"token_type"| == 10 && |"expires_in"| == 10;
    assert "token_type"[0] == 't' && "expires_in"[0] == 'e';
  }

  /** The members behind a filled reply. */
  lemma FilledMembers(input: seq<Lexeme>) returns (members: Members)
    requires Next(Cursor(input, TopValue, [])).Got? && Next(Cursor(input, TopValue, [])).token == Delim(LBrace)
    requires Fill(Next(Cursor(input, TopValue, [])).next, {}, BLANK).Some?
    ensures var filled := Fill(Next(Cursor(input, TopValue, [])).next, {}, BLANK).value;
            && filled.cursor.state == TopValue && filled.cursor.stack == []
            && WellFormedMembers(members) && Distinct(Names(members)) && filled.seen == NameSet(members)
            && AssignAll(members, BLANK) == Some(filled.reply) && input == Print(Object(members)) + filled.cursor.rest
  {
    var c := Next(Cursor(input, TopValue, [])).next;
    members := FillSound(c, {}, BLANK, true);
    var after := Fill(c, {}, BLANK).value.cursor.rest;
    assert input == [LBrace] + c.rest;
    Tail(LBrace, PrintMembers(members, true), RBrace, after);
    assert {} + NameSet(members) == NameSet(members);
  }

  /** At the end of the member loop nothing is open, so only the end of the input reads as such. */
  lemma FilledAtTop(input: seq<Lexeme>)
    requires Next(Cursor(input, TopValue, [])).Got? && Next(Cursor(input, TopValue, [])).token == Delim(LBrace)
    requires Fill(Next(Cursor(input, TopValue, [])).next, {}, BLANK).Some?
    ensures var c := Fill(Next(Cursor(input, TopValue, [])).next, {}, BLANK).value.cursor;
            Next(c).EndOfInput? <==> c.rest == []
  {
    var members := FilledMembers(input);
  }

  lemma MembersAreReply(members: Members, maximumBytes: int, r: Reply)
    requires WellFormedMembers(members) && Distinct(Names(members)) && |NameSet(members)| == 4
    requires AssignAll(members, BLANK) == Some(r) && Usable(r, maximumBytes)
    ensures IsReply(Object(members), Print(Object(members)), maximumBytes, r)
  {
    AssignAllIsLookup(members, BLANK);
    FourFields();
    SubsetOfSameSize(NameSet(members), REPLY_FIELDS);
    UsableReplyIsCarried(members, maximumBytes, r);
  }

  /** Within the byte bound the decoder yields exactly the replies. */
  lemma DecodedMeaning(input: seq<Lexeme>, bodyBytes: nat, maximumBytes: int, r: Reply)
    ensures Decoded(input, bodyBytes, maximumBytes) == Some(r) <==>
              bodyBytes <= maximumBytes && exists v :: IsReply(v, input, maximumBytes, r)
  {
    if Decoded(input, bodyBytes, maximumBytes) == Some(r) {
      var members := FilledMembers(input);
      assert Print(Object(members)) + [] == input;
      MembersAreReply(members, maximumBytes, r);
      assert IsReply(Object(members), input, maximumBytes, r);
    }
    if v :| bodyBytes <= maximumBytes && IsReply(v, input, maximumBytes, r) {
      ReplyIsRead(v, input, maximumBytes, r);
      FourFields();
    }
  }

  method DecodeReply(input: seq<Lexeme>, bodyBytes: nat, maximumBytes: int) returns (reply: Option<Reply>)
    ensures reply == Decoded(input, bodyBytes, maximumBytes)
    ensures reply.Some? ==> bodyBytes <= maximumBytes && exists v :: IsReply(v, input, maximumBytes, reply.value)
    ensures reply.None? ==> bodyBytes > maximumBytes || forall v, r :: !IsReply(v, input, maximumBytes, r)
  {
    forall v, r | bodyBytes <= maximumBytes && IsReply(v, input, maximumBytes, r)
        ensures Decoded(input, bodyBytes, maximumBytes) == Some(r) {
      DecodedMeaning(input, bodyBytes, maximumBytes, r);
    }
    if bodyBytes > maximumBytes { return None; }
    var decoder := new Decoder(input);
    var open := decoder.Token();
    if !open.Got? || open.token != Delim(LBrace) { return None; }
    var filled := FillReply(decoder);
    if filled.None? { return None; }
    var trailing := decoder.Token();
    FilledAtTop(input);
    if !trailing.EndOfInput? || |filled.value.0| != 4 || !Usable(filled.value.1, maximumBytes) { return None; }
    DecodedMeaning(input, bodyBytes, maximumBytes, filled.value.1);
    return Some(filled.value.1);
  }

  lemma {:induction false} NameHasValue(members: Members, name: string)
    requires name in Names(members)
    ensures exists value :: Has(members, name, value)
  {
    if members.name == name {
      assert Has(members, name, members.value);
    } else {
      assert Names(members)[0] == members.name && Names(members)[1..] == Names(members.rest);
      NameHasValue(members.rest, name);
      var value :| Has(members.rest, name, value);
      assert Has(members, name, value);
    }
  }

  ghost predicate SameMembers(a: Members, b: Members) {
    forall name, value :: Has(a, name, value) <==> Has(b, name, value)
  }

  lemma SameNames(a: Members, b: Members)
    requires SameMembers(a, b)
    ensures NameSet(a) == NameSet(b)
  {
    forall name ensures name in NameSet(a) <==> name in NameSet(b) {
      if name in Names(a) {
        NameHasValue(a, name);
        var value :| Has(a, name, value);
        HasName(b, name, value);
      }
      if name in Names(b) {
        NameHasValue(b, name);
        var value :| Has(b, name, value);
        HasName(a, name, value);
      }
    }
  }

  predicate IsProperObject(v: Json) {
    v.Object? && WellFormed(v) && Distinct(Names(v.members))
  }

  lemma ReorderedDecodes(v: Json, w: Json, bodyBytes: nat, maximumBytes: int, r: Reply)
    requires IsProperObject(v) && IsProperObject(w) && SameMembers(v.members, w.members)
    requires Decoded(Print(v), bodyBytes, maximumBytes) == Some(r)
    ensures Decoded(Print(w), bodyBytes, maximumBytes) == Some(r)
  {
    DecodedMeaning(Print(v), bodyBytes, maximumBytes, r);
    var u :| IsReply(u, Print(v), maximumBytes, r);
    SerialisationUnique(u, v, Print(v));
    SameNames(v.members, w.members);
    assert IsReply(w, Print(w), maximumBytes, r);
    DecodedMeaning(Print(w), bodyBytes, maximumBytes, r);
  }

  /** Two objects with the same members, each name once, decode alike whatever their order. */
  lemma MemberOrderIsImmaterial(v: Json, w: Json, bodyBytes: nat, maximumBytes: int)
    requires IsProperObject(v) && IsProperObject(w) && SameMembers(v.members, w.members)
    ensures Decoded(Print(v), bodyBytes, maximumBytes) == Decoded(Print(w), bodyBytes, maximumBytes)
  {
    var a, b := Decoded(Print(v), bodyBytes, maximumBytes), Decoded(Print(w), bodyBytes, maximumBytes);
    if a.Some? { ReorderedDecodes(v, w, bodyBytes, maximumBytes, a.value); }
    if b.Some? { ReorderedDecodes(w, v, bodyBytes, maximumBytes, b.value); }
  }

  /** The decoded reply is determined by the input. */
  lemma ReplyIsUnique(v: Json, w: Json, input: seq<Lexeme>, maximumBytes: int, a: Reply, b: Reply)
    requires IsReply(v, input, maximumBytes, a) && IsReply(w, input, maximumBytes, b)
    ensures v == w && a == b
  {
    SerialisationUnique(v, w, input);
    ReplyIsRead(v, input, maximumBytes, a);
    ReplyIsRead(w, input, maximumBytes, b);
  }

  // ---------------------------------------------------------------------------------------------
  // Round trip with the adapter.

  /** The body of a 200 response, in the adapter's member order. */
  function Body(token: string, lifetime: nat): Json {
    Object(Member("access_token", Leaf(Str(token)),
           Member("issued_token_type", Leaf(Str(TtsAdapter.TRANSACTION_TOKEN_TYPE)),
           Member("token_type", Leaf(Str("N_A")),
           Member("expires_in", Leaf(Literal(Decimal(lifetime))), NoMembers)))))
  }

  lemma NamesOfFour(m: Members, a: string, b: string, c: string, d: string)
    requires m.Member? && m.name == a && m.rest.Member? && m.rest.name == b && m.rest.rest.Member?
             && m.rest.rest.name == c
    requires m.rest.rest.rest.Member? && m.rest.rest.rest.name == d && m.rest.rest.rest.rest.NoMembers?
    ensures Names(m) == [a, b, c, d]
  {
    assert Names(m.rest.rest.rest) == [d] && Names(m.rest.rest) == [c, d] && Names(m.rest) == [b, c, d];
  }

  lemma BodyNames(token: string, lifetime: nat)
    ensures Distinct(Names(Body(token, lifetime).members)) && NameSet(Body(token, lifetime).members) == REPLY_FIELDS
  {
    var names := ["access_token", "issued_token_type", "token_type", "expires_in"];
    assert Names(Body(token, lifetime).members) == names by {
      NamesOfFour(Body(token, lifetime).members, "access_token", "issued_token_type", "token_type", "expires_in");
    }
    assert "token_type"[0] == 't' && "expires_in"[0] == 'e';
    assert |"access_token"| == 12 && |"issued_token_type"| == 17 && |"token_type"| == 10 && |"expires_in"| == 10;
    assert Distinct(names);
    assert (set name | name in names) == REPLY_FIELDS;
  }

  lemma LeafMember(name: string, l: Lexeme, rest: Members)
    requires (l.Str? || l.Literal?) && WellFormedMembers(rest)
    ensures WellFormedMembers(Member(name, Leaf(l), rest))
  {
    assert WellFormed(Leaf(l));
  }

  lemma BodyCarries(token: string, lifetime: nat)
    requires lifetime <= MAX_INT64
    ensures WellFormed(Body(token, lifetime))
    ensures Carries(Body(token, lifetime).members, Reply(token, TtsAdapter.TRANSACTION_TOKEN_TYPE, "N_A", lifetime))
  {
    ParsePrinted(lifetime);
    var m := Body(token, lifetime).members;
    var n, o, p := m.rest, m.rest.rest, m.rest.rest.rest;
    assert WellFormedMembers(NoMembers);
    LeafMember(p.name, p.value.lexeme, NoMembers);
    LeafMember(o.name, o.value.lexeme, p);
    LeafMember(n.name, n.value.lexeme, o);
    LeafMember(m.name, m.value.lexeme, n);
    var count := Leaf(Literal(Decimal(lifetime)));
    assert Has(p, "expires_in", count) && Has(o, "expires_in", count) && Has(n, "expires_in", count)
           && Has(m, "expires_in", count);
    var na := Leaf(Str("N_A"));
    assert Has(o, "token_type", na) && Has(n, "token_type", na) && Has(m, "token_type", na);
    var issued := Leaf(Str(TtsAdapter.TRANSACTION_TOKEN_TYPE));
    assert Has(n, "issued_token_type", issued) && Has(m, "issued_token_type", issued);
    assert Has(m, "access_token", Leaf(Str(token)));
  }

  /** Every 200 body of an adapter bounded to sixty seconds carries, for the agent, the same token and lifetime;
      what is left to chance is only the byte bound, which the agent applies to the body and the adapter to the
      token. */
  lemma AdapterBodyIsReply(config: TtsAdapter.Config, r: TtsAdapter.Request, u: TtsAdapter.Upstream,
      w: TxnVerifier.Wire, maximumBytes: int)
    requires TtsAdapter.Grants(config, r, u, w) && config.maximumExpiresIn <= 60
    ensures var lifetime := TtsAdapter.ExpiresIn(TxnVerifier.UnixInstant(w.issuedAt),
        TxnVerifier.UnixInstant(w.expiresAt));
            && 1 <= lifetime <= 60
            && (ByteLen(u.accessToken) <= maximumBytes <==>
                IsReply(Body(u.accessToken, lifetime), Print(Body(u.accessToken, lifetime)), maximumBytes,
                        Reply(u.accessToken, TtsAdapter.TRANSACTION_TOKEN_TYPE, "N_A", lifetime)))
  {
    var iat, exp := TxnVerifier.UnixInstant(w.issuedAt), TxnVerifier.UnixInstant(w.expiresAt);
    TtsAdapter.LifetimeCheckIsExact(config.maximumExpiresIn, u.expiresIn, iat, exp);
    var lifetime := TtsAdapter.ExpiresIn(iat, exp);
    BodyNames(u.accessToken, lifetime);
    BodyCarries(u.accessToken, lifetime);
  }

  /** The agent decodes every 200 body of an adapter bounded to sixty seconds to the token and the lifetime granted,
      exactly when the body fits its bound; a body is never shorter than the token in it. */
  lemma AdapterBodyDecodes(config: TtsAdapter.Config, r: TtsAdapter.Request, u: TtsAdapter.Upstream,
      w: TxnVerifier.Wire, bodyBytes: nat, maximumBytes: int)
    requires TtsAdapter.Grants(config, r, u, w) && config.maximumExpiresIn <= 60 && ByteLen(u.accessToken) <= bodyBytes
    ensures var lifetime := TtsAdapter.ExpiresIn(TxnVerifier.UnixInstant(w.issuedAt),
        TxnVerifier.UnixInstant(w.expiresAt));
            && 1 <= lifetime <= 60
            && Decoded(Print(Body(u.accessToken, lifetime)), bodyBytes, maximumBytes)
               == if bodyBytes <= maximumBytes
                   then Some(Reply(u.accessToken, TtsAdapter.TRANSACTION_TOKEN_TYPE, "N_A", lifetime)) else None
  {
    AdapterBodyIsReply(config, r, u, w, maximumBytes);
    var lifetime := TtsAdapter.ExpiresIn(TxnVerifier.UnixInstant(w.issuedAt), TxnVerifier.UnixInstant(w.expiresAt));
    DecodedMeaning(Print(Body(u.accessToken, lifetime)), bodyBytes, maximumBytes,
                   Reply(u.accessToken, TtsAdapter.TRANSACTION_TOKEN_TYPE, "N_A", lifetime));
  }

  // ---------------------------------------------------------------------------------------------
  // Run, between the adapter's response and the gateway call.

  const AGENT_ID: string := "spiffe://example.org/agent/demo"

  predicate ClaimsForDemo(w: TxnVerifier.Wire) {
    && w.requestingWorkload == AGENT_ID && w.context.agentId == "urn:agent:demo" && w.context.target == "demo"
    && w.context.tool == "system.whoami" && Fields(w.scope) == ["mcp.system.whoami"]
  }

  /** The header of the gateway call. */
  function Invocation(token: string): Transport.Header {
    map[Transport.TXN_TOKEN := [token]]
    [Transport.Canonical("Content-Type") := ["application/json"]]
    [Transport.Canonical("Accept") := ["application/json, text/event-stream"]]
    [Transport.Canonical("Mcp-Protocol-Version") := ["2025-06-18"]]
    [Transport.Canonical("Mcp-Method") := ["tools/call"]]
    [Transport.Canonical("Mcp-Name") := ["system.whoami"]]
  }

  /** A field that is neither the token nor a credential does not disturb it. */
  lemma FieldKeepsToken(h: Transport.Header, key: string, value: string, maximumBytes: int, token: string)
    requires Transport.Carries(h, maximumBytes, token) && |key| != |Transport.AUTHORIZATION|
             && |key| != |Transport.TXN_TOKEN|
    ensures Transport.Carries(h[Transport.Canonical(key) := [value]], maximumBytes, token)
  {
    var next := h[Transport.Canonical(key) := [value]];
    forall k | k in next ensures !Transport.EqualFold(k, Transport.AUTHORIZATION) {
      assert k != Transport.Canonical(key) ==> k in h;
    }
  }

  lemma FieldWidths()
    ensures |"Content-Type"| == 12 && |"Accept"| == 6 && |"Mcp-Protocol-Version"| == 20 && |"Mcp-Method"| == 10
            && |"Mcp-Name"| == 8
    ensures |Transport.TXN_TOKEN| == 9 && |Transport.AUTHORIZATION| == 13
  {
  }

  lemma InvocationCarries(token: string, maximumBytes: int)
    requires maximumBytes > 0 && Transport.IsCompact(token) && ByteLen(token) <= maximumBytes
    ensures Transport.Carries(Invocation(token), maximumBytes, token)
  {
    FieldWidths();
    Transport.SetThenExtract(map[], token, maximumBytes);
    var h0 := map[][Transport.TXN_TOKEN := [token]];
    var h1 := h0[Transport.Canonical("Content-Type") := ["application/json"]];
    var h2 := h1[Transport.Canonical("Accept") := ["application/json, text/event-stream"]];
    var h3 := h2[Transport.Canonical("Mcp-Protocol-Version") := ["2025-06-18"]];
    var h4 := h3[Transport.Canonical("Mcp-Method") := ["tools/call"]];
    FieldKeepsToken(h0, "Content-Type", "application/json", maximumBytes, token);
    FieldKeepsToken(h1, "Accept", "application/json, text/event-stream", maximumBytes, token);
    FieldKeepsToken(h2, "Mcp-Protocol-Version", "2025-06-18", maximumBytes, token);
    FieldKeepsToken(h3, "Mcp-Method", "tools/call", maximumBytes, token);
    FieldKeepsToken(h4, "Mcp-Name", "system.whoami", maximumBytes, token);
    assert h0 == map[Transport.TXN_TOKEN := [token]];
  }

  method CheckClaims(claims: Option<TxnVerifier.Wire>) returns (ok: bool)
    ensures ok <==> claims.Some? && ClaimsForDemo(claims.value)
  {
    if claims.None? { return false; }
    var w := claims.value;
    return !(w.requestingWorkload != AGENT_ID || w.context.agentId != "urn:agent:demo" || w.context.target != "demo"
             || w.context.tool != "system.whoami" || |Fields(w.scope)| != 1
             || Fields(w.scope)[0] != "mcp.system.whoami");
  }

  method BuildInvocation(token: string, maximumBytes: int) returns (header: Option<Transport.Header>)
    ensures header.Some? <==> maximumBytes > 0 && Transport.IsCompact(token) && ByteLen(token) <= maximumBytes
    ensures header.Some? ==> header.value == Invocation(token)
  {
    var fields := new Transport.HeaderMap(map[]);
    var ok := Transport.SetTxnToken(fields, token, maximumBytes);
    if !ok { return None; }
    fields.fields := fields.fields[Transport.Canonical("Content-Type") := ["application/json"]];
    fields.fields := fields.fields[Transport.Canonical("Accept") := ["application/json, text/event-stream"]];
    fields.fields := fields.fields[Transport.Canonical("Mcp-Protocol-Version") := ["2025-06-18"]];
    fields.fields := fields.fields[Transport.Canonical("Mcp-Method") := ["tools/call"]];
    fields.fields := fields.fields[Transport.Canonical("Mcp-Name") := ["system.whoami"]];
    return Some(fields.fields);
  }

  /** What the agent sends for a reply, if anything. */
  ghost predicate Sends(input: seq<Lexeme>, maximumBytes: int, verify: string -> Option<TxnVerifier.Wire>, r: Reply) {
    && maximumBytes > 0 && (exists v :: IsReply(v, input, maximumBytes, r))
    && verify(r.accessToken).Some? && ClaimsForDemo(verify(r.accessToken).value) && Transport.IsCompact(r.accessToken)
  }

  lemma SentReplyIsUnique(input: seq<Lexeme>, maximumBytes: int, verify: string -> Option<TxnVerifier.Wire>, a: Reply,
      b: Reply)
    requires Sends(input, maximumBytes, verify, a) && exists v :: IsReply(v, input, maximumBytes, b)
    ensures a == b
  {
    var v :| IsReply(v, input, maximumBytes, a);
    var w :| IsReply(w, input, maximumBytes, b);
    ReplyIsUnique(v, w, input, maximumBytes, a, b);
  }

  /** The header sent carries exactly the token of the adapter's reply, or nothing is sent. */
  method Invoke(input: seq<Lexeme>, bodyBytes: nat, maximumBytes: int, verify: string -> Option<TxnVerifier.Wire>)
      returns (header: Option<Transport.Header>)
    ensures header.Some? <==> bodyBytes <= maximumBytes && exists r :: Sends(input, maximumBytes, verify, r)
    ensures header.Some? ==> forall r :: Sends(input, maximumBytes, verify, r) ==>
              header.value == Invocation(r.accessToken) && Transport.Carries(header.value, maximumBytes, r.accessToken)
  {
    var reply := DecodeReply(input, bodyBytes, maximumBytes);
    if reply.None? { return None; }
    forall r | Sends(input, maximumBytes, verify, r) ensures r == reply.value {
      SentReplyIsUnique(input, maximumBytes, verify, r, reply.value);
    }
    var token := reply.value.accessToken;
    var ok := CheckClaims(verify(token));
    if !ok { return None; }
    header := BuildInvocation(token, maximumBytes);
    if header.Some? {
      InvocationCarries(token, maximumBytes);
      assert Sends(input, maximumBytes, verify, reply.value);
    }
  }
}
