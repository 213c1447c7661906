/** The issuer plugin's trusted metadata: the agent bindings it parses and the attributes it derives. Java's
    own string rules apply here. */
module TrustedMetadata {
  import opened Text

  // ---------------------------------------------------------------------------------------------
  // Java strings.

  /** Character.isWhitespace. */
  predicate IsJavaSpace(c: char) {
    var n := c as int;
    9 <= n <= 13 || 0x1C <= n <= 0x20 || n == 0x1680 || (0x2000 <= n <= 0x200A && n != 0x2007)
    || n == 0x2028 || n == 0x2029 || n == 0x205F || n == 0x3000
  }

  predicate IsBlank(s: string) {
    forall i :: 0 <= i < |s| ==> IsJavaSpace(s[i])
  }

  function TrimFront(s: string): (r: string)
    ensures r != [] ==> s != [] && r[0] > ' ' && r[|r| - 1] == s[|s| - 1]
  {
    if s != [] && s[0] <= ' ' then TrimFront(s[1..]) else s
  }

  function TrimBack(s: string): (r: string)
    ensures r != [] ==> s != [] && r[|r| - 1] > ' ' && r[0] == s[0]
  {
    if s != [] && s[|s| - 1] <= ' ' then TrimBack(s[..|s| - 1]) else s
  }

  /** String.trim: removes control characters and blanks from both ends. */
  function Trim(s: string): (r: string)
    ensures r != [] ==> r[0] > ' ' && r[|r| - 1] > ' '
    ensures s != [] && s[0] > ' ' && s[|s| - 1] > ' ' ==> r == s
  {
    TrimBack(TrimFront(s))
  }

  /** String.length, in UTF-16 units. */
  function Utf16Len(s: string): nat {
    if s == [] then 0 else (if (s[0] as int) < 0x10000 then 1 else 2) + Utf16Len(s[1..])
  }

  /** A character that \R matches; a CR LF pair is one line break. */
  predicate IsBreak(c: char) {
    var n := c as int;
    10 <= n <= 13 || n == 0x85 || n == 0x2028 || n == 0x2029
  }

  predicate BreakFree(s: string) {
    forall i :: 0 <= i < |s| ==> !IsBreak(s[i])
  }

  function RawLines(s: string): (lines: seq<string>)
    ensures |lines| >= 1
    ensures forall i :: 0 <= i < |lines| ==> BreakFree(lines[i])
    decreases |s|
  {
    if s == [] then [""]
    else if s[0] == '\r' && |s| > 1 && s[1] == '\n' then [""] + RawLines(s[2..])
    else if IsBreak(s[0]) then [""] + RawLines(s[1..])
    else
      var rest := RawLines(s[1..]);
      [[s[0]] + rest[0]] + rest[1..]
  }

  function DropTrailingEmpty(lines: seq<string>): (r: seq<string>)
    ensures |r| <= |lines| && r == lines[..|r|]
  {
    if lines != [] && lines[|lines| - 1] == "" then DropTrailingEmpty(lines[..|lines| - 1]) else lines
  }

  /** split("\\R"). */
  function SplitLines(s: string): (lines: seq<string>)
    ensures forall i :: 0 <= i < |lines| ==> BreakFree(lines[i])
  {
    DropTrailingEmpty(RawLines(s))
  }

  lemma {:induction false} RawLinesPrepend(line: string, rest: string)
    requires BreakFree(line) && (rest == [] || rest[0] == '\n')
    ensures RawLines(line + rest) == [line + RawLines(rest)[0]] + RawLines(rest)[1..]
  {
    if line == [] {
      assert line + rest == rest;
      assert [] + RawLines(rest)[0] == RawLines(rest)[0];
    } else {
      assert (line + rest)[1..] == line[1..] + rest;
      assert !IsBreak(line[0]);
      RawLinesPrepend(line[1..], rest);
      assert [line[0]] + (line[1..] + RawLines(rest)[0]) == line + RawLines(rest)[0];
    }
  }

  lemma {:induction false} RawLinesOfJoin(lines: seq<string>)
    requires lines != [] && forall i :: 0 <= i < |lines| ==> BreakFree(lines[i])
    ensures RawLines(Join(lines, '\n')) == lines
  {
    if |lines| == 1 {
      RawLinesPrepend(lines[0], "");
      assert lines[0] + "" == lines[0] && RawLines("") == [""];
    } else {
      var rest := ['\n'] + Join(lines[1..], '\n');
      assert Join(lines, '\n') == lines[0] + rest;
      RawLinesPrepend(lines[0], rest);
      assert rest[1..] == Join(lines[1..], '\n');
      RawLinesOfJoin(lines[1..]);
      assert RawLines(rest) == [""] + lines[1..];
      assert lines[0] + "" == lines[0];
      assert lines == [lines[0]] + lines[1..];
    }
  }

  // ---------------------------------------------------------------------------------------------
  // Bindings.

  /** The two sides of a line, when it has exactly two and neither is blank. */
  function ParseLine(line: string): Option<(string, string)> {
    var parts := Split(Trim(line), '=');
    if |parts| != 2 || IsBlank(parts[0]) || IsBlank(parts[1]) then None else Some((parts[0], parts[1]))
  }

  function ParseLines(lines: seq<string>, result: map<string, string>): Option<map<string, string>> {
    if lines == [] then Some(result)
    else
      var entry := ParseLine(lines[0]);
      if entry.None? || entry.value.0 in result then None
      else ParseLines(lines[1..], result[entry.value.0 := entry.value.1])
  }

  function Parse(value: string): Option<map<string, string>> {
    if IsBlank(value) then None else ParseLines(SplitLines(value), map[])
  }

  /** parseBindings; a null or rejected value throws. */
  method ParseBindings(value: Option<string>) returns (bindings: Option<map<string, string>>)
    ensures bindings == if value.None? then None else Parse(value.value)
  {
    if value.None? || IsBlank(value.value) { return None; }
    var lines := SplitLines(value.value);
    var result: map<string, string> := map[];
    for i := 0 to |lines|
      invariant ParseLines(lines, map[]) == ParseLines(lines[i..], result)
    {
      var parts := Split(Trim(lines[i]), '=');
      if |parts| != 2 || IsBlank(parts[0]) || IsBlank(parts[1]) { return None; }
      if parts[0] in result { return None; }
      result := result[parts[0] := parts[1]];
      assert lines[i..][1..] == lines[i + 1..];
    }
    return Some(result);
  }

  /** One printed binding per key, in this order, as the provisioning script writes them. */
  function PrintLines(m: map<string, string>, order: seq<string>): (lines: seq<string>)
    requires forall k :: k in order ==> k in m
    ensures |lines| == |order|
    ensures forall i :: 0 <= i < |order| ==> lines[i] == order[i] + "=" + m[order[i]]
  {
    if order == [] then [] else [order[0] + "=" + m[order[0]]] + PrintLines(m, order[1..])
  }

  predicate CleanEntry(key: string, value: string) {
    && !IsBlank(key) && !IsBlank(value)
    && '=' !in key && '=' !in value
    && BreakFree(key) && BreakFree(value)
    && key[0] > ' ' && value[|value| - 1] > ' '
  }

  predicate Clean(m: map<string, string>) {
    forall k :: k in m ==> CleanEntry(k, m[k])
  }

  lemma PrintedLineParses(key: string, value: string)
    requires CleanEntry(key, value)
    ensures ParseLine(key + "=" + value) == Some((key, value)) && BreakFree(key + "=" + value)
  {
    var line := key + "=" + value;
    assert line[0] == key[0] && line[|line| - 1] == value[|value| - 1];
    JoinOfTwo([key, value], '=');
    SplitOfJoin([key, value], '=');
  }

  lemma SidesAreClean(key: string, value: string, line: string)
    requires key != "" && value != "" && line == key + ['='] + value && BreakFree(line)
    ensures BreakFree(key) && BreakFree(value) && key[0] == line[0] && value[|value| - 1] == line[|line| - 1]
  {
    forall i | 0 <= i < |key| ensures !IsBreak(key[i]) { assert line[i] == key[i]; }
    forall i | 0 <= i < |value| ensures !IsBreak(value[i]) { assert line[|key| + 1 + i] == value[i]; }
  }

  lemma {:induction false} TrimFrontKeeps(s: string)
    requires BreakFree(s)
    ensures BreakFree(TrimFront(s))
  {
    if s != [] && s[0] <= ' ' { TrimFrontKeeps(s[1..]); }
  }

  lemma {:induction false} TrimBackKeeps(s: string)
    requires BreakFree(s)
    ensures BreakFree(TrimBack(s))
  {
    if s != [] && s[|s| - 1] <= ' ' { TrimBackKeeps(s[..|s| - 1]); }
  }

  lemma TrimKeepsBreakFree(s: string)
    requires BreakFree(s)
    ensures BreakFree(Trim(s))
  {
    TrimFrontKeeps(s);
    TrimBackKeeps(TrimFront(s));
  }

  lemma ParsedLineIsClean(line: string)
    requires BreakFree(line) && ParseLine(line).Some?
    ensures CleanEntry(ParseLine(line).value.0, ParseLine(line).value.1)
  {
    var t := Trim(line);
    var parts := Split(t, '=');
    TrimKeepsBreakFree(line);
    JoinOfTwo(parts, '=');
    SidesAreClean(parts[0], parts[1], t);
  }

  lemma {:induction false} ParsedIsClean(lines: seq<string>, result: map<string, string>)
    requires Clean(result) && forall i :: 0 <= i < |lines| ==> BreakFree(lines[i])
    requires ParseLines(lines, result).Some?
    ensures Clean(ParseLines(lines, result).value)
  {
    if lines != [] {
      ParsedLineIsClean(lines[0]);
      var entry := ParseLine(lines[0]).value;
      ParsedIsClean(lines[1..], result[entry.0 := entry.1]);
    }
  }

  function Only(m: map<string, string>, order: seq<string>): map<string, string> {
    map k | k in order && k in m :: m[k]
  }

  lemma OnlyStep(m: map<string, string>, order: seq<string>, result: map<string, string>)
    requires order != [] && Distinct(order) && forall k :: k in order ==> k in m && k !in result
    ensures Distinct(order[1..]) && forall k :: k in order[1..] ==> k in m && k !in result[order[0] := m[order[0]]]
    ensures result[order[0] := m[order[0]]] + Only(m, order[1..]) == result + Only(m, order)
  {
    assert order == [order[0]] + order[1..];
  }

  lemma {:induction false} PrintedLinesParse(m: map<string, string>, order: seq<string>, result: map<string, string>)
    requires Clean(m) && Distinct(order) && forall k :: k in order ==> k in m && k !in result
    ensures ParseLines(PrintLines(m, order), result) == Some(result + Only(m, order))
  {
    if order == [] {
      assert result + Only(m, order) == result;
    } else {
      PrintedLineParses(order[0], m[order[0]]);
      OnlyStep(m, order, result);
      PrintedLinesParse(m, order[1..], result[order[0] := m[order[0]]]);
    }
  }

  function PrintBindings(m: map<string, string>, order: seq<string>): string
    requires forall k :: k in order ==> k in m
  {
    Join(PrintLines(m, order), '\n')
  }

  lemma NonblankJoin(lines: seq<string>)
    requires lines != [] && !IsBlank(lines[0])
    ensures !IsBlank(Join(lines, '\n'))
  {
    var i :| 0 <= i < |lines[0]| && !IsJavaSpace(lines[0][i]);
    assert Join(lines, '\n')[i] == lines[0][i];
  }

  lemma CleanLines(m: map<string, string>, order: seq<string>)
    requires Clean(m) && forall k :: k in order ==> k in m
    ensures forall i :: 0 <= i < |order| ==> BreakFree(PrintLines(m, order)[i]) && !IsBlank(PrintLines(m, order)[i])
  {
    var lines := PrintLines(m, order);
    forall i | 0 <= i < |lines| ensures BreakFree(lines[i]) && !IsBlank(lines[i]) {
      PrintedLineParses(order[i], m[order[i]]);
      var j :| 0 <= j < |order[i]| && !IsJavaSpace(order[i][j]);
      assert lines[i][j] == order[i][j];
    }
  }

  lemma SplitLinesOfJoin(lines: seq<string>)
    requires lines != [] && forall i :: 0 <= i < |lines| ==> BreakFree(lines[i]) && !IsBlank(lines[i])
    ensures SplitLines(Join(lines, '\n')) == lines && !IsBlank(Join(lines, '\n'))
  {
    NonblankJoin(lines);
    RawLinesOfJoin(lines);
    assert !IsBlank(lines[|lines| - 1]);
  }

  lemma OnlyAll(m: map<string, string>, order: seq<string>)
    requires forall k :: k in m ==> k in order
    ensures map[] + Only(m, order) == m
  {
  }

  lemma CleanBindingsParseBack(m: map<string, string>, order: seq<string>)
    requires m != map[] && Clean(m) && Distinct(order) && forall k :: k in order <==> k in m
    ensures Parse(PrintBindings(m, order)) == Some(m)
  {
    CleanLines(m, order);
    assert order != [] by { var k :| k in m; assert k in order; }
    SplitLinesOfJoin(PrintLines(m, order));
    OnlyAll(m, order);
    PrintedLinesParse(m, order, map[]);
  }

  /** Parsing the printed bindings gives the original map back if and only if every entry is clean. */
  lemma BindingsRoundTrip(m: map<string, string>, order: seq<string>)
    requires m != map[] && Enumerates(order, m.Keys)
    ensures Parse(PrintBindings(m, order)) == Some(m) <==> Clean(m)
  {
    assert forall k :: k in order <==> k in (set x | x in order);
    if Clean(m) {
      CleanBindingsParseBack(m, order);
    }
    var text := PrintBindings(m, order);
    if Parse(text) == Some(m) {
      ParsedIsClean(SplitLines(text), map[]);
    }
  }

  // ---------------------------------------------------------------------------------------------
  // Derivation.

  const AGENT_ID := "agent_id"
  const AGENT_INSTANCE_ID := "agent_instance_id"
  const TRANSACTION_ID := "transaction_id"
  const TRANSACTION_PURPOSE := "transaction_purpose"
  const WORKLOAD_ID := "workload_id"
  const TRUSTED: set<string> := {AGENT_ID, AGENT_INSTANCE_ID, TRANSACTION_ID, TRANSACTION_PURPOSE}

  datatype Metadata = Metadata(bindings: map<string, string>, purpose: string)

  function Get(attributes: map<string, string>, name: string): Option<string> {
    if name in attributes then Some(attributes[name]) else None
  }

  /** required, with null as None. */
  predicate Given(value: Option<string>) {
    value.Some? && !IsBlank(value.value)
  }

  /** nextId's bound on what the supplier returns. */
  predicate UsableId(id: Option<string>) {
    Given(id) && Utf16Len(id.value) <= 200
  }

  function Overlay(agent: string, instance: string, transaction: string, purpose: string): map<string, string> {
    map[AGENT_ID := agent, AGENT_INSTANCE_ID := instance, TRANSACTION_ID := transaction, TRANSACTION_PURPOSE := purpose]
  }

  /** The derived attributes: the trusted four laid over the verified ones. */
  function Derived(metadata: Metadata, attributes: map<string, string>, instance: Option<string>,
      transaction: Option<string>): Option<map<string, string>> {
    if Given(Get(attributes, WORKLOAD_ID)) && attributes[WORKLOAD_ID] in metadata.bindings && UsableId(instance)
    && UsableId(transaction) then
      Some(attributes
          + Overlay(metadata.bindings[attributes[WORKLOAD_ID]], instance.value, transaction.value, metadata.purpose))
    else None
  }

  method Derive(metadata: Metadata, attributes: map<string, string>, instance: Option<string>,
      transaction: Option<string>)
      returns (result: Option<map<string, string>>)
    ensures result.Some? <==> Given(Get(attributes, WORKLOAD_ID)) && attributes[WORKLOAD_ID] in metadata.bindings
                              && UsableId(instance) && UsableId(transaction)
    ensures result.Some? ==> result.value.Keys == attributes.Keys + TRUSTED
    ensures result.Some? ==> forall k :: k in attributes && k !in TRUSTED ==> result.value[k] == attributes[k]
    ensures result.Some? ==> result.value[AGENT_ID] == metadata.bindings[attributes[WORKLOAD_ID]]
                             && result.value[AGENT_INSTANCE_ID] == instance.value
                             && result.value[TRANSACTION_ID] == transaction.value
                             && result.value[TRANSACTION_PURPOSE] == metadata.purpose
    ensures result == Derived(metadata, attributes, instance, transaction)
  {
    var actual := Get(attributes, WORKLOAD_ID);
    if !Given(actual) { return None; }
    var agent := Get(metadata.bindings, actual.value);
    if agent.None? { return None; }
    var m := attributes;
    m := m[AGENT_ID := agent.value];
    if !UsableId(instance) { return None; }
    m := m[AGENT_INSTANCE_ID := instance.value];
    if !UsableId(transaction) { return None; }
    m := m[TRANSACTION_ID := transaction.value];
    m := m[TRANSACTION_PURPOSE := metadata.purpose];
    assert m == attributes
        + Overlay(metadata.bindings[actual.value], instance.value, transaction.value, metadata.purpose);
    return Some(m);
  }

  /** Attributes that differ only in the four trusted names derive the same result: a caller cannot influence them. */
  lemma DerivationIgnoresTrustedNames(metadata: Metadata, a: map<string, string>, b: map<string, string>,
      instance: Option<string>, transaction: Option<string>)
    requires forall k :: k !in TRUSTED ==> Get(a, k) == Get(b, k)
    ensures Derived(metadata, a, instance, transaction) == Derived(metadata, b, instance, transaction)
  {
    assert WORKLOAD_ID !in TRUSTED;
    assert Get(a, WORKLOAD_ID) == Get(b, WORKLOAD_ID);
    forall k | k !in TRUSTED ensures (k in a <==> k in b) && (k in a ==> a[k] == b[k]) {
      assert Get(a, k) == Get(b, k);
    }
    if Derived(metadata, a, instance, transaction).Some? {
      var overlay := Overlay(metadata.bindings[a[WORKLOAD_ID]], instance.value, transaction.value, metadata.purpose);
      assert overlay.Keys == TRUSTED;
      assert a + overlay == b + overlay;
    }
  }
}
