/** The Txn-Token transport field: extraction, setting, header filtering between hops, and propagation. */
module Transport {
  import opened Text

  /** http.Header: field names, as keyed, to their values. */
  type Header = map<string, seq<string>>

  const TXN_TOKEN: string := "Txn-Token"
  const AUTHORIZATION: string := "Authorization"

  /** Simple case folding onto ASCII; the Kelvin sign and the long s are the only others that land there. */
  function Fold(c: char): char {
    if 'A' <= c <= 'Z' then c - 'A' + 'a'
    else if c as int == 0x212A then 'k'
    else if c as int == 0x17F then 's'
    else c
  }

  /** strings.EqualFold against an ASCII name. */
  predicate EqualFold(key: string, name: string) {
    |key| == |name| && forall i :: 0 <= i < |key| ==> Fold(key[i]) == Fold(name[i])
  }

  predicate IsTokenChar(c: char) {
    'a' <= c <= 'z' || 'A' <= c <= 'Z' || '0' <= c <= '9' || c in "!#$%&'*+-.^_`|~"
  }

  function CanonicalFrom(s: string, upper: bool): (r: string)
    ensures |r| == |s|
    ensures forall i :: 0 <= i < |s| ==> Fold(r[i]) == Fold(s[i])
  {
    if s == [] then []
    else
      var c := if upper && 'a' <= s[0] <= 'z' then s[0] - 'a' + 'A'
               else if !upper && 'A' <= s[0] <= 'Z' then s[0] - 'A' + 'a'
               else s[0];
      [c] + CanonicalFrom(s[1..], c == '-')
  }

  /** textproto.CanonicalMIMEHeaderKey. */
  function Canonical(key: string): string {
    if forall i :: 0 <= i < |key| ==> IsTokenChar(key[i]) then CanonicalFrom(key, true) else key
  }

  /** Canonicalisation never changes which names a key folds to, though folding identifies more keys. */
  lemma CanonicalKeepsFold(key: string, name: string)
    ensures EqualFold(Canonical(key), name) <==> EqualFold(key, name)
  {
    var c := Canonical(key);
    assert |c| == |key| && forall i :: 0 <= i < |key| ==> Fold(c[i]) == Fold(key[i]);
  }

  predicate CasedAt(s: string, upper: bool, i: nat)
    requires i < |s|
  {
    if (if i == 0 then upper else s[i - 1] == '-') then !('a' <= s[i] <= 'z') else !('A' <= s[i] <= 'Z')
  }

  /** Letters are upper case after a hyphen and at the start, lower case elsewhere. */
  predicate Cased(s: string, upper: bool) {
    forall i :: 0 <= i < |s| ==> CasedAt(s, upper, i)
  }

  lemma {:induction false} CasedIsFixed(s: string, upper: bool)
    requires Cased(s, upper)
    ensures CanonicalFrom(s, upper) == s
  {
    if s != [] {
      assert CasedAt(s, upper, 0);
      var rest, hyphen := s[1..], s[0] == '-';
      forall i | 0 <= i < |rest| ensures CasedAt(rest, hyphen, i) {
        assert CasedAt(s, upper, i + 1);
      }
      CasedIsFixed(rest, hyphen);
      assert s == [s[0]] + rest;
    }
  }

  lemma CanonicalNames()
    ensures Canonical(TXN_TOKEN) == TXN_TOKEN
  {
    assert TXN_TOKEN == ['T', 'x', 'n', '-', 'T', 'o', 'k', 'e', 'n'];
    CasedIsFixed(TXN_TOKEN, true);
  }

  lemma FoldingIsCoarser()
    ensures EqualFold("Txn-To\U{212A}en", TXN_TOKEN) && Canonical("Txn-To\U{212A}en") != Canonical(TXN_TOKEN)
  {
    var odd := "Txn-To\U{212A}en";
    assert !IsTokenChar(odd[6]);
    assert Canonical(odd) == odd && odd[6] != TXN_TOKEN[6];
    CanonicalNames();
  }

  predicate Present(h: Header, name: string) {
    exists k :: k in h && EqualFold(k, name)
  }

  // ---------------------------------------------------------------------------------------------
  // Compact serialisation (RFC 7515 section 7.1) as the transport accepts it.

  predicate IsBase64Url(c: char) {
    'A' <= c <= 'Z' || 'a' <= c <= 'z' || '0' <= c <= '9' || c == '-' || c == '_'
  }

  predicate IsSegment(s: string) {
    s != [] && forall i :: 0 <= i < |s| ==> IsBase64Url(s[i])
  }

  /** Three nonempty base64url segments separated by dots. */
  ghost predicate IsCompact(value: string) {
    exists a, b, c :: IsSegment(a) && IsSegment(b) && IsSegment(c) && value == a + "." + b + "." + c
  }

  function Count(s: string, c: char): nat {
    if s == [] then 0 else (if s[0] == c then 1 else 0) + Count(s[1..], c)
  }

  lemma {:induction false} SplitCount(s: string, c: char)
    ensures |Split(s, c)| == Count(s, c) + 1
  {
    if s != [] { SplitCount(s[1..], c); }
  }

  lemma JoinOfThree(parts: seq<string>)
    requires |parts| == 3
    ensures Join(parts, '.') == parts[0] + "." + parts[1] + "." + parts[2]
  {
    var tail := parts[1..];
    assert Join(tail[1..], '.') == parts[2];
    assert Join(tail, '.') == parts[1] + "." + parts[2];
    assert parts[0] + "." + (parts[1] + "." + parts[2]) == parts[0] + "." + parts[1] + "." + parts[2];
  }

  lemma CompactIsThreeSegments(value: string)
    ensures IsCompact(value) <==> var parts := Split(value, '.');
                                  |parts| == 3 && IsSegment(parts[0]) && IsSegment(parts[1]) && IsSegment(parts[2])
  {
    var parts := Split(value, '.');
    if |parts| == 3 {
      JoinOfThree(parts);
    }
    if IsCompact(value) {
      var a, b, c :| IsSegment(a) && IsSegment(b) && IsSegment(c) && value == a + "." + b + "." + c;
      JoinOfThree([a, b, c]);
      SplitOfJoin([a, b, c], '.');
    }
  }

  lemma CompactCharacters(value: string)
    requires IsCompact(value)
    ensures value != "" && forall i :: 0 <= i < |value| ==> IsBase64Url(value[i]) || value[i] == '.'
  {
    var a, b, c :| IsSegment(a) && IsSegment(b) && IsSegment(c) && value == a + "." + b + "." + c;
    forall i | 0 <= i < |value| ensures IsBase64Url(value[i]) || value[i] == '.' {
      if i < |a| { assert value[i] == a[i]; }
      else if |a| < i < |a| + 1 + |b| { assert value[i] == b[i - |a| - 1]; }
      else if i > |a| + 1 + |b| { assert value[i] == c[i - |a| - |b| - 2]; }
    }
  }

  lemma CompactCharacterIsSafe(c: char)
    requires IsBase64Url(c) || c == '.'
    ensures !IsSpace(c) && c !in " \t\r\n," && (c as int) < 0x80
  {
  }

  lemma CompactHasNoSeparators(value: string)
    requires IsCompact(value)
    ensures value != "" && Unpadded(value) && !ContainsAny(value, " \t\r\n,") && ByteLen(value) == |value|
  {
    CompactCharacters(value);
    forall i | 0 <= i < |value| ensures !IsSpace(value[i]) && value[i] !in " \t\r\n," && (value[i] as int) < 0x80 {
      CompactCharacterIsSafe(value[i]);
    }
    AsciiByteLen(value);
  }

  /** validCompactTransportValue. */
  method ValidCompactTransportValue(value: string, maximumBytes: int) returns (valid: bool)
    ensures valid <==> IsCompact(value) && ByteLen(value) <= maximumBytes
  {
    CompactIsThreeSegments(value);
    SplitCount(value, '.');
    TrimSpaceMeaning(value);
    if IsCompact(value) { CompactHasNoSeparators(value); }
    if value == "" || ByteLen(value) > maximumBytes || TrimSpace(value) != value || ContainsAny(value, " \t\r\n,")
       || Count(value, '.') != 2 {
      return false;
    }
    var parts := Split(value, '.');
    for p := 0 to |parts|
      invariant forall q :: 0 <= q < p ==> IsSegment(parts[q])
    {
      var part := parts[p];
      if part == "" { return false; }
      for i := 0 to |part|
        invariant forall j :: 0 <= j < i ==> IsBase64Url(part[j])
      {
        if !IsBase64Url(part[i]) { return false; }
      }
    }
    return true;
  }

  // ---------------------------------------------------------------------------------------------
  // Extraction and setting.

  /** A header map the handlers share and mutate. */
  class HeaderMap {
    var fields: Header

    constructor (fields: Header)
      ensures this.fields == fields
    {
      this.fields := fields;
    }
  }

  /** What a successful extraction yields. */
  ghost predicate Carries(h: Header, maximumBytes: int, raw: string) {
    && maximumBytes > 0 && !Present(h, AUTHORIZATION)
    && TXN_TOKEN in h && h[TXN_TOKEN] == [raw]
    && IsCompact(raw) && ByteLen(raw) <= maximumBytes
  }

  method HeaderPresent(header: HeaderMap, name: string) returns (present: bool)
    ensures present == Present(header.fields, name)
  {
    var keys := header.fields.Keys;
    while keys != {}
      invariant keys <= header.fields.Keys
      invariant forall k :: k in header.fields && k !in keys ==> !EqualFold(k, name)
    {
      var key :| key in keys;
      if EqualFold(key, name) { return true; }
      keys := keys - {key};
    }
    return false;
  }

  method ExtractTxnToken(header: HeaderMap?, maximumBytes: int) returns (token: Option<string>)
    ensures token.Some? ==> header != null && Carries(header.fields, maximumBytes, token.value)
    ensures token.None? ==> header == null || forall raw :: !Carries(header.fields, maximumBytes, raw)
  {
    if header == null || maximumBytes <= 0 { return None; }
    var credential := HeaderPresent(header, AUTHORIZATION);
    if credential { return None; }
    CanonicalNames();
    var values := if Canonical(TXN_TOKEN) in header.fields then header.fields[Canonical(TXN_TOKEN)] else [];
    if |values| != 1 { return None; }
    var valid := ValidCompactTransportValue(values[0], maximumBytes);
    if !valid { return None; }
    return Some(values[0]);
  }

  /** When setting succeeds. */
  ghost predicate Settable(h: Header, raw: string, maximumBytes: int) {
    maximumBytes > 0 && !Present(h, AUTHORIZATION) && !Present(h, TXN_TOKEN) && IsCompact(raw)
    && ByteLen(raw) <= maximumBytes
  }

  method SetTxnToken(header: HeaderMap?, raw: string, maximumBytes: int) returns (ok: bool)
    modifies header
    ensures ok <==> header != null && Settable(old(header.fields), raw, maximumBytes)
    ensures header != null ==>
              header.fields == if ok then old(header.fields)[TXN_TOKEN := [raw]] else old(header.fields)
  {
    if header == null || maximumBytes <= 0 { return false; }
    var credential := HeaderPresent(header, AUTHORIZATION);
    var token := HeaderPresent(header, TXN_TOKEN);
    var valid := ValidCompactTransportValue(raw, maximumBytes);
    if credential || token || !valid { return false; }
    CanonicalNames();
    header.fields := header.fields[Canonical(TXN_TOKEN) := [raw]];
    return true;
  }

  /** Setting and extracting are inverse: what was set is what the next extraction reads. */
  lemma SetThenExtract(h: Header, raw: string, maximumBytes: int)
    requires Settable(h, raw, maximumBytes)
    ensures Carries(h[TXN_TOKEN := [raw]], maximumBytes, raw)
  {
    var g := h[TXN_TOKEN := [raw]];
    forall k | k in g ensures !EqualFold(k, AUTHORIZATION) {
      assert k != TXN_TOKEN ==> k in h;
    }
  }

  // ---------------------------------------------------------------------------------------------
  // Filtering headers between hops.

  /** copyHeaders drops these from a response, copyStrictHeaders two more from a request. */
  const HOP_FIELDS: set<string> := {"Connection", "Proxy-Authorization"}
  const STRICT_FIELDS: set<string> := {"Connection", "Proxy-Authorization", AUTHORIZATION, TXN_TOKEN}

  predicate Stripped(key: string, names: set<string>) {
    exists name :: name in names && EqualFold(key, name)
  }

  /** Adding a list of values one by one. */
  function AddAll(h: Header, key: string, values: seq<string>): Header {
    if values == [] then h
    else h[Canonical(key) := (if Canonical(key) in h then h[Canonical(key)] else []) + values]
  }

  lemma AddAllStep(h: Header, key: string, values: seq<string>, value: string)
    ensures var before := AddAll(h, key, values);
            AddAll(h, key, values + [value])
            == before[Canonical(key) := (if Canonical(key) in before then before[Canonical(key)] else []) + [value]]
  {
    var sofar := if Canonical(key) in h then h[Canonical(key)] else [];
    assert sofar + (values + [value]) == sofar + values + [value];
    if values == [] {
      assert sofar + values == sofar;
    } else {
      var once, twice := sofar + values, sofar + values + [value];
      assert h[Canonical(key) := once][Canonical(key) := twice] == h[Canonical(key) := twice];
    }
  }

  method AddEach(dst: HeaderMap, key: string, values: seq<string>)
    modifies dst
    ensures dst.fields == AddAll(old(dst.fields), key, values)
  {
    for i := 0 to |values|
      invariant dst.fields == AddAll(old(dst.fields), key, values[..i])
    {
      var sofar := if Canonical(key) in dst.fields then dst.fields[Canonical(key)] else [];
      dst.fields := dst.fields[Canonical(key) := sofar + [values[i]]];
      assert values[..i + 1] == values[..i] + [values[i]];
      AddAllStep(old(dst.fields), key, values[..i], values[i]);
    }
    assert values[..|values|] == values;
  }

  /** The copy when the source's keys are visited in this order; Go's map iteration may choose any. */
  function CopyInOrder(dst: Header, src: Header, order: seq<string>, names: set<string>): Header {
    if order == [] then dst
    else
      var key := order[|order| - 1];
      var before := CopyInOrder(dst, src, order[..|order| - 1], names);
      if key !in src || Stripped(key, names) then before else AddAll(before, key, src[key])
  }

  /** copyStrictHeaders and copyHeaders, by the names they skip. */
  method CopyHeaders(dst: HeaderMap, src: HeaderMap, names: set<string>) returns (ghost order: seq<string>)
    requires dst != src
    modifies dst
    ensures Enumerates(order, src.fields.Keys) && dst.fields == CopyInOrder(old(dst.fields), src.fields, order, names)
  {
    order := [];
    var keys := src.fields.Keys;
    while keys != {}
      invariant Distinct(order) && keys + (set k | k in order) == src.fields.Keys
                && forall k :: k in order ==> k !in keys
      invariant dst.fields == CopyInOrder(old(dst.fields), src.fields, order, names)
    {
      var key :| key in keys;
      keys := keys - {key};
      ghost var visited := order + [key];
      assert visited[..|order|] == order;
      if !Stripped(key, names) {
        AddEach(dst, key, src.fields[key]);
      }
      order := visited;
    }
  }

  /** Nothing that could be taken for a stripped field survives the copy, under any spelling. */
  lemma {:induction false} CopyStrips(src: Header, order: seq<string>, names: set<string>, name: string)
    requires name in names
    ensures !Present(CopyInOrder(map[], src, order, names), name)
  {
    if order != [] {
      var key := order[|order| - 1];
      CopyStrips(src, order[..|order| - 1], names, name);
      CanonicalKeepsFold(key, name);
    }
  }

  /** Keys as net/http's server delivers them: canonical, with at least one value. */
  predicate IsCanonical(h: Header) {
    forall k :: k in h ==> Canonical(k) == k && h[k] != []
  }

  lemma {:induction false} CopyOfPrefix(src: Header, order: seq<string>, names: set<string>)
    requires IsCanonical(src) && Distinct(order)
    ensures var dst := CopyInOrder(map[], src, order, names);
            forall k :: (k in dst <==> k in order && k in src && !Stripped(k, names)) && (k in dst ==> dst[k] == src[k])
  {
    if order != [] {
      var front, key := order[..|order| - 1], order[|order| - 1];
      CopyOfPrefix(src, front, names);
      assert order == front + [key];
      assert key !in front;
    }
  }

  /** On canonical headers the copy is exactly the source without the stripped fields, whatever the order. */
  lemma CopyIsExactOnCanonical(src: Header, order: seq<string>, names: set<string>)
    requires IsCanonical(src) && Enumerates(order, src.Keys)
    ensures CopyInOrder(map[], src, order, names) == map k | k in src && !Stripped(k, names) :: src[k]
  {
    CopyOfPrefix(src, order, names);
    assert forall k :: k in order <==> k in src;
  }

  // ---------------------------------------------------------------------------------------------
  // Hops.

  ghost predicate Forwards(received: Header, raw: string, order: seq<string>, sent: Header, maximumBytes: int) {
    && Carries(received, maximumBytes, raw) && Enumerates(order, received.Keys)
    && sent == CopyInOrder(map[], received, order, STRICT_FIELDS)[TXN_TOKEN := [raw]]
  }

  /** One strict hop: extract, filter, set, and deliver. The transport below may add or drop other fields
      but neither an Authorization field nor the token. */
  ghost predicate Hop(received: Header, next: Header, maximumBytes: int) {
    exists raw, order, sent :: Forwards(received, raw, order, sent, maximumBytes)
      && TXN_TOKEN in next && next[TXN_TOKEN] == sent[TXN_TOKEN] && !Present(next, AUTHORIZATION)
  }

  /** After filtering, propagating a token the middleware accepted can only fail on a smaller byte bound:
      with one bound the gateway's failure branch cannot be taken. */
  lemma FilteredHeaderIsSettable(received: Header, raw: string, order: seq<string>, accepted: int, bound: int)
    requires Carries(received, accepted, raw)
    ensures Settable(CopyInOrder(map[], received, order, STRICT_FIELDS), raw, bound) <==> ByteLen(raw) <= bound
  {
    CopyStrips(received, order, STRICT_FIELDS, AUTHORIZATION);
    CopyStrips(received, order, STRICT_FIELDS, TXN_TOKEN);
    CompactCharacters(raw);
  }

  lemma HopKeepsToken(received: Header, next: Header, raw: string, maximumBytes: int)
    requires Carries(received, maximumBytes, raw) && Hop(received, next, maximumBytes)
    ensures Carries(next, maximumBytes, raw)
  {
  }

  /** Over any number of hops under one byte bound, the token arrives byte for byte. */
  lemma {:induction false} HopsKeepToken(path: seq<Header>, raw: string, maximumBytes: int)
    requires path != [] && Carries(path[0], maximumBytes, raw)
    requires forall i :: 0 <= i < |path| - 1 ==> Hop(path[i], path[i + 1], maximumBytes)
    ensures Carries(path[|path| - 1], maximumBytes, raw)
  {
    if |path| > 1 {
      HopsKeepToken(path[..|path| - 1], raw, maximumBytes);
      HopKeepsToken(path[|path| - 2], path[|path| - 1], raw, maximumBytes);
    }
  }

  // ---------------------------------------------------------------------------------------------
  // PropagateVerifiedTxnToken.

  datatype SignedRoute = SignedRoute(target: string, tool: string)

  /** What the strict middleware leaves in a request's context. */
  datatype Verified = Verified(route: Option<SignedRoute>, raw: Option<string>)

  /** VerifiedSignedRoute. */
  function VerifiedRoute(context: Verified): (r: Option<SignedRoute>)
    ensures r.Some? <==> context.route.Some? && context.route.value.target != "" && context.route.value.tool != ""
    ensures r.Some? ==> r == context.route
  {
    if context.route.Some? && context.route.value.target != "" && context.route.value.tool != "" then context.route
    else None
  }

  class Request {
    var header: HeaderMap?

    constructor (header: HeaderMap?)
      ensures this.header == header
    {
      this.header := header;
    }
  }

  /** Sets the verified token, or leaves every header field as it was. */
  method PropagateVerifiedTxnToken(context: Verified, request: Request?, maximumBytes: int) returns (ok: bool)
    modifies request, if request == null then null else request.header
    ensures ok <==> request != null && old(request.header) != null && maximumBytes > 0
                    && VerifiedRoute(context).Some? && context.raw.Some?
                    && Settable(old(request.header.fields), context.raw.value, maximumBytes)
    ensures ok ==>
              request.header == old(request.header)
              && request.header.fields == old(request.header.fields)[TXN_TOKEN := [context.raw.value]]
    ensures !ok && request != null && old(request.header) != null ==>
              request.header != null && request.header.fields == old(request.header.fields)
  {
    if request == null || request.header == null || maximumBytes <= 0 { return false; }
    if VerifiedRoute(context).None? || context.raw.None? { return false; }
    var before := new HeaderMap(request.header.fields);
    ok := SetTxnToken(request.header, context.raw.value, maximumBytes);
    if !ok {
      request.header := before;
    }
  }
}
