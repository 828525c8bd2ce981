/**
 The CBOR items of the link profile, their shortest-form encoding with map entries in
 the order of arrival, and what the canonical walker accepts. `CborOrder` adds the
 order of map entries that section 4.2.1 of RFC 8949 asks for.
 */
module Cbor {
  import opened Bytes
  import opened Options
  import opened Utf8

  const MAXIMUM_DEPTH: nat := 4
  const MAXIMUM_ARRAY_ITEMS: nat := 32
  const MAXIMUM_MAP_ENTRIES: nat := 16
  const MAXIMUM_PAYLOAD_BYTES: nat := 500

  type Octets4 = s: seq<byte> | |s| == 4 witness [0, 0, 0, 0]
  type Octets8 = s: seq<byte> | |s| == 8 witness [0, 0, 0, 0, 0, 0, 0, 0]

  /** `Negative(n)` is the integer -1 - n; floats are their octets. */
  datatype Item =
    | False | True
    | Single(single: Octets4)
    | Double(double: Octets8)
    | Unsigned(n: nat)
    | Negative(n: nat)
    | Bytes(b: seq<byte>)
    | Text(b: seq<byte>)
    | Array(items: seq<Item>)
    | Map(entries: seq<Entry>)

  datatype Entry = Entry(key: Item, value: Item)

  /** The head `encode` writes: the shortest form of a major type and its argument. */
  function Head(major: nat, value: nat): seq<byte>
    requires major < 8 && value < TWO_64
  {
    if value < 24 then [major * 32 + value]
    else if value <= 0xFF then [major * 32 + 24] + BigEndian(value, 1)
    else if value <= 0xFFFF then [major * 32 + 25] + BigEndian(value, 2)
    else if value <= 0xFFFF_FFFF then [major * 32 + 26] + BigEndian(value, 4)
    else [major * 32 + 27] + BigEndian(value, 8)
  }

  /** The numbers and lengths of an item fit the 64-bit arguments of the format. */
  predicate Encodable(v: Item)
    decreases v, 1
  {
    match v
    case Unsigned(n) => n < TWO_64
    case Negative(n) => n < TWO_64
    case Bytes(b) => |b| < TWO_64
    case Text(b) => |b| < TWO_64
    case Array(items) => |items| < TWO_64 && AllEncodable(items)
    case Map(entries) => |entries| < TWO_64 && EntriesEncodable(entries)
    case _ => true
  }

  predicate AllEncodable(items: seq<Item>)
    decreases items, 0
  {
    items == [] || (Encodable(items[0]) && AllEncodable(items[1..]))
  }

  predicate EntriesEncodable(entries: seq<Entry>)
    decreases entries, 0
  {
    if entries == [] then true
    else
      EntryEncodable(entries[0]) && EntriesEncodable(entries[1..])
  }

  predicate EntryEncodable(e: Entry)
    decreases e, 2
  {
    Encodable(e.key) && Encodable(e.value)
  }

  function Encode(v: Item): seq<byte>
    requires Encodable(v)
    decreases v, 1
  {
    match v
    case False => [0xF4]
    case True => [0xF5]
    case Single(bits) => [0xFA] + bits
    case Double(bits) => [0xFB] + bits
    case Unsigned(n) => Head(0, n)
    case Negative(n) => Head(1, n)
    case Bytes(b) => Head(2, |b|) + b
    case Text(b) => Head(3, |b|) + b
    case Array(items) => Head(4, |items|) + EncodeAll(items)
    case Map(entries) => Head(5, |entries|) + EncodeEntries(entries)
  }

  function EncodeAll(items: seq<Item>): seq<byte>
    requires AllEncodable(items)
    decreases items, 0
  {
    if items == [] then [] else Encode(items[0]) + EncodeAll(items[1..])
  }

  function EncodeEntries(entries: seq<Entry>): seq<byte>
    requires EntriesEncodable(entries)
    decreases entries, 0
  {
    if entries == [] then []
    else
      EncodeEntry(entries[0]) + EncodeEntries(entries[1..])
  }

  function EncodeEntry(e: Entry): seq<byte>
    requires EntryEncodable(e)
    decreases e, 2
  {
    Encode(e.key) + Encode(e.value)
  }

  lemma EncodeNotEmpty(v: Item)
    requires Encodable(v)
    ensures Encode(v) != []
  {}

  // ---- The profile ----

  /** The restrictions of the link profile on an item at nesting depth `depth`. */
  ghost predicate Within(v: Item, depth: nat)
    decreases v, 1
  {
    && Encodable(v)
    && match v
       case Text(b) => IsText(b)
       case Array(items) => depth < MAXIMUM_DEPTH && |items| <= MAXIMUM_ARRAY_ITEMS && AllWithin(items, depth + 1)
       case Map(entries) =>
         depth < MAXIMUM_DEPTH && |entries| <= MAXIMUM_MAP_ENTRIES && EntriesWithin(entries, depth + 1, [])
       case _ => true
  }

  ghost predicate AllWithin(items: seq<Item>, depth: nat)
    decreases items, 0
  {
    items == [] || (Within(items[0], depth) && AllWithin(items[1..], depth))
  }

  /** No key is encoded like an earlier one of the map or like one of `seen`. */
  ghost predicate EntriesWithin(entries: seq<Entry>, depth: nat, seen: seq<seq<byte>>)
    decreases entries, 0
  {
    if entries == [] then true
    else
      && EntryWithin(entries[0], depth)
      && EntryEncodable(entries[0])
      && Encode(entries[0].key) !in seen
      && EntriesWithin(entries[1..], depth, seen + [Encode(entries[0].key)])
  }

  ghost predicate EntryWithin(e: Entry, depth: nat)
    decreases e, 2
  {
    Within(e.key, depth) && Within(e.value, depth)
  }

  // ---- The walker as a decoder ----

  /** How many octets hold the argument. */
  function Width(additional: nat): nat
    requires 24 <= additional <= 27
  {
    if additional == 24 then 1 else if additional == 25 then 2 else if additional == 26 then 4 else 8
  }

  /** The least argument that needs so many octets. */
  function Smallest(additional: nat): nat
    requires 24 <= additional <= 27
  {
    if additional == 24 then 24 else if additional == 25 then 256 else if additional == 26 then 65536 else TWO_32
  }

  /** The argument of an initial octet, and how many octets follow it. */
  function Argument(s: seq<byte>, additional: nat): Option<(nat, nat)> {
    if additional < 24 then Some((additional, 0))
    else if additional > 27 then None
    else
      var width := Width(additional);
      if |s| < width then None
      else
        var value := FromBigEndian(s[..width]);
        if value >= Smallest(additional) then Some((value, width)) else None
  }

  /** The item at the front of `s` and its length, if the walker gets over it. */
  ghost function Parse(s: seq<byte>, depth: nat): (r: Option<(Item, nat)>)
    requires depth <= MAXIMUM_DEPTH
    ensures r.Some? ==> 0 < r.value.1 <= |s|
    decreases MAXIMUM_DEPTH - depth, 0
  {
    if s == [] then None
    else
      var major: nat, additional: nat := s[0] / 32, s[0] % 32;
      if major == 6 || additional == 31 then None
      else if major == 7 then
        if additional == 20 then Some((False, 1))
        else if additional == 21 then Some((True, 1))
        else if additional == 26 && |s| >= 5 then Some((Single(s[1..5]), 5))
        else if additional == 27 && |s| >= 9 then Some((Double(s[1..9]), 9))
        else None
      else
        var a := Argument(s[1..], additional);
        if a.None? then None
        else ParseBody(s, depth, major, a.value.0, 1 + a.value.1)
  }

  ghost function ParseBody(s: seq<byte>, depth: nat, major: nat, argument: nat, start: nat): (r: Option<(Item, nat)>)
    requires depth <= MAXIMUM_DEPTH && major < 6 && 0 < start
    ensures r.Some? ==> 0 < r.value.1 && (start <= |s| ==> r.value.1 <= |s|)
    decreases MAXIMUM_DEPTH - depth, 0, 0
  {
    if start > |s| then None
    else if major == 0 then Some((Unsigned(argument), start))
    else if major == 1 then Some((Negative(argument), start))
    else if major <= 3 then
      if argument > |s| - start then None
      else
        var body := s[start..start + argument];
        if major == 2 then Some((Bytes(body), start + argument))
        else if IsText(body) then Some((Text(body), start + argument))
        else None
    else if depth >= MAXIMUM_DEPTH then None
    else if major == 4 then
      if argument > MAXIMUM_ARRAY_ITEMS then None
      else
        var r := ParseAll(s[start..], depth + 1, argument);
        if r.None? then None else Some((Array(r.value.0), start + r.value.1))
    else if argument > MAXIMUM_MAP_ENTRIES then None
    else
      var r := ParseEntries(s[start..], depth + 1, argument, []);
      if r.None? then None else Some((Map(r.value.0), start + r.value.1))
  }

  ghost function ParseAll(s: seq<byte>, depth: nat, n: nat): (r: Option<(seq<Item>, nat)>)
    requires depth <= MAXIMUM_DEPTH
    ensures r.Some? ==> r.value.1 <= |s| && |r.value.0| == n
    decreases MAXIMUM_DEPTH - depth, 1, n
  {
    if n == 0 then Some(([], 0))
    else
      var first := Parse(s, depth);
      if first.None? then None
      else
        var rest := ParseAll(s[first.value.1..], depth, n - 1);
        if rest.None? then None else Some(([first.value.0] + rest.value.0, first.value.1 + rest.value.1))
  }

  /** A key and its value, with the lengths of the key and of both. */
  datatype KeyValue = KeyValue(entry: Entry, keyLength: nat, length: nat)

  ghost function ParseEntry(s: seq<byte>, depth: nat): (r: Option<KeyValue>)
    requires depth <= MAXIMUM_DEPTH
    ensures r.Some? ==> 0 < r.value.keyLength < r.value.length <= |s|
    decreases MAXIMUM_DEPTH - depth, 1
  {
    var key := Parse(s, depth);
    if key.None? then None
    else
      var value := Parse(s[key.value.1..], depth);
      if value.None? then None
      else Some(KeyValue(Entry(key.value.0, value.value.0), key.value.1, key.value.1 + value.value.1))
  }

  ghost function ParseEntries(s: seq<byte>, depth: nat, n: nat, seen: seq<seq<byte>>): (r: Option<(seq<Entry>, nat)>)
    requires depth <= MAXIMUM_DEPTH
    ensures r.Some? ==> r.value.1 <= |s| && |r.value.0| == n
    decreases MAXIMUM_DEPTH - depth, 2, n
  {
    if n == 0 then Some(([], 0))
    else
      var first := ParseEntry(s, depth);
      if first.None? || s[..first.value.keyLength] in seen then None
      else
        var rest := ParseEntries(s[first.value.length..], depth, n - 1, seen + [s[..first.value.keyLength]]);
        if rest.None? then None
        else Some(([first.value.entry] + rest.value.0, first.value.length + rest.value.1))
  }

  // ---- The walker accepts exactly the encodings ----

  lemma HeadLength(major: nat, value: nat)
    requires major < 8 && value < TWO_64
    ensures 0 < |Head(major, value)| <= 9
  {}

  lemma ArgumentOfBody(value: nat, additional: nat, t: seq<byte>)
    requires 24 <= additional <= 27
    requires Smallest(additional) <= value < Pow256(Width(additional))
    ensures Argument(BigEndian(value, Width(additional)) + t, additional) == Some((value, Width(additional)))
  {
    var width := Width(additional);
    BigEndianRoundTrip(value, width);
    assert (BigEndian(value, width) + t)[..width] == BigEndian(value, width);
  }

  /** The argument of a shortest-form head is read back, whatever follows. */
  lemma ArgumentOfHead(major: nat, value: nat, t: seq<byte>)
    requires major < 8 && value < TWO_64
    ensures var s := Head(major, value) + t;
            var major': nat, additional: nat := s[0] / 32, s[0] % 32;
            && major' == major && additional != 31
            && Argument(s[1..], additional) == Some((value, |Head(major, value)| - 1))
  {
    hide Pow256, BigEndian;
    var h := Head(major, value);
    Powers();
    if value >= 24 {
      hide Argument;
      var additional := if value <= 0xFF then 24 else if value <= 0xFFFF then 25 else if value <= 0xFFFF_FFFF then 26 else 27;
      ArgumentOfBody(value, additional, t);
      assert h == [major * 32 + additional] + BigEndian(value, Width(additional));
      assert (h + t)[1..] == BigEndian(value, Width(additional)) + t;
    }
  }

  /** An accepted argument stands in its shortest form. */
  lemma HeadOfArgument(s: seq<byte>)
    requires s != [] && s[0] / 32 < 7
    requires var additional: nat := s[0] % 32; Argument(s[1..], additional).Some?
    ensures var major: nat, additional: nat := s[0] / 32, s[0] % 32;
            var a := Argument(s[1..], additional).value;
            a.0 < TWO_64 && 1 + a.1 <= |s| && Head(major, a.0) == s[..1 + a.1]
  {
    var additional: nat := s[0] % 32;
    var a := Argument(s[1..], additional).value;
    Powers();
    if additional >= 24 {
      var body := s[1..][..a.1];
      FromBigEndianBound(body);
      FromBigEndianRoundTrip(body);
      assert s[..1 + a.1] == [s[0]] + body;
    } else {
      assert s[..1] == [s[0]];
    }
  }

  /** The walker gets over the encoding of any item of the profile, whatever follows it. */
  lemma {:induction false} ParseEncode(v: Item, depth: nat, t: seq<byte>)
    requires depth <= MAXIMUM_DEPTH && Within(v, depth)
    ensures Parse(Encode(v) + t, depth) == Some((v, |Encode(v)|))
    decreases v, 1
  {
    hide Parse, ParseBody, Head, Argument, IsText;
    match v
    case Unsigned(n) => ParseNumber(0, n, depth, t);
    case Negative(n) => ParseNumber(1, n, depth, t);
    case Bytes(b) => ParseString(2, b, depth, t);
    case Text(b) => ParseString(3, b, depth, t);
    case Array(items) =>
      HeadLength(4, |items|);
      ParseAllEncode(items, depth + 1, t);
      ParseArray(items, depth, t);
    case Map(entries) =>
      HeadLength(5, |entries|);
      ParseEntriesEncode(entries, depth + 1, [], t);
      ParseMap(entries, depth, t);
    case _ => ParseSimple(v, depth, t);
  }

  lemma ParseSimple(v: Item, depth: nat, t: seq<byte>)
    requires depth <= MAXIMUM_DEPTH && Within(v, depth)
    requires v.False? || v.True? || v.Single? || v.Double?
    ensures Parse(Encode(v) + t, depth) == Some((v, |Encode(v)|))
  {
    hide ParseBody, Argument;
    var s := Encode(v) + t;
    if v.Single? {
      assert s[1..5] == v.single;
    } else if v.Double? {
      assert s[1..9] == v.double;
    }
  }

  lemma ParseNumber(major: nat, n: nat, depth: nat, t: seq<byte>)
    requires depth <= MAXIMUM_DEPTH && major < 2 && n < TWO_64
    ensures Parse(Head(major, n) + t, depth) == Some((if major == 0 then Unsigned(n) else Negative(n), |Head(major, n)|))
  {
    hide Head, Argument;
    HeadLength(major, n);
    ArgumentOfHead(major, n, t);
  }

  lemma ParseArray(items: seq<Item>, depth: nat, t: seq<byte>)
    requires depth < MAXIMUM_DEPTH && |items| <= MAXIMUM_ARRAY_ITEMS && AllEncodable(items)
    requires ParseAll(EncodeAll(items) + t, depth + 1, |items|) == Some((items, |EncodeAll(items)|))
    ensures var e := Head(4, |items|) + EncodeAll(items);
            Parse(e + t, depth) == Some((Array(items), |e|))
  {
    hide Head, Argument, ParseAll, EncodeAll;
    HeadLength(4, |items|);
    ParseContainer(4, |items|, EncodeAll(items), t);
  }

  lemma ParseMap(entries: seq<Entry>, depth: nat, t: seq<byte>)
    requires depth < MAXIMUM_DEPTH && |entries| <= MAXIMUM_MAP_ENTRIES && EntriesEncodable(entries)
    requires ParseEntries(EncodeEntries(entries) + t, depth + 1, |entries|, []) == Some((entries, |EncodeEntries(entries)|))
    ensures var e := Head(5, |entries|) + EncodeEntries(entries);
            Parse(e + t, depth) == Some((Map(entries), |e|))
  {
    hide Head, Argument, ParseEntries, EncodeEntries;
    HeadLength(5, |entries|);
    ParseContainer(5, |entries|, EncodeEntries(entries), t);
  }

  /** The head and the content of a container are where the walker looks for them. */
  lemma ParseContainer(major: nat, n: nat, content: seq<byte>, t: seq<byte>)
    requires major < 6 && n < TWO_64
    ensures var h := Head(major, n);
            var s := h + content + t;
            var major': nat, additional: nat := s[0] / 32, s[0] % 32;
            && s != [] && major' == major && additional != 31
            && Argument(s[1..], additional) == Some((n, |h| - 1))
            && s[|h|..] == content + t
  {
    hide Head, Argument;
    var h := Head(major, n);
    assert h + content + t == h + (content + t);
    ArgumentOfHead(major, n, content + t);
    HeadLength(major, n);
  }

  lemma ParseString(major: nat, b: seq<byte>, depth: nat, t: seq<byte>)
    requires depth <= MAXIMUM_DEPTH && (major == 2 || major == 3) && |b| < TWO_64
    requires major == 3 ==> IsText(b)
    ensures var e := Head(major, |b|) + b;
            Parse(e + t, depth) == Some((if major == 2 then Bytes(b) else Text(b), |e|))
  {
    hide Head, Argument, IsText;
    var h := Head(major, |b|);
    HeadLength(major, |b|);
    ParseContainer(major, |b|, b, t);
    assert (h + b + t)[|h|..|h| + |b|] == b;
  }

  lemma {:induction false} ParseAllEncode(items: seq<Item>, depth: nat, t: seq<byte>)
    requires depth <= MAXIMUM_DEPTH && AllWithin(items, depth) && AllEncodable(items)
    ensures ParseAll(EncodeAll(items) + t, depth, |items|) == Some((items, |EncodeAll(items)|))
    decreases items, 0
  {
    hide Head, Argument, IsText, Parse, Within, Encode;
    if items != [] {
      var first, rest := Encode(items[0]), EncodeAll(items[1..]);
      ParseEncode(items[0], depth, rest + t);
      ParseAllEncode(items[1..], depth, t);
      assert EncodeAll(items) + t == first + (rest + t);
      assert (EncodeAll(items) + t)[|first|..] == rest + t;
      assert [items[0]] + items[1..] == items;
    }
  }

  lemma {:induction false} ParseEntriesEncode(entries: seq<Entry>, depth: nat, seen: seq<seq<byte>>, t: seq<byte>)
    requires depth <= MAXIMUM_DEPTH && EntriesWithin(entries, depth, seen) && EntriesEncodable(entries)
    ensures ParseEntries(EncodeEntries(entries) + t, depth, |entries|, seen)
            == Some((entries, |EncodeEntries(entries)|))
    decreases entries, 0
  {
    hide Head, Argument, IsText, Parse, ParseEntry, Within, Encode, EncodeEntries, EncodeEntry;
    EncodeNoEntries();
    if entries != [] {
      var e := entries[0];
      var rest := EncodeEntries(entries[1..]) + t;
      ParseEntryEncode(e, depth, rest);
      ParseEntriesEncode(entries[1..], depth, seen + [Encode(e.key)], t);
      FirstEntry(entries, t);
      Slices(Encode(e.key), Encode(e.value), rest);
      assert [e] + entries[1..] == entries;
    }
  }

  lemma EncodeNoEntries()
    ensures EncodeEntries([]) == []
  {}

  lemma FirstEntry(entries: seq<Entry>, t: seq<byte>)
    requires entries != [] && EntriesEncodable(entries) && EntryEncodable(entries[0])
    ensures var e := entries[0];
            && EncodeEntries(entries) + t == Encode(e.key) + Encode(e.value) + (EncodeEntries(entries[1..]) + t)
            && |EncodeEntries(entries)| == |Encode(e.key)| + |Encode(e.value)| + |EncodeEntries(entries[1..])|
  {
    hide Encode;
    assert EncodeEntry(entries[0]) == Encode(entries[0].key) + Encode(entries[0].value);
  }

  lemma Slices(a: seq<byte>, b: seq<byte>, c: seq<byte>)
    ensures var s := a + b + c;
            s == a + (b + c) && s[..|a|] == a && s[|a|..] == b + c && s[|a| + |b|..] == c
  {}

  lemma {:induction false} ParseEntryEncode(e: Entry, depth: nat, t: seq<byte>)
    requires depth <= MAXIMUM_DEPTH && EntryWithin(e, depth) && EntryEncodable(e)
    ensures var k, l := |Encode(e.key)|, |Encode(e.value)|;
            ParseEntry(Encode(e.key) + Encode(e.value) + t, depth) == Some(KeyValue(e, k, k + l))
    decreases e, 2
  {
    hide Parse, Within, Encode;
    ParseEncode(e.key, depth, Encode(e.value) + t);
    ParseEncode(e.value, depth, t);
    Slices(Encode(e.key), Encode(e.value), t);
  }

  /** What the walker gets over is the encoding of an item of the profile. */
  lemma {:induction false} ParseSound(s: seq<byte>, depth: nat)
    requires depth <= MAXIMUM_DEPTH && Parse(s, depth).Some?
    ensures var (v, n) := Parse(s, depth).value;
            Within(v, depth) && Encode(v) == s[..n]
    decreases MAXIMUM_DEPTH - depth, 0
  {
    hide Head, Argument, IsText;
    var major: nat, additional: nat := s[0] / 32, s[0] % 32;
    if major == 7 {
      Initial(s);
      if additional == 26 {
        assert [s[0]] + s[1..5] == s[..5];
      } else if additional == 27 {
        assert [s[0]] + s[1..9] == s[..9];
      }
    } else {
      var a := Argument(s[1..], additional).value;
      HeadOfArgument(s);
      ParseBodySound(s, depth, major, a.0, 1 + a.1);
    }
  }

  lemma Initial(s: seq<byte>)
    requires s != []
    ensures s[0] / 32 * 32 + s[0] % 32 == s[0] && s[..1] == [s[0]]
  {}

  lemma {:induction false} ParseBodySound(s: seq<byte>, depth: nat, major: nat, argument: nat, start: nat)
    requires depth <= MAXIMUM_DEPTH && major < 6 && 0 < start <= |s| && argument < TWO_64
    requires Head(major, argument) == s[..start]
    requires ParseBody(s, depth, major, argument, start).Some?
    ensures var (v, n) := ParseBody(s, depth, major, argument, start).value;
            Within(v, depth) && Encode(v) == s[..n]
    decreases MAXIMUM_DEPTH - depth, 0, 0
  {
    hide Head, Argument, IsText, Parse, ParseAll, ParseEntries;
    var (v, n) := ParseBody(s, depth, major, argument, start).value;
    assert s[..n] == s[..start] + s[start..n];
    if major == 4 {
      ParseAllSound(s[start..], depth + 1, argument);
      assert s[start..][..n - start] == s[start..n];
    } else if major == 5 {
      ParseEntriesSound(s[start..], depth + 1, argument, []);
      assert s[start..][..n - start] == s[start..n];
    }
  }

  lemma {:induction false} ParseAllSound(s: seq<byte>, depth: nat, n: nat)
    requires depth <= MAXIMUM_DEPTH && ParseAll(s, depth, n).Some?
    ensures var (items, m) := ParseAll(s, depth, n).value;
            AllWithin(items, depth) && AllEncodable(items) && EncodeAll(items) == s[..m]
    decreases MAXIMUM_DEPTH - depth, 1, n
  {
    hide Head, Argument, IsText, Parse, Encode;
    if n > 0 {
      var (first, m) := Parse(s, depth).value;
      ParseSound(s, depth);
      ParseAllSound(s[m..], depth, n - 1);
      var (rest, k) := ParseAll(s[m..], depth, n - 1).value;
      var items := [first] + rest;
      assert items[1..] == rest;
      assert s[..m + k] == s[..m] + s[m..][..k];
    }
  }

  lemma {:induction false} ParseEntriesSound(s: seq<byte>, depth: nat, n: nat, seen: seq<seq<byte>>)
    requires depth <= MAXIMUM_DEPTH && ParseEntries(s, depth, n, seen).Some?
    ensures var (entries, m) := ParseEntries(s, depth, n, seen).value;
            EntriesWithin(entries, depth, seen) && EntriesEncodable(entries) && EncodeEntries(entries) == s[..m]
    decreases MAXIMUM_DEPTH - depth, 2, n
  {
    hide Head, Argument, IsText, Parse, ParseEntry, Encode;
    if n > 0 {
      var first := ParseEntry(s, depth).value;
      ParseEntrySound(s, depth);
      var seen' := seen + [s[..first.keyLength]];
      ParseEntriesSound(s[first.length..], depth, n - 1, seen');
      var (rest, k) := ParseEntries(s[first.length..], depth, n - 1, seen').value;
      var entries := [first.entry] + rest;
      assert entries[1..] == rest;
      assert s[..first.length + k] == s[..first.length] + s[first.length..][..k];
    }
  }

  lemma {:induction false} ParseEntrySound(s: seq<byte>, depth: nat)
    requires depth <= MAXIMUM_DEPTH && ParseEntry(s, depth).Some?
    ensures var r := ParseEntry(s, depth).value;
            && EntryWithin(r.entry, depth) && EntryEncodable(r.entry)
            && Encode(r.entry.key) == s[..r.keyLength] && EncodeEntry(r.entry) == s[..r.length]
    decreases MAXIMUM_DEPTH - depth, 1
  {
    hide Parse, Encode;
    var r := ParseEntry(s, depth).value;
    ParseSound(s, depth);
    ParseSound(s[r.keyLength..], depth);
    assert s[..r.length] == s[..r.keyLength] + s[r.keyLength..][..r.length - r.keyLength];
  }

  /** Two items of the profile with the same start are the same item, so encodings are prefix-free. */
  lemma EncodingsPrefixFree(v: Item, w: Item, depth: nat, t: seq<byte>, u: seq<byte>)
    requires depth <= MAXIMUM_DEPTH && Within(v, depth) && Within(w, depth)
    requires Encode(v) + t == Encode(w) + u
    ensures v == w && t == u
  {
    hide Parse;
    ParseEncode(v, depth, t);
    ParseEncode(w, depth, u);
    assert t == (Encode(v) + t)[|Encode(v)|..];
  }

  /** The shortest-form encoding of one item of the profile, map entries in any order. */
  ghost predicate IsCanonical(s: seq<byte>) {
    exists v: Item :: Within(v, 0) && Encode(v) == s
  }
}
