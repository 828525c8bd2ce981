/**
 The order of map entries, which the walker does not ask for. The protocol names the
 bytewise order of the encoded keys; the script that writes the test vectors puts
 shorter keys first. `Reference` is the encoding with sorted entries in either order; an
 accepted payload is the reference encoding of its item exactly when the keys of all
 its maps come in that order.
 */
module CborOrder {
  import opened Bytes
  import opened Cbor

  // ---- The orders ----

  /** The order of section 4.2.1 of RFC 8949, and that of its section 4.2.3, which the script follows. */
  datatype Order = Bytewise | LengthFirst

  predicate LexAtMost(a: seq<byte>, b: seq<byte>) {
    a == [] || (b != [] && (a[0] < b[0] || (a[0] == b[0] && LexAtMost(a[1..], b[1..]))))
  }

  predicate AtMost(o: Order, a: seq<byte>, b: seq<byte>) {
    match o
    case Bytewise => LexAtMost(a, b)
    case LengthFirst => |a| < |b| || (|a| == |b| && LexAtMost(a, b))
  }

  predicate Precedes(o: Order, d: Entry, e: Entry)
    requires EntryEncodable(d) && EntryEncodable(e)
  {
    AtMost(o, Encode(d.key), Encode(e.key))
  }

  lemma {:induction false} LexTotal(a: seq<byte>, b: seq<byte>)
    ensures LexAtMost(a, b) || LexAtMost(b, a)
    ensures LexAtMost(a, b) && LexAtMost(b, a) ==> a == b
  {
    if a != [] && b != [] {
      LexTotal(a[1..], b[1..]);
      assert a == [a[0]] + a[1..] && b == [b[0]] + b[1..];
    }
  }

  lemma {:induction false} LexTransitive(a: seq<byte>, b: seq<byte>, c: seq<byte>)
    requires LexAtMost(a, b) && LexAtMost(b, c)
    ensures LexAtMost(a, c)
  {
    if a != [] && a[0] == b[0] == c[0] {
      LexTransitive(a[1..], b[1..], c[1..]);
    }
  }

  /** Any two keys are ordered, and in both ways only if they are equal. */
  lemma OrderTotal(o: Order, a: seq<byte>, b: seq<byte>)
    ensures AtMost(o, a, b) || AtMost(o, b, a)
    ensures AtMost(o, a, b) && AtMost(o, b, a) ==> a == b
  {
    LexTotal(a, b);
  }

  lemma OrderTransitive(o: Order, a: seq<byte>, b: seq<byte>, c: seq<byte>)
    requires AtMost(o, a, b) && AtMost(o, b, c)
    ensures AtMost(o, a, c)
  {
    if LexAtMost(a, b) && LexAtMost(b, c) {
      LexTransitive(a, b, c);
    }
  }

  // ---- Sorting entries ----

  predicate Ascending(o: Order, entries: seq<Entry>)
    requires EntriesEncodable(entries)
  {
    |entries| < 2 || (Ascending(o, entries[1..]) && Precedes(o, entries[0], entries[1]))
  }

  function Insert(o: Order, e: Entry, entries: seq<Entry>): (r: seq<Entry>)
    requires EntryEncodable(e) && EntriesEncodable(entries)
    ensures EntriesEncodable(r) && |r| == |entries| + 1
  {
    if entries == [] || Precedes(o, e, entries[0]) then [e] + entries
    else [entries[0]] + Insert(o, e, entries[1..])
  }

  /** The entries in ascending order of their encoded keys. */
  function Sorted(o: Order, entries: seq<Entry>): (r: seq<Entry>)
    requires EntriesEncodable(entries)
    ensures EntriesEncodable(r) && |r| == |entries|
  {
    if entries == [] then [] else Insert(o, entries[0], Sorted(o, entries[1..]))
  }

  lemma {:induction false} InsertAscends(o: Order, e: Entry, entries: seq<Entry>)
    requires EntryEncodable(e) && EntriesEncodable(entries) && Ascending(o, entries)
    ensures Ascending(o, Insert(o, e, entries))
    ensures multiset(Insert(o, e, entries)) == multiset{e} + multiset(entries)
  {
    hide AtMost, Encode;
    if entries != [] && !Precedes(o, e, entries[0]) {
      OrderTotal(o, Encode(e.key), Encode(entries[0].key));
      InsertAscends(o, e, entries[1..]);
      var rest := Insert(o, e, entries[1..]);
      assert ([entries[0]] + rest)[1..] == rest;
      assert entries == [entries[0]] + entries[1..];
    } else {
      assert ([e] + entries)[1..] == entries;
    }
  }

  /** Sorting puts the entries in order and neither loses nor adds one. */
  lemma {:induction false} SortedAscends(o: Order, entries: seq<Entry>)
    requires EntriesEncodable(entries)
    ensures Ascending(o, Sorted(o, entries)) && multiset(Sorted(o, entries)) == multiset(entries)
  {
    if entries != [] {
      SortedAscends(o, entries[1..]);
      InsertAscends(o, entries[0], Sorted(o, entries[1..]));
      assert entries == [entries[0]] + entries[1..];
    }
  }

  lemma {:induction false} SortedIsIdentity(o: Order, entries: seq<Entry>)
    requires EntriesEncodable(entries) && Ascending(o, entries)
    ensures Sorted(o, entries) == entries
  {
    hide Encode, AtMost;
    if entries != [] {
      SortedIsIdentity(o, entries[1..]);
      assert entries == [entries[0]] + entries[1..];
    }
  }

  // ---- The reference encoding ----

  /** The item with the entries of every map sorted, inner maps first. */
  function Arranged(o: Order, v: Item): (r: Item)
    requires Encodable(v)
    ensures Encodable(r)
    decreases v, 1
  {
    match v
    case Array(items) => Array(AllArranged(o, items))
    case Map(entries) => Map(Sorted(o, EntriesArranged(o, entries)))
    case _ => v
  }

  function AllArranged(o: Order, items: seq<Item>): (r: seq<Item>)
    requires AllEncodable(items)
    ensures AllEncodable(r) && |r| == |items|
    decreases items, 0
  {
    if items == [] then [] else [Arranged(o, items[0])] + AllArranged(o, items[1..])
  }

  function EntriesArranged(o: Order, entries: seq<Entry>): (r: seq<Entry>)
    requires EntriesEncodable(entries)
    ensures EntriesEncodable(r) && |r| == |entries|
    decreases entries, 0
  {
    if entries == [] then [] else [EntryArranged(o, entries[0])] + EntriesArranged(o, entries[1..])
  }

  function EntryArranged(o: Order, e: Entry): (r: Entry)
    requires EntryEncodable(e)
    ensures EntryEncodable(r)
    decreases e, 2
  {
    Entry(Arranged(o, e.key), Arranged(o, e.value))
  }

  /** What `encode` writes for an item, in the order `LengthFirst`. */
  function Reference(o: Order, v: Item): seq<byte>
    requires Encodable(v)
  {
    Encode(Arranged(o, v))
  }

  /** The keys of every map in the item ascend. */
  predicate Ordered(o: Order, v: Item)
    requires Encodable(v)
    decreases v, 1
  {
    match v
    case Array(items) => AllOrdered(o, items)
    case Map(entries) => Ascending(o, entries) && EntriesOrdered(o, entries)
    case _ => true
  }

  predicate AllOrdered(o: Order, items: seq<Item>)
    requires AllEncodable(items)
    decreases items, 0
  {
    items == [] || (Ordered(o, items[0]) && AllOrdered(o, items[1..]))
  }

  predicate EntriesOrdered(o: Order, entries: seq<Entry>)
    requires EntriesEncodable(entries)
    decreases entries, 0
  {
    entries == [] || (EntryOrdered(o, entries[0]) && EntriesOrdered(o, entries[1..]))
  }

  predicate EntryOrdered(o: Order, e: Entry)
    requires EntryEncodable(e)
    decreases e, 2
  {
    Ordered(o, e.key) && Ordered(o, e.value)
  }

  // ---- Arranging and order ----

  lemma {:induction false} InsertOrdered(o: Order, e: Entry, entries: seq<Entry>)
    requires EntryEncodable(e) && EntriesEncodable(entries) && EntryOrdered(o, e) && EntriesOrdered(o, entries)
    ensures EntriesOrdered(o, Insert(o, e, entries))
  {
    hide Precedes, EntryOrdered;
    if entries != [] && !Precedes(o, e, entries[0]) {
      InsertOrdered(o, e, entries[1..]);
      var rest := Insert(o, e, entries[1..]);
      assert ([entries[0]] + rest)[1..] == rest;
    } else {
      assert ([e] + entries)[1..] == entries;
    }
  }

  lemma {:induction false} SortedOrdered(o: Order, entries: seq<Entry>)
    requires EntriesEncodable(entries) && EntriesOrdered(o, entries)
    ensures EntriesOrdered(o, Sorted(o, entries))
  {
    if entries != [] {
      SortedOrdered(o, entries[1..]);
      InsertOrdered(o, entries[0], Sorted(o, entries[1..]));
    }
  }

  lemma {:induction false} ArrangedOrdered(o: Order, v: Item)
    requires Encodable(v)
    ensures Ordered(o, Arranged(o, v))
    decreases v, 1
  {
    match v
    case Array(items) => AllArrangedOrdered(o, items);
    case Map(entries) =>
      EntriesArrangedOrdered(o, entries);
      SortedOrdered(o, EntriesArranged(o, entries));
      SortedAscends(o, EntriesArranged(o, entries));
    case _ =>
  }

  lemma {:induction false} AllArrangedOrdered(o: Order, items: seq<Item>)
    requires AllEncodable(items)
    ensures AllOrdered(o, AllArranged(o, items))
    decreases items, 0
  {
    hide Arranged, Ordered;
    if items != [] {
      ArrangedOrdered(o, items[0]);
      AllArrangedOrdered(o, items[1..]);
      assert AllArranged(o, items)[1..] == AllArranged(o, items[1..]);
    }
  }

  lemma {:induction false} EntriesArrangedOrdered(o: Order, entries: seq<Entry>)
    requires EntriesEncodable(entries)
    ensures EntriesOrdered(o, EntriesArranged(o, entries))
    decreases entries, 0
  {
    hide EntryArranged, EntryOrdered;
    if entries != [] {
      EntryArrangedOrdered(o, entries[0]);
      EntriesArrangedOrdered(o, entries[1..]);
      assert EntriesArranged(o, entries)[1..] == EntriesArranged(o, entries[1..]);
    }
  }

  lemma {:induction false} EntryArrangedOrdered(o: Order, e: Entry)
    requires EntryEncodable(e)
    ensures EntryOrdered(o, EntryArranged(o, e))
    decreases e, 2
  {
    hide Arranged, Ordered;
    ArrangedOrdered(o, e.key);
    ArrangedOrdered(o, e.value);
  }

  lemma {:induction false} OrderedIsArranged(o: Order, v: Item)
    requires Encodable(v) && Ordered(o, v)
    ensures Arranged(o, v) == v
    decreases v, 1
  {
    match v
    case Array(items) => AllOrderedIsArranged(o, items);
    case Map(entries) =>
      EntriesOrderedIsArranged(o, entries);
      SortedIsIdentity(o, entries);
    case _ =>
  }

  lemma {:induction false} AllOrderedIsArranged(o: Order, items: seq<Item>)
    requires AllEncodable(items) && AllOrdered(o, items)
    ensures AllArranged(o, items) == items
    decreases items, 0
  {
    hide Arranged, Ordered;
    if items != [] {
      OrderedIsArranged(o, items[0]);
      AllOrderedIsArranged(o, items[1..]);
    }
  }

  lemma {:induction false} EntriesOrderedIsArranged(o: Order, entries: seq<Entry>)
    requires EntriesEncodable(entries) && EntriesOrdered(o, entries)
    ensures EntriesArranged(o, entries) == entries
    decreases entries, 0
  {
    if entries != [] {
      EntryOrderedIsArranged(o, entries[0]);
      EntriesOrderedIsArranged(o, entries[1..]);
    }
  }

  lemma {:induction false} EntryOrderedIsArranged(o: Order, e: Entry)
    requires EntryEncodable(e) && EntryOrdered(o, e)
    ensures EntryArranged(o, e) == e
    decreases e, 2
  {
    hide Arranged, Ordered;
    OrderedIsArranged(o, e.key);
    OrderedIsArranged(o, e.value);
  }

  // ---- Encodings determine items ----

  /** Major type, argument and content of an item; simple values and floats have no argument. */
  function Parts(v: Item): (nat, nat, seq<byte>)
    requires Encodable(v)
  {
    match v
    case Unsigned(n) => (0, n, [])
    case Negative(n) => (1, n, [])
    case Bytes(b) => (2, |b|, b)
    case Text(b) => (3, |b|, b)
    case Array(items) => (4, |items|, EncodeAll(items))
    case Map(entries) => (5, |entries|, EncodeEntries(entries))
    case _ => (7, 0, [])
  }

  lemma PartsEncode(v: Item)
    requires Encodable(v)
    ensures var (major, argument, content) := Parts(v);
            && argument < TWO_64
            && Encode(v) == if major == 7 then Encode(v) else Head(major, argument) + content
  {
    hide Head;
  }

  lemma HeadInjective(major: nat, n: nat, t: seq<byte>, major': nat, n': nat, t': seq<byte>)
    requires major < 8 && n < TWO_64 && major' < 8 && n' < TWO_64
    requires Head(major, n) + t == Head(major', n') + t'
    ensures major == major' && n == n' && t == t'
  {
    hide Head, Argument;
    ArgumentOfHead(major, n, t);
    ArgumentOfHead(major', n', t');
    HeadLength(major, n);
    HeadLength(major', n');
    assert t == (Head(major, n) + t)[|Head(major, n)|..];
  }

  lemma HeadMajor(major: nat, n: nat, t: seq<byte>)
    requires major < 8 && n < TWO_64
    ensures (Head(major, n) + t)[0] / 32 == major
  {
    hide Head, Argument;
    ArgumentOfHead(major, n, t);
  }

  lemma SimpleInjective(v: Item, w: Item, t: seq<byte>, u: seq<byte>)
    requires Encodable(v) && Encodable(w) && Encode(v) + t == Encode(w) + u
    requires Parts(v).0 == Parts(w).0 == 7
    ensures v == w && t == u
  {
    var s := Encode(v) + t;
    assert s[0] == Encode(v)[0] == Encode(w)[0];
    assert t == s[|Encode(v)|..] && u == s[|Encode(w)|..];
    assert s[1..] == Encode(v)[1..] + t == Encode(w)[1..] + u;
    if v.Single? {
      assert s[1..5] == v.single == w.single;
    } else if v.Double? {
      assert s[1..9] == v.double == w.double;
    }
  }

  lemma SimpleFirst(v: Item, t: seq<byte>)
    requires Encodable(v) && Parts(v).0 == 7
    ensures (Encode(v) + t)[0] / 32 == 7
  {}

  lemma MajorFirst(v: Item, t: seq<byte>)
    requires Encodable(v)
    ensures Encode(v) + t != [] && (Encode(v) + t)[0] / 32 == Parts(v).0
  {
    hide Encode, Head;
    var (major, argument, content) := Parts(v);
    EncodeNotEmpty(v);
    if major == 7 {
      SimpleFirst(v, t);
    } else {
      PartsEncode(v);
      HeadMajor(major, argument, content + t);
      assert Encode(v) + t == Head(major, argument) + (content + t);
    }
  }

  /** Items with a common start are equal, whether or not the profile admits them. */
  lemma {:induction false} EncodeInjective(v: Item, w: Item, t: seq<byte>, u: seq<byte>)
    requires Encodable(v) && Encodable(w) && Encode(v) + t == Encode(w) + u
    ensures v == w && t == u
    decreases v, 1
  {
    hide Head, Encode, EncodeAll, EncodeEntries;
    MajorFirst(v, t);
    MajorFirst(w, u);
    var (major, n, content) := Parts(v);
    var (major', n', content') := Parts(w);
    if major == 7 {
      SimpleInjective(v, w, t, u);
    } else {
      PartsEncode(v);
      PartsEncode(w);
      assert Encode(v) + t == Head(major, n) + (content + t);
      assert Encode(w) + u == Head(major, n') + (content' + u);
      HeadInjective(major, n, content + t, major, n', content' + u);
      match v
      case Array(items) => AllInjective(items, w.items, t, u);
      case Map(entries) => EntriesInjective(entries, w.entries, t, u);
      case _ => StringInjective(content, content', t, u);
    }
  }

  lemma StringInjective(b: seq<byte>, b': seq<byte>, t: seq<byte>, u: seq<byte>)
    requires |b| == |b'| && b + t == b' + u
    ensures b == b' && t == u
  {
    assert b == (b + t)[..|b|] && t == (b + t)[|b|..];
  }

  lemma {:induction false} AllInjective(v: seq<Item>, w: seq<Item>, t: seq<byte>, u: seq<byte>)
    requires AllEncodable(v) && AllEncodable(w) && |v| == |w| && EncodeAll(v) + t == EncodeAll(w) + u
    ensures v == w && t == u
    decreases v, 0
  {
    hide Encode;
    if v == [] {
      assert [] + t == t && [] + u == u;
    } else {
      assert EncodeAll(v) + t == Encode(v[0]) + (EncodeAll(v[1..]) + t);
      assert EncodeAll(w) + u == Encode(w[0]) + (EncodeAll(w[1..]) + u);
      EncodeInjective(v[0], w[0], EncodeAll(v[1..]) + t, EncodeAll(w[1..]) + u);
      AllInjective(v[1..], w[1..], t, u);
      assert v == [v[0]] + v[1..] && w == [w[0]] + w[1..];
    }
  }

  lemma {:induction false} EntriesInjective(v: seq<Entry>, w: seq<Entry>, t: seq<byte>, u: seq<byte>)
    requires EntriesEncodable(v) && EntriesEncodable(w) && |v| == |w| && EncodeEntries(v) + t == EncodeEntries(w) + u
    ensures v == w && t == u
    decreases v, 0
  {
    hide EncodeEntry;
    if v == [] {
      assert [] + t == t && [] + u == u;
    } else {
      assert EncodeEntries(v) + t == EncodeEntry(v[0]) + (EncodeEntries(v[1..]) + t);
      assert EncodeEntries(w) + u == EncodeEntry(w[0]) + (EncodeEntries(w[1..]) + u);
      EntryInjective(v[0], w[0], EncodeEntries(v[1..]) + t, EncodeEntries(w[1..]) + u);
      EntriesInjective(v[1..], w[1..], t, u);
      assert v == [v[0]] + v[1..] && w == [w[0]] + w[1..];
    }
  }

  lemma {:induction false} EntryInjective(d: Entry, e: Entry, t: seq<byte>, u: seq<byte>)
    requires EntryEncodable(d) && EntryEncodable(e) && EncodeEntry(d) + t == EncodeEntry(e) + u
    ensures d == e && t == u
    decreases d, 2
  {
    hide Encode;
    assert EncodeEntry(d) + t == Encode(d.key) + (Encode(d.value) + t);
    assert EncodeEntry(e) + u == Encode(e.key) + (Encode(e.value) + u);
    EncodeInjective(d.key, e.key, Encode(d.value) + t, Encode(e.value) + u);
    EncodeInjective(d.value, e.value, t, u);
  }

  // ---- The condition ----

  /** An item encodes with sorted entries exactly when the keys of all its maps ascend. */
  lemma ReferenceIff(o: Order, v: Item)
    requires Encodable(v)
    ensures Encode(v) == Reference(o, v) <==> Ordered(o, v)
  {
    hide Encode, Arranged, Ordered;
    ArrangedOrdered(o, v);
    if Ordered(o, v) {
      OrderedIsArranged(o, v);
    }
    if Encode(v) == Reference(o, v) {
      EncodeInjective(v, Arranged(o, v), [], []);
    }
  }

  /** The item an accepted payload stands for. */
  ghost function AcceptedItem(payload: seq<byte>): (v: Item)
    requires IsCanonical(payload)
    ensures Within(v, 0) && Encode(v) == payload && Encodable(v)
  {
    var v: Item :| Within(v, 0) && Encode(v) == payload;
    v
  }

  /** An accepted payload is the reference encoding of its item exactly when the keys of all its maps ascend. */
  lemma AcceptedReferenceIff(o: Order, payload: seq<byte>)
    requires IsCanonical(payload)
    ensures Reference(o, AcceptedItem(payload)) == payload <==> Ordered(o, AcceptedItem(payload))
  {
    ReferenceIff(o, AcceptedItem(payload));
  }

  /** The order in which the entries of a map arrived leaves no trace in its reference encoding. */
  lemma ReferenceForgetsOrder(o: Order, v: seq<Entry>, w: seq<Entry>)
    requires Encodable(Map(v)) && Encodable(Map(w)) && EntriesEncodable(v) && EntriesEncodable(w)
    requires multiset(v) == multiset(w) && OneValueEach(EntriesArranged(o, v))
    ensures Reference(o, Map(v)) == Reference(o, Map(w))
  {
    SameArranged(o, v, w);
    ReferenceForgetsArrangement(o, v, w);
  }

  /** The same entries in another order are the same after arranging. */
  lemma {:induction false} SameArranged(o: Order, v: seq<Entry>, w: seq<Entry>)
    requires EntriesEncodable(v) && EntriesEncodable(w) && multiset(v) == multiset(w)
    ensures multiset(EntriesArranged(o, v)) == multiset(EntriesArranged(o, w))
  {
    hide EntryArranged, EntryEncodable, EntriesArranged, EntriesEncodable;
    if v == [] {
      assert |w| == |multiset(w)| == |multiset(v)| == 0;
    } else {
      assert v[0] in multiset(w);
      var i :| 0 <= i < |w| && w[i] == v[0];
      var rest := Without(w, i);
      ArrangedCons(o, v[0], v[1..]);
      assert v == [v[0]] + v[1..];
      WithoutMembers(w, i);
      assert multiset(v[1..]) == multiset(v) - multiset{v[0]};
      assert multiset(rest) == multiset(w) - multiset{w[i]};
      ArrangedWithout(o, w, i);
      SameArranged(o, v[1..], rest);
    }
  }

  function Without(w: seq<Entry>, i: nat): seq<Entry>
    requires i < |w|
  {
    w[..i] + w[i + 1..]
  }

  lemma WithoutMembers(w: seq<Entry>, i: nat)
    requires i < |w|
    ensures multiset(w) == multiset(Without(w, i)) + multiset{w[i]}
  {
    assert w == w[..i] + [w[i]] + w[i + 1..];
  }

  lemma ArrangedCons(o: Order, e: Entry, entries: seq<Entry>)
    ensures EntriesEncodable([e] + entries) <==> EntryEncodable(e) && EntriesEncodable(entries)
    ensures EntryEncodable(e) && EntriesEncodable(entries) ==>
              && EntriesArranged(o, [e] + entries) == [EntryArranged(o, e)] + EntriesArranged(o, entries)
              && multiset(EntriesArranged(o, [e] + entries))
                 == multiset{EntryArranged(o, e)} + multiset(EntriesArranged(o, entries))
  {
    hide EntryArranged, EntryEncodable;
    var all := [e] + entries;
    assert all[0] == e && all[1..] == entries;
  }

  lemma {:induction false} ArrangedWithout(o: Order, w: seq<Entry>, i: nat)
    requires EntriesEncodable(w) && i < |w|
    ensures EntriesEncodable(Without(w, i)) && EntryEncodable(w[i])
    ensures multiset(EntriesArranged(o, w)) == multiset(EntriesArranged(o, Without(w, i))) + multiset{EntryArranged(o, w[i])}
  {
    hide EntryArranged, EntryEncodable, EntriesArranged, EntriesEncodable;
    ArrangedCons(o, w[0], w[1..]);
    assert w == [w[0]] + w[1..];
    if i == 0 {
      assert Without(w, i) == w[1..];
    } else {
      ArrangedWithout(o, w[1..], i - 1);
      ArrangedCons(o, w[0], Without(w[1..], i - 1));
      assert Without(w, i) == [w[0]] + Without(w[1..], i - 1);
    }
  }

  /** Only the arranged entries matter. */
  lemma ReferenceForgetsArrangement(o: Order, v: seq<Entry>, w: seq<Entry>)
    requires Encodable(Map(v)) && Encodable(Map(w)) && EntriesEncodable(v) && EntriesEncodable(w)
    requires multiset(EntriesArranged(o, v)) == multiset(EntriesArranged(o, w)) && OneValueEach(EntriesArranged(o, v))
    ensures Reference(o, Map(v)) == Reference(o, Map(w))
  {
    hide Encode, EntriesArranged;
    SortedAscends(o, EntriesArranged(o, v));
    SortedAscends(o, EntriesArranged(o, w));
    SameMembers(EntriesArranged(o, v), Sorted(o, EntriesArranged(o, v)));
    AscendingUnique(o, Sorted(o, EntriesArranged(o, v)), Sorted(o, EntriesArranged(o, w)));
  }

  /** No key has two values. */
  predicate OneValueEach(entries: seq<Entry>) {
    forall i, j :: 0 <= i < |entries| && 0 <= j < |entries| && entries[i].key == entries[j].key ==> entries[i] == entries[j]
  }

  lemma SameMembers(v: seq<Entry>, w: seq<Entry>)
    requires multiset(v) == multiset(w) && OneValueEach(v)
    ensures OneValueEach(w)
  {
    forall i, j | 0 <= i < |w| && 0 <= j < |w| && w[i].key == w[j].key
      ensures w[i] == w[j]
    {
      assert w[i] in multiset(v) && w[j] in multiset(v);
    }
  }

  lemma {:induction false} AscendingLeast(o: Order, entries: seq<Entry>, e: Entry)
    requires EntriesEncodable(entries) && Ascending(o, entries) && e in entries
    ensures EntryEncodable(e) && Precedes(o, entries[0], e)
  {
    hide Encode, LexAtMost;
    OrderTotal(o, Encode(entries[0].key), Encode(entries[0].key));
    if e != entries[0] {
      assert e in entries[1..];
      AscendingLeast(o, entries[1..], e);
      OrderTransitive(o, Encode(entries[0].key), Encode(entries[1].key), Encode(e.key));
    }
  }

  /** The same entries have one ascending order only. */
  lemma {:induction false} AscendingUnique(o: Order, v: seq<Entry>, w: seq<Entry>)
    requires EntriesEncodable(v) && EntriesEncodable(w) && Ascending(o, v) && Ascending(o, w)
    requires multiset(v) == multiset(w) && OneValueEach(v)
    ensures v == w
  {
    hide Encode, AtMost, OneValueEach;
    assert |v| == |multiset(v)| == |multiset(w)| == |w|;
    if v != [] {
      SameLeast(o, v, w);
      SameRest(v, w);
      AscendingUnique(o, v[1..], w[1..]);
    }
  }

  lemma SameLeast(o: Order, v: seq<Entry>, w: seq<Entry>)
    requires EntriesEncodable(v) && EntriesEncodable(w) && Ascending(o, v) && Ascending(o, w)
    requires multiset(v) == multiset(w) && OneValueEach(v) && v != [] && w != []
    ensures v[0] == w[0]
  {
    hide Encode, AtMost, Ascending, EntriesEncodable, EntryEncodable;
    assert v[0] in multiset(w) && w[0] in multiset(v);
    AscendingLeast(o, v, w[0]);
    AscendingLeast(o, w, v[0]);
    FirstEncodable(v);
    FirstEncodable(w);
    OrderTotal(o, Encode(v[0].key), Encode(w[0].key));
    EncodeInjective(v[0].key, w[0].key, [], []);
  }

  lemma FirstEncodable(entries: seq<Entry>)
    requires entries != [] && EntriesEncodable(entries)
    ensures EntryEncodable(entries[0]) && Encodable(entries[0].key)
  {}

  lemma SameRest(v: seq<Entry>, w: seq<Entry>)
    requires v != [] && w != [] && v[0] == w[0] && multiset(v) == multiset(w) && OneValueEach(v)
    ensures v == [v[0]] + v[1..] && w == [w[0]] + w[1..]
    ensures multiset(v[1..]) == multiset(w[1..]) && OneValueEach(v[1..])
  {
    assert v == [v[0]] + v[1..] && w == [w[0]] + w[1..];
    assert multiset(v[1..]) == multiset(v) - multiset{v[0]};
    assert multiset(w[1..]) == multiset(w) - multiset{w[0]};
  }

  /** The map of 0 and 1 to zero, its entries in ascending and in descending order. */
  lemma OrderWitness(o: Order)
    ensures var first, second: seq<byte> := [0xA2, 0, 0, 1, 0], [0xA2, 1, 0, 0, 0];
            && IsCanonical(first) && IsCanonical(second)
            && AcceptedItem(first) == Map([Entry(Unsigned(0), Unsigned(0)), Entry(Unsigned(1), Unsigned(0))])
            && AcceptedItem(second) == Map([Entry(Unsigned(1), Unsigned(0)), Entry(Unsigned(0), Unsigned(0))])
            && Reference(o, AcceptedItem(first)) == first
            && Reference(o, AcceptedItem(second)) == first
  {
    WitnessItem(0, 1);
    WitnessItem(1, 0);
    var v, w := WitnessMap(0, 1), WitnessMap(1, 0);
    EncodeInjective(AcceptedItem(Encode(v)), v, [], []);
    EncodeInjective(AcceptedItem(Encode(w)), w, [], []);
    WitnessOrder(o);
  }

  function WitnessMap(a: nat, b: nat): Item {
    Map([Entry(Unsigned(a), Unsigned(0)), Entry(Unsigned(b), Unsigned(0))])
  }

  lemma WitnessItem(a: byte, b: byte)
    requires a != b && a < 24 && b < 24
    ensures Within(WitnessMap(a, b), 0) && Encodable(WitnessMap(a, b))
    ensures Encode(WitnessMap(a, b)) == [0xA2, a, 0, b, 0]
    ensures IsCanonical([0xA2, a, 0, b, 0])
  {
    hide Encode, Within, Encodable, EntriesEncodable, EntriesWithin, EncodeEntries;
    var first, second := Entry(Unsigned(a), Unsigned(0)), Entry(Unsigned(b), Unsigned(0));
    SmallNumber(a);
    SmallNumber(b);
    SmallNumber(0);
    OneEntryMore(first, [second], 1, []);
    OneEntryMore(second, [], 1, [[a]]);
    NoEntries(1, [[a]] + [[b]]);
    assert [first] + [second] == [first, second] && [second] + [] == [second];
    assert [] + [[a]] == [[a]];
    SmallMap([first, second]);
    assert [0xA2] + EncodeEntries([first, second]) == [0xA2, a, 0, b, 0];
  }

  lemma SmallNumber(n: byte)
    requires n < 24
    ensures Encodable(Unsigned(n)) && Encode(Unsigned(n)) == [n] && Within(Unsigned(n), 1)
  {}

  lemma NoEntries(depth: nat, seen: seq<seq<byte>>)
    ensures EntriesEncodable([]) && EntriesWithin([], depth, seen) && EncodeEntries([]) == []
  {}

  lemma SmallMap(entries: seq<Entry>)
    requires |entries| == 2 && EntriesEncodable(entries) && EntriesWithin(entries, 1, [])
    ensures Within(Map(entries), 0) && Encodable(Map(entries))
    ensures Encode(Map(entries)) == [0xA2] + EncodeEntries(entries)
  {
    hide EntriesEncodable, EntriesWithin, EncodeEntries;
  }

  lemma OneEntryMore(e: Entry, rest: seq<Entry>, depth: nat, seen: seq<seq<byte>>)
    requires EntryEncodable(e)
    ensures EntriesEncodable([e] + rest) <==> EntriesEncodable(rest)
    ensures EntriesEncodable(rest) ==> EncodeEntries([e] + rest) == Encode(e.key) + Encode(e.value) + EncodeEntries(rest)
    ensures EntriesWithin([e] + rest, depth, seen)
            <==> EntryWithin(e, depth) && Encode(e.key) !in seen && EntriesWithin(rest, depth, seen + [Encode(e.key)])
  {
    hide Encode;
    var entries := [e] + rest;
    assert entries[0] == e && entries[1..] == rest;
    assert EncodeEntry(e) == Encode(e.key) + Encode(e.value);
  }

  lemma WitnessOrder(o: Order)
    ensures Encodable(WitnessMap(0, 1)) && Encodable(WitnessMap(1, 0))
    ensures Arranged(o, WitnessMap(0, 1)) == WitnessMap(0, 1) == Arranged(o, WitnessMap(1, 0))
  {
    var zero, one := Entry(Unsigned(0), Unsigned(0)), Entry(Unsigned(1), Unsigned(0));
    SmallNumber(0);
    SmallNumber(1);
    OneEntryMore(zero, [], 1, []);
    OneEntryMore(one, [], 1, []);
    assert [zero] + [] == [zero] && [one] + [] == [one];
    assert Precedes(o, zero, one) && !Precedes(o, one, zero);
    assert EntriesArranged(o, [zero]) == [zero] && EntriesArranged(o, [one]) == [one];
    assert [zero, one][1..] == [one] && [one, zero][1..] == [zero];
    assert Sorted(o, [zero]) == [zero] && Sorted(o, [one]) == [one];
  }

  /** The keys 100 and -1 come in this order bytewise, and in the other one by length. */
  lemma OrdersDiffer()
    ensures var m := Map([Entry(Unsigned(100), Unsigned(0)), Entry(Negative(0), Unsigned(0))]);
            Encodable(m) && Ordered(Bytewise, m) && !Ordered(LengthFirst, m)
  {
    var d, e := Entry(Unsigned(100), Unsigned(0)), Entry(Negative(0), Unsigned(0));
    OneEntryMore(d, [e], 1, []);
    OneEntryMore(e, [], 1, []);
    assert [d] + [e] == [d, e] && [e] + [] == [e];
    assert BigEndian(100, 1) == [100];
    assert Encode(d.key) == [0x18, 100] && Encode(e.key) == [0x20];
  }
}
