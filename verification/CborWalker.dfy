/** The canonical walker: recursion over a cursor, with no item ever built. */
module CborWalker {
  import opened Bytes
  import opened Options
  import opened Utf8
  import opened Cbor
  import opened Utf8Validators

  /** Where a parse of `n` octets from `cursor` leaves the cursor. */
  ghost predicate Lands(ok: bool, next: nat, cursor: nat, r: Option<(Item, nat)>) {
    ok == r.Some? && (ok ==> next == cursor + r.value.1)
  }

  method ReadArgument(data: seq<byte>, cursor: nat, additional: nat) returns (ok: bool, value: nat, next: nat)
    requires cursor <= |data| && additional < 32
    ensures ok == Argument(data[cursor..], additional).Some?
    ensures ok ==> next <= |data| && Argument(data[cursor..], additional) == Some((value, next - cursor))
  {
    value, next := 0, cursor;
    if additional < 24 {
      return true, additional, cursor;
    }
    if additional > 27 {
      return false, 0, cursor;
    }
    var bytes := Width(additional);
    if |data| - cursor < bytes {
      return false, 0, cursor;
    }
    for i := 0 to bytes
      invariant next == cursor + i && value == FromBigEndian(data[cursor..][..i])
    {
      var octet: nat := data[next];
      value := value * 256 + octet;
      next := next + 1;
      assert data[cursor..][..i + 1][..i] == data[cursor..][..i];
    }
    ok := value >= Smallest(additional);
  }

  method Walk(data: seq<byte>, cursor: nat, depth: nat) returns (ok: bool, next: nat)
    requires cursor <= |data| && depth <= MAXIMUM_DEPTH
    ensures Lands(ok, next, cursor, Parse(data[cursor..], depth))
    decreases MAXIMUM_DEPTH - depth, 1, 0
  {
    hide ParseBody, Argument, IsText;
    ok, next := false, cursor;
    if cursor == |data| {
      return;
    }
    ghost var s := data[cursor..];
    var initial: nat := data[cursor];
    var major, additional := initial / 32, initial % 32;
    next := cursor + 1;
    if major == 6 || additional == 31 {
      return;
    }
    if major == 7 {
      if additional == 20 || additional == 21 {
        return true, next;
      }
      if additional == 26 {
        if |data| - next < 4 {
          return;
        }
        return true, next + 4;
      }
      if additional == 27 {
        if |data| - next < 8 {
          return;
        }
        return true, next + 8;
      }
      return;
    }
    assert data[next..] == s[1..];
    var read, argument, start := ReadArgument(data, next, additional);
    if !read {
      return;
    }
    ok, next := WalkBody(data, cursor, depth, major, argument, start);
  }

  /** The part of the walk after the head of an item. */
  method WalkBody(data: seq<byte>, cursor: nat, depth: nat, major: nat, argument: nat, start: nat)
    returns (ok: bool, next: nat)
    requires cursor < start <= |data| && depth <= MAXIMUM_DEPTH && major < 6
    ensures Lands(ok, next, cursor, ParseBody(data[cursor..], depth, major, argument, start - cursor))
    decreases MAXIMUM_DEPTH - depth, 0, 2
  {
    hide Parse, ParseAll, ParseEntries, IsText;
    ok, next := false, start;
    if major <= 1 {
      return true, start;
    }
    if major == 2 || major == 3 {
      if argument > |data| - start {
        return;
      }
      assert data[start..start + argument] == data[cursor..][start - cursor..start - cursor + argument];
      if major == 3 {
        var valid := ValidCborText(data[start..start + argument]);
        if !valid {
          return;
        }
      }
      return true, start + argument;
    }
    if depth >= MAXIMUM_DEPTH {
      return;
    }
    assert data[start..] == data[cursor..][start - cursor..];
    if major == 4 {
      if argument > MAXIMUM_ARRAY_ITEMS {
        return;
      }
      ok, next := WalkItems(data, start, depth + 1, argument);
    } else {
      if argument > MAXIMUM_MAP_ENTRIES {
        return;
      }
      ok, next := WalkEntries(data, start, depth + 1, argument);
    }
  }

  method WalkItems(data: seq<byte>, start: nat, depth: nat, count: nat) returns (ok: bool, next: nat)
    requires start <= |data| && depth <= MAXIMUM_DEPTH
    ensures var r := ParseAll(data[start..], depth, count);
            ok == r.Some? && (ok ==> next == start + r.value.1)
    decreases MAXIMUM_DEPTH - depth, 2
  {
    hide Parse;
    next := start;
    ghost var whole := ParseAll(data[start..], depth, count);
    for i := 0 to count
      invariant start <= next <= |data|
      invariant var rest := ParseAll(data[next..], depth, count - i);
                whole.Some? == rest.Some? && (rest.Some? ==> whole.value.1 == next - start + rest.value.1)
    {
      ghost var first := Parse(data[next..], depth);
      ok, next := Walk(data, next, depth);
      if !ok {
        return;
      }
      assert data[next - first.value.1..][first.value.1..] == data[next..];
    }
    ok := true;
  }

  /** The keys of the map met so far are kept as slices of the input. */
  method WalkEntries(data: seq<byte>, start: nat, depth: nat, count: nat) returns (ok: bool, next: nat)
    requires start <= |data| && depth <= MAXIMUM_DEPTH
    ensures var r := ParseEntries(data[start..], depth, count, []);
            ok == r.Some? && (ok ==> next == start + r.value.1)
    decreases MAXIMUM_DEPTH - depth, 2
  {
    hide ParseEntry;
    next := start;
    var keys: seq<seq<byte>> := [];
    ghost var whole := ParseEntries(data[start..], depth, count, []);
    for i := 0 to count
      invariant start <= next <= |data|
      invariant var rest := ParseEntries(data[next..], depth, count - i, keys);
                whole.Some? == rest.Some? && (rest.Some? ==> whole.value.1 == next - start + rest.value.1)
    {
      ghost var from := next;
      var key;
      ok, key, next := WalkEntry(data, next, depth, keys);
      if !ok {
        return;
      }
      assert data[from..][next - from..] == data[next..];
      keys := keys + [key];
    }
    ok := true;
  }

  method WalkEntry(data: seq<byte>, cursor: nat, depth: nat, keys: seq<seq<byte>>)
    returns (ok: bool, key: seq<byte>, next: nat)
    requires cursor <= |data| && depth <= MAXIMUM_DEPTH
    ensures var r := ParseEntry(data[cursor..], depth);
            && (ok <==> r.Some? && data[cursor..][..r.value.keyLength] !in keys)
            && (ok ==> next == cursor + r.value.length && key == data[cursor..][..r.value.keyLength])
    decreases MAXIMUM_DEPTH - depth, 1, 1
  {
    hide Parse;
    key := [];
    ghost var s := data[cursor..];
    ok, next := Walk(data, cursor, depth);
    if !ok {
      return;
    }
    assert data[next..] == s[next - cursor..];
    key := data[cursor..next];
    assert key == s[..next - cursor];
    for prior := 0 to |keys|
      invariant key !in keys[..prior]
    {
      if keys[prior] == key {
        return false, key, next;
      }
    }
    assert keys[..|keys|] == keys;
    ok, next := Walk(data, next, depth);
  }

  /**
   Accepts a payload exactly when it is the shortest-form encoding of one item of the
   profile, map entries in whatever order they came.
   */
  method ValidateCanonicalCbor(payload: seq<byte>) returns (valid: bool)
    ensures valid <==> |payload| <= MAXIMUM_PAYLOAD_BYTES && IsCanonical(payload)
  {
    hide Parse, IsCanonical;
    CanonicalIff(payload);
    if |payload| == 0 || |payload| > MAXIMUM_PAYLOAD_BYTES {
      return false;
    }
    assert payload[0..] == payload;
    var ok, cursor := Walk(payload, 0, 0);
    valid := ok && cursor == |payload|;
  }

  lemma CanonicalIff(payload: seq<byte>)
    ensures IsCanonical(payload)
            <==> payload != [] && Parse(payload, 0).Some? && Parse(payload, 0).value.1 == |payload|
  {
    hide Encode;
    if payload != [] && Parse(payload, 0).Some? && Parse(payload, 0).value.1 == |payload| {
      ParseSound(payload, 0);
      assert payload[..|payload|] == payload;
      var v := Parse(payload, 0).value.0;
      assert Within(v, 0) && Encode(v) == payload;
    }
    if v: Item :| Within(v, 0) && Encode(v) == payload {
      ParseEncode(v, 0, []);
      assert Encode(v) + [] == payload;
    }
  }
}
