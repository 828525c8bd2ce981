/** The validators of the CBOR wrapper and of the WebSocket client. */
module Utf8Validators {
  import opened Bytes
  import opened Utf8

  /** How many continuation octets a lead octet announces; none for a plain or a bad one. */
  function Continuations(first: byte): nat {
    if 0xC2 <= first <= 0xDF then 1
    else if 0xE0 <= first <= 0xEF then 2
    else if 0xF0 <= first <= 0xF4 then 3
    else 0
  }

  predicate Tails(s: seq<byte>, n: nat) {
    forall j :: 1 <= j <= n ==> Tail(s, j)
  }

  /** Without its continuation octets, an announced character is none. */
  lemma MissingTail(s: seq<byte>)
    requires s != [] && s[0] > 0x7F && !Tails(s, Continuations(s[0]))
    ensures CharLength(s) == 0
  {}

  /**
   With its continuation octets present, a character is well formed exactly when
   the value it denotes is no smaller than its length allows, in range, and no
   surrogate.
   */
  lemma ValueDecides(s: seq<byte>)
    requires s != [] && 0 < Continuations(s[0]) < |s| && Tails(s, Continuations(s[0]))
    ensures var k := Continuations(s[0]);
            var c := CharValue(s, k + 1);
            && (k == 1 ==> c >= 0x80)
            && (CharLength(s) == if (k == 2 && c < 0x800) || (k == 3 && c < 0x10000) || (0xD800 <= c <= 0xDFFF) || c > 0x10FFFF
                                 then 0 else k + 1)
  {
    var k := Continuations(s[0]);
    assert Tail(s, 1) && (k >= 2 ==> Tail(s, 2)) && (k >= 3 ==> Tail(s, 3));
    if k == 1 {
      Bounds(s[0] % 32, s[1]);
    } else if k == 2 {
      Bounds(s[0] % 16, s[1]);
      Bounds(Join(s[0] % 16, s[1]), s[2]);
    } else {
      Bounds(s[0] % 8, s[1]);
      Bounds(Join(s[0] % 8, s[1]), s[2]);
      Bounds(Join(Join(s[0] % 8, s[1]), s[2]), s[3]);
    }
  }

  lemma Bounds(codepoint: nat, next: byte)
    requires 0x80 <= next <= 0xBF
    ensures Join(codepoint, next) == codepoint * 64 + next - 0x80
  {}

  /** Reads `count` continuation octets from `from` on, joining them to `lead`. */
  method TakeTails(s: seq<byte>, from: nat, count: nat, lead: nat) returns (ok: bool, codepoint: nat)
    requires from + count <= |s|
    ensures ok <==> forall j :: from <= j < from + count ==> Tail(s, j)
    ensures ok ==> codepoint == Joined(s, from, count, lead)
  {
    codepoint := lead;
    for part := 0 to count
      invariant forall j :: from <= j < from + part ==> Tail(s, j)
      invariant codepoint == Joined(s, from, part, lead)
    {
      var next := s[from + part];
      if next / 64 != 2 {
        assert !Tail(s, from + part);
        return false, 0;
      }
      codepoint := Join(codepoint, next);
    }
    ok := true;
  }

  function Joined(s: seq<byte>, from: nat, count: nat, lead: nat): nat
    requires from + count <= |s|
  {
    if count == 0 then lead else Join(Joined(s, from, count - 1, lead), s[from + count - 1])
  }

  function LeadBits(first: byte): nat {
    if Continuations(first) == 1 then first % 32
    else if Continuations(first) == 2 then first % 16
    else first % 8
  }

  lemma JoinedIsValue(s: seq<byte>, i: nat)
    requires i < |s| && Continuations(s[i]) > 0 && i + 1 + Continuations(s[i]) <= |s|
    ensures Joined(s, i + 1, Continuations(s[i]), LeadBits(s[i])) == CharValue(s[i..], Continuations(s[i]) + 1)
  {
    hide Join;
    var k, lead := Continuations(s[i]), LeadBits(s[i]);
    assert Joined(s, i + 1, 0, lead) == lead;
    assert Joined(s, i + 1, 1, lead) == Join(lead, s[i + 1]);
    if k >= 2 {
      assert Joined(s, i + 1, 2, lead) == Join(Joined(s, i + 1, 1, lead), s[i + 2]);
    }
    if k >= 3 {
      assert Joined(s, i + 1, 3, lead) == Join(Joined(s, i + 1, 2, lead), s[i + 3]);
    }
  }

  lemma TailsAt(s: seq<byte>, i: nat, n: nat)
    requires i <= |s|
    ensures Tails(s[i..], n) <==> forall j :: i + 1 <= j < i + 1 + n ==> Tail(s, j)
  {
    if Tails(s[i..], n) {
      forall j | i + 1 <= j < i + 1 + n
        ensures Tail(s, j)
      {
        assert Tail(s[i..], j - i);
      }
    }
    if forall j :: i + 1 <= j < i + 1 + n ==> Tail(s, j) {
      forall j | 1 <= j <= n
        ensures Tail(s[i..], j)
      {
        assert Tail(s, i + j);
      }
    }
  }

  /** The validator of the CBOR wrapper: an index over the whole text. */
  method ValidCborText(text: seq<byte>) returns (valid: bool)
    ensures valid <==> IsText(text)
  {
    hide CharLength, CharValue, IsText, Joined, LeadBits;
    ScanIff(text);
    var i := 0;
    while i < |text|
      invariant i <= |text| && ScansAsText(text) == ScansAsText(text[i..])
    {
      var first := text[i];
      ghost var s := text[i..];
      if first <= 0x7F {
        PlainChar(s);
        assert s[1..] == text[i + 1..];
        i := i + 1;
        continue;
      }
      var continuation := Continuations(first);
      TailsAt(text, i, continuation);
      if continuation == 0 {
        BadLead(s);
        return false;
      }
      if continuation > |text| - i - 1 {
        assert !Tail(s, continuation);
        MissingTail(s);
        return false;
      }
      var ok, codepoint := TakeTails(text, i + 1, continuation, LeadBits(first));
      if !ok {
        MissingTail(s);
        return false;
      }
      JoinedIsValue(text, i);
      ValueDecides(s);
      if (continuation == 2 && codepoint < 0x800) || (continuation == 3 && codepoint < 0x10000)
         || (0xD800 <= codepoint <= 0xDFFF) || codepoint > 0x10FFFF {
        return false;
      }
      assert s[continuation + 1..] == text[i + 1 + continuation..];
      i := i + 1 + continuation;
    }
    valid := true;
  }

  lemma PlainChar(s: seq<byte>)
    requires s != [] && s[0] <= 0x7F
    ensures CharLength(s) == 1
  {}

  lemma BadLead(s: seq<byte>)
    requires s != [] && s[0] > 0x7F && Continuations(s[0]) == 0
    ensures CharLength(s) == 0
  {}

  /** The validator of close payloads: a remaining slice, and a minimum per length. */
  method ValidCloseText(payload: seq<byte>) returns (valid: bool)
    ensures valid <==> IsText(payload)
  {
    hide CharLength, CharValue, IsText, Joined, LeadBits;
    ScanIff(payload);
    var input := payload;
    while input != []
      invariant ScansAsText(payload) == ScansAsText(input)
      decreases |input|
    {
      var first := input[0];
      if first <= 0x7F {
        PlainChar(input);
        input := input[1..];
        continue;
      }
      var continuationCount := Continuations(first);
      if continuationCount == 0 {
        BadLead(input);
        return false;
      }
      var minimum := if continuationCount == 1 then 0x80 else if continuationCount == 2 then 0x800 else 0x10000;
      TailsAt(input, 0, continuationCount);
      assert input[0..] == input;
      if |input| - 1 < continuationCount {
        assert !Tail(input, continuationCount);
        MissingTail(input);
        return false;
      }
      var ok, codepoint := TakeTails(input, 1, continuationCount, LeadBits(first));
      if !ok {
        MissingTail(input);
        return false;
      }
      JoinedIsValue(input, 0);
      ValueDecides(input);
      if codepoint < minimum || codepoint > 0x10FFFF || (0xD800 <= codepoint <= 0xDFFF) {
        return false;
      }
      input := input[1 + continuationCount..];
    }
    valid := true;
  }
}
