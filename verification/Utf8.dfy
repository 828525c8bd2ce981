/** UTF-8 as RFC 3629 defines it, and the two hand-written validators. */
module Utf8 {
  import opened Bytes

  predicate IsScalar(c: nat) { c < 0xD800 || 0xE000 <= c <= 0x10FFFF }

  /** The encoding of section 3 of RFC 3629. */
  function EncodeScalar(c: nat): (r: seq<byte>)
    requires IsScalar(c)
    ensures 1 <= |r| <= 4
  {
    if c < 0x80 then [c]
    else if c < 0x800 then [0xC0 + c / 64, 0x80 + c % 64]
    else if c < 0x10000 then [0xE0 + c / 4096, 0x80 + c / 64 % 64, 0x80 + c % 64]
    else [0xF0 + c / 262144, 0x80 + c / 4096 % 64, 0x80 + c / 64 % 64, 0x80 + c % 64]
  }

  ghost predicate AllScalars(cs: seq<nat>) {
    forall i :: 0 <= i < |cs| ==> IsScalar(cs[i])
  }

  function Encoded(cs: seq<nat>): seq<byte>
    requires AllScalars(cs)
  {
    if cs == [] then [] else EncodeScalar(cs[0]) + Encoded(cs[1..])
  }

  /** A string of octets is text when it is the encoding of some scalar values. */
  ghost predicate IsText(s: seq<byte>) {
    exists cs :: AllScalars(cs) && Encoded(cs) == s
  }

  predicate Tail(s: seq<byte>, i: nat) { i < |s| && 0x80 <= s[i] <= 0xBF }

  /**
   The length of the character that starts `s`, by the grammar of section 4 of
   RFC 3629; zero when none does.
   */
  function CharLength(s: seq<byte>): (n: nat)
    ensures n <= |s| && n <= 4
  {
    if s == [] then 0
    else if s[0] <= 0x7F then 1
    else if 0xC2 <= s[0] <= 0xDF && Tail(s, 1) then 2
    else if 0xE0 <= s[0] <= 0xEF && Tail(s, 1) && Tail(s, 2)
            && (s[0] == 0xE0 ==> 0xA0 <= s[1]) && (s[0] == 0xED ==> s[1] <= 0x9F) then 3
    else if 0xF0 <= s[0] <= 0xF4 && Tail(s, 1) && Tail(s, 2) && Tail(s, 3)
            && (s[0] == 0xF0 ==> 0x90 <= s[1]) && (s[0] == 0xF4 ==> s[1] <= 0x8F) then 4
    else 0
  }

  /** The scalar value that a character of `n` octets denotes. */
  function CharValue(s: seq<byte>, n: nat): nat
    requires 1 <= n <= 4 && n <= |s|
  {
    if n == 1 then s[0]
    else if n == 2 then Join(s[0] % 32, s[1])
    else if n == 3 then Join(Join(s[0] % 16, s[1]), s[2])
    else Join(Join(Join(s[0] % 8, s[1]), s[2]), s[3])
  }

  /** `(codepoint << 6) | (next & 0x3f)`. */
  function Join(codepoint: nat, next: byte): nat {
    var low: nat := next % 64;
    codepoint * 64 + low
  }

  lemma Unjoin(codepoint: nat, next: byte)
    requires 0x80 <= next <= 0xBF
    ensures Join(codepoint, next) / 64 == codepoint && 0x80 + Join(codepoint, next) % 64 == next
  {}

  lemma Quarter(c: nat)
    ensures c / 4096 == c / 64 / 64 && c / 262144 == c / 64 / 64 / 64
  {}

  /** The grammar delivers encodings of scalar values. */
  lemma CharSound(s: seq<byte>)
    requires CharLength(s) > 0
    ensures var c := CharValue(s, CharLength(s));
            IsScalar(c) && EncodeScalar(c) == s[..CharLength(s)]
  {
    var n := CharLength(s);
    if n == 2 {
      Unjoin(s[0] % 32, s[1]);
    } else if n == 3 {
      CharSound3(s);
    } else if n == 4 {
      CharSound4(s);
    }
  }

  lemma CharSound3(s: seq<byte>)
    requires CharLength(s) == 3
    ensures var c := CharValue(s, 3);
            IsScalar(c) && EncodeScalar(c) == s[..3]
  {
    hide Join;
    var x := Join(s[0] % 16, s[1]);
    Unjoin(s[0] % 16, s[1]);
    Unjoin(x, s[2]);
    Quarter(Join(x, s[2]));
  }

  lemma CharSound4(s: seq<byte>)
    requires CharLength(s) == 4
    ensures var c := CharValue(s, 4);
            IsScalar(c) && EncodeScalar(c) == s[..4]
  {
    hide Join;
    var x := Join(s[0] % 8, s[1]);
    var y := Join(x, s[2]);
    Unjoin(s[0] % 8, s[1]);
    Unjoin(x, s[2]);
    Unjoin(y, s[3]);
    Quarter(Join(y, s[3]));
  }

  /** The grammar misses no encoding, whatever follows it. */
  lemma CharComplete(c: nat, t: seq<byte>)
    requires IsScalar(c)
    ensures CharLength(EncodeScalar(c) + t) == |EncodeScalar(c)|
  {
    var s := EncodeScalar(c) + t;
    if 0x800 <= c < 0x10000 {
      Digits3(c);
    } else if c >= 0x10000 {
      Digits4(c);
    }
  }

  lemma Digits3(c: nat)
    requires 0x800 <= c < 0x10000
    ensures c / 4096 == 0 ==> c / 64 % 64 >= 0x20
    ensures c < 0xD800 && c / 4096 == 13 ==> c / 64 % 64 <= 0x1F
    ensures c >= 0xE000 ==> c / 4096 >= 14
  {
    assert c / 64 == c / 4096 * 64 + c / 64 % 64;
  }

  lemma Digits4(c: nat)
    requires 0x10000 <= c <= 0x10FFFF
    ensures c / 262144 <= 4
    ensures c / 262144 == 0 ==> c / 4096 % 64 >= 0x10
    ensures c / 262144 == 4 ==> c / 4096 % 64 <= 0x0F
  {
    assert c / 4096 == c / 262144 * 64 + c / 4096 % 64;
  }

  /** Text, character by character. */
  predicate ScansAsText(s: seq<byte>) {
    s == [] || (CharLength(s) > 0 && ScansAsText(s[CharLength(s)..]))
  }

  lemma {:induction false} ScanSound(s: seq<byte>) returns (cs: seq<nat>)
    requires ScansAsText(s)
    ensures AllScalars(cs) && Encoded(cs) == s
  {
    hide EncodeScalar, CharLength, CharValue;
    if s == [] {
      cs := [];
    } else {
      var n := CharLength(s);
      CharSound(s);
      var rest := ScanSound(s[n..]);
      cs := [CharValue(s, n)] + rest;
      assert cs[1..] == rest;
    }
  }

  lemma {:induction false} ScanComplete(cs: seq<nat>)
    requires AllScalars(cs)
    ensures ScansAsText(Encoded(cs))
  {
    hide EncodeScalar, CharLength;
    if cs != [] {
      ScanComplete(cs[1..]);
      CharComplete(cs[0], Encoded(cs[1..]));
      var s := Encoded(cs);
      assert s[|EncodeScalar(cs[0])|..] == Encoded(cs[1..]);
    }
  }

  /** Scanning by the grammar accepts exactly the texts. */
  lemma ScanIff(s: seq<byte>)
    ensures ScansAsText(s) <==> IsText(s)
  {
    if ScansAsText(s) {
      var cs := ScanSound(s);
    }
    if cs :| AllScalars(cs) && Encoded(cs) == s {
      ScanComplete(cs);
    }
  }
}
