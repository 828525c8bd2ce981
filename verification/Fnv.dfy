/** The 32-bit FNV-1a checksum that seals every durable structure. */
module Fnv {
  import opened Bytes

  type Word = w: int | 0 <= w < TWO_32

  const OFFSET_BASIS: Word := 2166136261
  const PRIME: nat := 16777619

  /** Multiplication by the FNV prime in a 32-bit register. */
  function Scale(x: Word): Word { x * PRIME % TWO_32 }

  /** `value ^= octet`, which touches the low eight bits only. */
  function Mix(h: Word, b: byte): (r: Word) {
    h - h % 256 + Xor(h % 256, b)
  }

  function Step(h: Word, b: byte): Word { Scale(Mix(h, b)) }

  function Fnv1a(s: seq<byte>): Word {
    if s == [] then OFFSET_BASIS else Step(Fnv1a(s[..|s| - 1]), s[|s| - 1])
  }

  method Checksum(data: seq<byte>) returns (value: Word)
    ensures value == Fnv1a(data)
  {
    hide Step;
    value := OFFSET_BASIS;
    for i := 0 to |data|
      invariant value == Fnv1a(data[..i])
    {
      value := Step(value, data[i]);
      assert data[..i + 1][..i] == data[..i];
    }
    assert data[..|data|] == data;
  }

  /** The published checksums of the empty message and of "a". */
  lemma KnownAnswers()
    ensures Fnv1a([]) == 0x811C9DC5 && Fnv1a([0x61]) == 0xE40C292C
  {
    hide Xor;
    assert [0x61][..0] == [];
    LowOctet();
  }

  lemma LowOctet()
    ensures Xor(0xC5, 0x61) == 0xA4
  {
    assert XorBits(1, 0, 1) == 1 && XorBits(3, 1, 2) == 2 && XorBits(6, 3, 3) == 5;
    assert XorBits(12, 6, 4) == 10 && XorBits(24, 12, 5) == 20 && XorBits(49, 24, 6) == 41 && XorBits(98, 48, 7) == 82;
  }

  /** The inverse of the prime modulo 2^32. */
  const INVERSE: nat := 0x359c449b

  lemma Undo(x: Word)
    ensures Scale(x) * INVERSE % TWO_32 == x
  {
    var q, r := x * PRIME / TWO_32, Scale(x);
    var k := PRIME * INVERSE / TWO_32;
    assert PRIME * INVERSE == 1 + k * TWO_32;
    calc {
      r * INVERSE;
      (x * PRIME - q * TWO_32) * INVERSE;
      x * (PRIME * INVERSE) - q * INVERSE * TWO_32;
      x + (x * k - q * INVERSE) * TWO_32;
    }
    Remainder(r * INVERSE, x * k - q * INVERSE, x);
  }

  lemma Remainder(n: int, q: int, x: Word)
    requires n == x + q * TWO_32
    ensures n % TWO_32 == x
  {}

  /** The multiplier is odd, so scaling loses nothing. */
  lemma ScaleInjective(x: Word, y: Word)
    requires Scale(x) == Scale(y)
    ensures x == y
  {
    Undo(x);
    Undo(y);
  }

  lemma MixInjective(h: Word, k: Word, b: byte, c: byte)
    requires Mix(h, b) == Mix(k, c)
    ensures b == c ==> h == k
    ensures h == k ==> b == c
  {
    hide Xor;
    XorInjective(h % 256, k % 256, b);
    XorInjective(b, c, h % 256);
  }

  /** A structure with one octet corrupted never passes its checksum. */
  lemma {:induction false} DetectsOneOctet(s: seq<byte>, i: nat, b: byte)
    requires i < |s| && b != s[i]
    ensures Fnv1a(s[i := b]) != Fnv1a(s)
  {
    hide Scale, Mix;
    var t := s[i := b];
    var n := |s| - 1;
    if i < n {
      assert t[..n] == s[..n][i := b];
      DetectsOneOctet(s[..n], i, b);
    } else {
      assert t[..n] == s[..n];
    }
    if Fnv1a(t) == Fnv1a(s) {
      ScaleInjective(Mix(Fnv1a(t[..n]), t[n]), Mix(Fnv1a(s[..n]), s[n]));
      MixInjective(Fnv1a(t[..n]), Fnv1a(s[..n]), t[n], s[n]);
    }
  }
}
