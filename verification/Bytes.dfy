/** Octets and big-endian integers, shared by the codecs and the hashes. */
module Bytes {

  type byte = b: int | 0 <= b < 256

  const TWO_64: nat := 0x1_0000_0000_0000_0000
  const TWO_32: nat := 0x1_0000_0000

  /** A run of `n` zero octets, as `memset` or a padding loop writes it. */
  function Zeros(n: nat): (r: seq<byte>)
    ensures |r| == n
    ensures forall i :: 0 <= i < n ==> r[i] == 0
  {
    seq(n, i => 0)
  }

  function Pow256(n: nat): (r: nat)
    ensures r > 0
  {
    if n == 0 then 1 else 256 * Pow256(n - 1)
  }

  /** The big-endian encoding of `value` in `width` octets, high bits dropped. */
  function BigEndian(value: nat, width: nat): (r: seq<byte>)
    ensures |r| == width
  {
    if width == 0 then [] else BigEndian(value / 256, width - 1) + [value % 256]
  }

  /** The in-memory image of an integer field on the little-endian targets. */
  function LittleEndian(value: nat, width: nat): (r: seq<byte>)
    ensures |r| == width
  {
    if width == 0 then [] else [value % 256] + LittleEndian(value / 256, width - 1)
  }

  lemma {:induction false} LittleEndianInjective(v: nat, w: nat, width: nat)
    requires v < Pow256(width) && w < Pow256(width) && LittleEndian(v, width) == LittleEndian(w, width)
    ensures v == w
  {
    if width > 0 {
      assert LittleEndian(v, width)[1..] == LittleEndian(v / 256, width - 1);
      assert LittleEndian(w, width)[1..] == LittleEndian(w / 256, width - 1);
      assert LittleEndian(v, width)[0] == LittleEndian(w, width)[0];
      LittleEndianInjective(v / 256, w / 256, width - 1);
    }
  }

  /** Two fields in a row are determined by their image. */
  lemma SplitAt(a: seq<byte>, b: seq<byte>, c: seq<byte>, d: seq<byte>)
    requires |a| == |c| && a + b == c + d
    ensures a == c && b == d
  {
    assert a == (a + b)[..|a|] && b == (a + b)[|a|..];
  }

  /** The integer a big-endian octet string denotes. */
  function FromBigEndian(s: seq<byte>): nat {
    if s == [] then 0 else FromBigEndian(s[..|s| - 1]) * 256 + s[|s| - 1]
  }

  lemma {:induction false} FromBigEndianBound(s: seq<byte>)
    ensures FromBigEndian(s) < Pow256(|s|)
  {
    if s != [] {
      FromBigEndianBound(s[..|s| - 1]);
    }
  }

  lemma {:induction false} BigEndianRoundTrip(value: nat, width: nat)
    requires value < Pow256(width)
    ensures FromBigEndian(BigEndian(value, width)) == value
  {
    if width > 0 {
      BigEndianRoundTrip(value / 256, width - 1);
      var s := BigEndian(value, width);
      assert s[..|s| - 1] == BigEndian(value / 256, width - 1);
    }
  }

  lemma Powers()
    ensures Pow256(1) == 256 && Pow256(2) == 65536 && Pow256(4) == TWO_32 && Pow256(8) == TWO_64
  {
    assert Pow256(3) == 256 * Pow256(2);
    assert Pow256(5) == 256 * Pow256(4);
    assert Pow256(6) == 256 * Pow256(5);
    assert Pow256(7) == 256 * Pow256(6);
  }

  lemma TwoOctets(high: byte, low: byte)
    ensures FromBigEndian([high, low]) == high as nat * 256 + low
  {
    assert [high, low][..1] == [high] && [high][..0] == [];
    assert FromBigEndian([high]) == high;
  }

  /** An octet of the encoding is a shift of the value. */
  lemma {:induction false} BigEndianAt(value: nat, width: nat, i: nat)
    requires i < width
    ensures BigEndian(value, width)[i] == value / Pow256(width - 1 - i) % 256
  {
    if i < width - 1 {
      BigEndianAt(value / 256, width - 1, i);
      DivideTwice(value, Pow256(width - 2 - i));
    }
  }

  lemma DivideTwice(x: nat, b: nat)
    requires b > 0
    ensures x / 256 / b == x / (256 * b)
  {
    var u := x / 256;
    var q, r := u / b, u % b;
    var p := b * q;
    assert u == p + r;
    Reassociate(b, q);
    UniqueQuotient(x, 256 * b, q, 256 * r + x % 256);
  }

  lemma Reassociate(b: nat, q: nat)
    ensures (256 * b) * q == 256 * (b * q)
  {}

  lemma UniqueQuotient(x: nat, c: nat, q: nat, r: nat)
    requires c > 0 && x == c * q + r && r < c
    ensures x / c == q
  {
    UniqueRemainder(x, c, q, r);
    assert c * (x / c - q) == 0;
  }

  lemma {:induction false} FromBigEndianRoundTrip(s: seq<byte>)
    ensures BigEndian(FromBigEndian(s), |s|) == s
  {
    if s != [] {
      var front, last := s[..|s| - 1], s[|s| - 1];
      FromBigEndianRoundTrip(front);
      var v := FromBigEndian(s);
      assert v / 256 == FromBigEndian(front) && v % 256 == last;
      assert s == front + [last];
    }
  }

  function Pow2(n: nat): (r: nat)
    ensures r > 0
  {
    if n == 0 then 1 else 2 * Pow2(n - 1)
  }

  /** Exclusive or of the low `n` bits. */
  function XorBits(x: nat, y: nat, n: nat): (r: nat)
    ensures r < Pow2(n)
  {
    if n == 0 then 0 else 2 * XorBits(x / 2, y / 2, n - 1) + (x + y) % 2
  }

  function Xor(x: byte, y: byte): (r: byte) {
    assert Pow2(8) == 256;
    XorBits(x, y, 8)
  }

  lemma XorParity(w: nat, x: nat, y: nat)
    ensures var z := 2 * w + (x + y) % 2; z / 2 == w && (z + y) % 2 == x % 2
  {}

  lemma {:induction false} XorBitsUndo(x: nat, y: nat, n: nat)
    requires x < Pow2(n)
    ensures XorBits(XorBits(x, y, n), y, n) == x
  {
    if n > 0 {
      XorBitsUndo(x / 2, y / 2, n - 1);
      XorParity(XorBits(x / 2, y / 2, n - 1), x, y);
    }
  }

  /** Masking twice with one octet restores the value. */
  lemma XorUndo(x: byte, y: byte)
    ensures Xor(Xor(x, y), y) == x
  {
    assert Pow2(8) == 256;
    XorBitsUndo(x, y, 8);
  }

  lemma {:induction false} XorBitsCommutes(x: nat, y: nat, n: nat)
    ensures XorBits(x, y, n) == XorBits(y, x, n)
  {
    if n > 0 {
      XorBitsCommutes(x / 2, y / 2, n - 1);
    }
  }

  lemma XorInjective(x: byte, y: byte, z: byte)
    ensures Xor(x, z) == Xor(y, z) ==> x == y
    ensures Xor(z, x) == Xor(z, y) ==> x == y
  {
    XorUndo(x, z);
    XorUndo(y, z);
    XorBitsCommutes(x, z, 8);
    XorBitsCommutes(y, z, 8);
  }

  /** The remainder of a number below twice the divisor. */
  lemma SmallRemainder(x: nat, c: nat)
    requires x < 2 * c
    ensures x % c == if x < c then x else x - c
  {
    if x < c {
      UniqueRemainder(x, c, 0, x);
    } else {
      UniqueRemainder(x, c, 1, x - c);
    }
  }

  lemma UniqueRemainder(x: nat, c: nat, q: nat, r: nat)
    requires c > 0 && x == c * q + r && r < c
    ensures x % c == r
  {
    var d := x / c - q;
    assert c * d == r - x % c;
    NoMultipleBetween(c, d);
  }

  lemma NoMultipleBetween(c: int, d: int)
    requires -c < c * d < c
    ensures c * d == 0
  {}
}
