/**
 The secure hash algorithm of FIPS 180-4, sections 5.1.1, 5.3.3 and 6.2.2, as a
 function of the whole message. `ConfigurationDigest` computes it piecewise.
 */
module Sha256 {
  import opened Bytes

  type Word = bv32

  const BLOCK: nat := 64

  /** The eight working variables a..h. */
  datatype Registers = Registers(a: Word, b: Word, c: Word, d: Word, e: Word, f: Word, g: Word, h: Word)

  const IV: Registers := Registers(
    0x6a09e667, 0xbb67ae85, 0x3c6ef372, 0xa54ff53a,
    0x510e527f, 0x9b05688c, 0x1f83d9ab, 0x5be0cd19)

  const K: seq<Word> :=
    [0x428a2f98, 0x71374491, 0xb5c0fbcf, 0xe9b5dba5, 0x3956c25b, 0x59f111f1, 0x923f82a4, 0xab1c5ed5]
    + [0xd807aa98, 0x12835b01, 0x243185be, 0x550c7dc3, 0x72be5d74, 0x80deb1fe, 0x9bdc06a7, 0xc19bf174]
    + [0xe49b69c1, 0xefbe4786, 0x0fc19dc6, 0x240ca1cc, 0x2de92c6f, 0x4a7484aa, 0x5cb0a9dc, 0x76f988da]
    + [0x983e5152, 0xa831c66d, 0xb00327c8, 0xbf597fc7, 0xc6e00bf3, 0xd5a79147, 0x06ca6351, 0x14292967]
    + [0x27b70a85, 0x2e1b2138, 0x4d2c6dfc, 0x53380d13, 0x650a7354, 0x766a0abb, 0x81c2c92e, 0x92722c85]
    + [0xa2bfe8a1, 0xa81a664b, 0xc24b8b70, 0xc76c51a3, 0xd192e819, 0xd6990624, 0xf40e3585, 0x106aa070]
    + [0x19a4c116, 0x1e376c08, 0x2748774c, 0x34b0bcb5, 0x391c0cb3, 0x4ed8aa4a, 0x5b9cca4f, 0x682e6ff3]
    + [0x748f82ee, 0x78a5636f, 0x84c87814, 0x8cc70208, 0x90befffa, 0xa4506ceb, 0xbef9a3f7, 0xc67178f2]

  function RotateRight(x: Word, n: Word): Word
    requires n <= 32
  {
    (x >> n) | (x << (32 - n))
  }

  function Choose(x: Word, y: Word, z: Word): Word { (x & y) ^ (!x & z) }
  function Majority(x: Word, y: Word, z: Word): Word { (x & y) ^ (x & z) ^ (y & z) }

  /** Choice takes the bits of `y` where `x` is set and those of `z` elsewhere. */
  lemma ChooseTakes(x: Word, y: Word, z: Word)
    ensures Choose(x, y, z) & x == y & x && Choose(x, y, z) & !x == z & !x
  {}

  /** Two equal words are the majority. */
  lemma MajorityOfTwo(x: Word, y: Word)
    ensures Majority(x, x, y) == x && Majority(x, y, x) == x && Majority(y, x, x) == x
  {}

  function BigSigma0(x: Word): Word { RotateRight(x, 2) ^ RotateRight(x, 13) ^ RotateRight(x, 22) }
  function BigSigma1(x: Word): Word { RotateRight(x, 6) ^ RotateRight(x, 11) ^ RotateRight(x, 25) }
  function SmallSigma0(x: Word): Word { RotateRight(x, 7) ^ RotateRight(x, 18) ^ (x >> (3 as Word)) }
  function SmallSigma1(x: Word): Word { RotateRight(x, 17) ^ RotateRight(x, 19) ^ (x >> (10 as Word)) }

  function WordOf(b0: byte, b1: byte, b2: byte, b3: byte): Word {
    ((b0 as bv8 as Word) << (24 as Word)) | ((b1 as bv8 as Word) << (16 as Word))
    | ((b2 as bv8 as Word) << (8 as Word)) | (b3 as bv8 as Word)
  }

  function WordBytes(w: Word): (r: seq<byte>)
    ensures |r| == 4
  {
    [((w >> 24) & 0xFF) as bv8 as int, ((w >> 16) & 0xFF) as bv8 as int,
     ((w >> 8) & 0xFF) as bv8 as int, (w & 0xFF) as bv8 as int]
  }

  /** The message schedule W_t of section 6.2.2. */
  function Schedule(block: seq<byte>, t: nat): Word
    requires |block| == BLOCK && t < 64
  {
    if t < 16 then WordOf(block[4 * t], block[4 * t + 1], block[4 * t + 2], block[4 * t + 3])
    else Mix(Schedule(block, t - 2), Schedule(block, t - 7), Schedule(block, t - 15), Schedule(block, t - 16))
  }

  function Mix(w2: Word, w7: Word, w15: Word, w16: Word): Word {
    SmallSigma1(w2) + w7 + SmallSigma0(w15) + w16
  }

  /** The word the expansion loop stores: its sum is in another order than W_t. */
  function Expanded(w16: Word, w15: Word, w7: Word, w2: Word): Word {
    w16 + SmallSigma0(w15) + w7 + SmallSigma1(w2)
  }

  lemma ExpandedIsMix(w16: Word, w15: Word, w7: Word, w2: Word)
    ensures Expanded(w16, w15, w7, w2) == Mix(w2, w7, w15, w16)
  {
    hide SmallSigma0, SmallSigma1;
  }

  lemma ScheduleWord(block: seq<byte>, t: nat)
    requires |block| == BLOCK && t < 16
    ensures Schedule(block, t) == WordOf(block[4 * t], block[4 * t + 1], block[4 * t + 2], block[4 * t + 3])
  {
    hide WordOf;
  }

  lemma ScheduleStep(block: seq<byte>, t: nat)
    requires |block| == BLOCK && 16 <= t < 64
    ensures Schedule(block, t) == Expanded(Schedule(block, t - 16), Schedule(block, t - 15),
                                           Schedule(block, t - 7), Schedule(block, t - 2))
  {
    hide Expanded, Mix, WordOf;
    ExpandedIsMix(Schedule(block, t - 16), Schedule(block, t - 15), Schedule(block, t - 7), Schedule(block, t - 2));
  }

  function Round(r: Registers, k: Word, w: Word): Registers {
    var t1 := r.h + BigSigma1(r.e) + Choose(r.e, r.f, r.g) + k + w;
    var t2 := BigSigma0(r.a) + Majority(r.a, r.b, r.c);
    Registers(t1 + t2, r.a, r.b, r.c, r.d + t1, r.e, r.f, r.g)
  }

  /** The working variables after the first `t` of the 64 rounds. */
  function Rounds(r: Registers, block: seq<byte>, t: nat): Registers
    requires |block| == BLOCK && t <= 64
  {
    if t == 0 then r else Round(Rounds(r, block, t - 1), K[t - 1], Schedule(block, t - 1))
  }

  function Add(r: Registers, s: Registers): Registers {
    Registers(r.a + s.a, r.b + s.b, r.c + s.c, r.d + s.d, r.e + s.e, r.f + s.f, r.g + s.g, r.h + s.h)
  }

  lemma RoundsStep(r: Registers, block: seq<byte>, t: nat)
    requires |block| == BLOCK && t < 64
    ensures Rounds(r, block, t + 1) == Round(Rounds(r, block, t), K[t], Schedule(block, t))
  {
    hide Schedule, Round;
  }

  lemma RoundsNone(r: Registers, block: seq<byte>)
    requires |block| == BLOCK
    ensures Rounds(r, block, 0) == r
  {}

  function Compress(r: Registers, block: seq<byte>): Registers
    requires |block| == BLOCK
  {
    Add(r, Rounds(r, block, 64))
  }

  /** The chaining value after the first `n` blocks of `m`. */
  function HashBlocks(m: seq<byte>, n: nat): Registers
    requires BLOCK * n <= |m|
  {
    if n == 0 then IV
    else Compress(HashBlocks(m, n - 1), m[BLOCK * (n - 1)..BLOCK * n])
  }

  /** The chaining value depends on the blocks absorbed so far and nothing else. */
  lemma {:induction false} HashBlocksPrefix(m: seq<byte>, suffix: seq<byte>, n: nat)
    requires BLOCK * n <= |m|
    ensures HashBlocks(m + suffix, n) == HashBlocks(m, n)
  {
    hide Compress;
    if n > 0 {
      HashBlocksPrefix(m, suffix, n - 1);
      assert (m + suffix)[BLOCK * (n - 1)..BLOCK * n] == m[BLOCK * (n - 1)..BLOCK * n];
    }
  }

  lemma HashBlocksStep(m: seq<byte>, n: nat)
    requires BLOCK * (n + 1) <= |m|
    ensures HashBlocks(m, n + 1) == Compress(HashBlocks(m, n), m[BLOCK * n..BLOCK * (n + 1)])
  {
    hide Compress;
  }

  /** The number of zero octets between the 0x80 marker and the length field. */
  function ZeroCount(n: nat): (z: nat)
    ensures z < BLOCK
    ensures (n + z + 9) % BLOCK == 0
  {
    (119 - n % BLOCK) % BLOCK
  }

  function Pad(m: seq<byte>): (r: seq<byte>)
    ensures |r| % BLOCK == 0
  {
    var z := ZeroCount(|m|);
    var r := m + [0x80] + Zeros(z) + BigEndian(8 * |m| % TWO_64, 8);
    assert |r| == |m| + z + 9;
    r
  }

  /** The padding zeros that complete the last block are the only ones short of a whole block more. */
  lemma OnlyZeroCount(n: nat, z: nat, blocks: nat)
    requires n + z + 9 == BLOCK * blocks && z < BLOCK
    ensures z == ZeroCount(n)
  {}

  /** The bit counter wraps at 2^64, as the length field does. */
  lemma BitCount(n: nat, k: nat)
    ensures (8 * n % TWO_64 + k * 8) % TWO_64 == 8 * (n + k) % TWO_64
  {}

  function RegisterBytes(r: Registers): (s: seq<byte>)
    ensures |s| == 32
  {
    WordBytes(r.a) + WordBytes(r.b) + WordBytes(r.c) + WordBytes(r.d)
    + WordBytes(r.e) + WordBytes(r.f) + WordBytes(r.g) + WordBytes(r.h)
  }

  function Hash(m: seq<byte>): (r: seq<byte>)
    ensures |r| == 32
  {
    var p := Pad(m);
    RegisterBytes(HashBlocks(p, |p| / BLOCK))
  }
}
