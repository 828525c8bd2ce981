/**
 SHA-1 as section 6.1.2 of FIPS 180-4 defines it, and the streaming form of the
 WebSocket handshake, whose schedule is the 16-word ring of section 6.1.3.
 */
module Sha1 {
  import opened Bytes
  import S = Sha256

  type Word = S.Word

  const BLOCK: nat := 64

  /** The five working variables a..e. */
  datatype Registers = Registers(a: Word, b: Word, c: Word, d: Word, e: Word)

  const IV: Registers := Registers(0x67452301, 0xEFCDAB89, 0x98BADCFE, 0x10325476, 0xC3D2E1F0)

  function RotateLeft(x: Word, n: Word): Word
    requires n <= 32
  {
    (x << n) | (x >> (32 - n))
  }

  function Parity(x: Word, y: Word, z: Word): Word { x ^ y ^ z }

  /** f_t of section 4.1.1. */
  function Mix(t: nat, x: Word, y: Word, z: Word): Word {
    if t < 20 then S.Choose(x, y, z) else if 40 <= t < 60 then S.Majority(x, y, z) else Parity(x, y, z)
  }

  /** K_t of section 4.2.1. */
  function K(t: nat): Word {
    if t < 20 then 0x5A827999 else if t < 40 then 0x6ED9EBA1 else if t < 60 then 0x8F1BBCDC else 0xCA62C1D6
  }

  /** The 80-word message schedule of section 6.1.2. */
  function Schedule(block: seq<byte>, t: nat): Word
    requires |block| == BLOCK && t < 80
  {
    if t < 16 then S.WordOf(block[4 * t], block[4 * t + 1], block[4 * t + 2], block[4 * t + 3])
    else Expanded(Schedule(block, t - 3), Schedule(block, t - 8), Schedule(block, t - 14), Schedule(block, t - 16))
  }

  function Expanded(w3: Word, w8: Word, w14: Word, w16: Word): Word {
    RotateLeft(w3 ^ w8 ^ w14 ^ w16, 1)
  }

  function Sum(a: Word, f: Word, e: Word, k: Word, w: Word): Word {
    RotateLeft(a, 5) + f + e + k + w
  }

  function Round(r: Registers, t: nat, w: Word): Registers {
    Registers(Sum(r.a, Mix(t, r.b, r.c, r.d), r.e, K(t), w), r.a, RotateLeft(r.b, 30), r.c, r.d)
  }

  function Rounds(r: Registers, block: seq<byte>, t: nat): Registers
    requires |block| == BLOCK && t <= 80
  {
    if t == 0 then r else Round(Rounds(r, block, t - 1), t - 1, Schedule(block, t - 1))
  }

  function Add(r: Registers, s: Registers): Registers {
    Registers(r.a + s.a, r.b + s.b, r.c + s.c, r.d + s.d, r.e + s.e)
  }

  function Compress(r: Registers, block: seq<byte>): Registers
    requires |block| == BLOCK
  {
    Add(r, Rounds(r, block, 80))
  }

  function HashBlocks(m: seq<byte>, n: nat): Registers
    requires BLOCK * n <= |m|
  {
    if n == 0 then IV else Compress(HashBlocks(m, n - 1), m[BLOCK * (n - 1)..BLOCK * n])
  }

  function RegisterBytes(r: Registers): (s: seq<byte>)
    ensures |s| == 20
  {
    S.WordBytes(r.a) + S.WordBytes(r.b) + S.WordBytes(r.c) + S.WordBytes(r.d) + S.WordBytes(r.e)
  }

  /** The hash of a whole message, padded as in section 5.1.1. */
  function Hash(m: seq<byte>): (r: seq<byte>)
    ensures |r| == 20
  {
    var p := S.Pad(m);
    RegisterBytes(HashBlocks(p, |p| / BLOCK))
  }

  lemma {:induction false} HashBlocksPrefix(m: seq<byte>, suffix: seq<byte>, n: nat)
    requires BLOCK * n <= |m|
    ensures HashBlocks(m + suffix, n) == HashBlocks(m, n)
  {
    hide Compress;
    if n > 0 {
      HashBlocksPrefix(m, suffix, n - 1);
      assert (m + suffix)[BLOCK * (n - 1)..BLOCK * n] == m[BLOCK * (n - 1)..BLOCK * n];
    }
  }

  lemma HashBlocksStep(m: seq<byte>, n: nat)
    requires BLOCK * (n + 1) <= |m|
    ensures HashBlocks(m, n + 1) == Compress(HashBlocks(m, n), m[BLOCK * n..BLOCK * (n + 1)])
  {
    hide Compress;
  }

  lemma ScheduleWord(block: seq<byte>, t: nat)
    requires |block| == BLOCK && t < 16
    ensures Schedule(block, t) == S.WordOf(block[4 * t], block[4 * t + 1], block[4 * t + 2], block[4 * t + 3])
  {
    hide S.WordOf;
  }

  lemma ScheduleStep(block: seq<byte>, t: nat)
    requires |block| == BLOCK && 16 <= t < 80
    ensures Schedule(block, t) == Expanded(Schedule(block, t - 3), Schedule(block, t - 8),
                                           Schedule(block, t - 14), Schedule(block, t - 16))
  {
    hide Expanded, S.WordOf;
  }

  lemma RoundsStep(r: Registers, block: seq<byte>, t: nat)
    requires |block| == BLOCK && t < 80
    ensures Rounds(r, block, t + 1) == Round(Rounds(r, block, t), t, Schedule(block, t))
  {
    hide Schedule, Round;
  }

  lemma RoundsNone(r: Registers, block: seq<byte>)
    requires |block| == BLOCK
    ensures Rounds(r, block, 0) == r
  {}

  /** The forms the source uses: disjunctions where the standard has exclusive ors. */
  function ChooseOr(x: Word, y: Word, z: Word): Word { (x & y) | (!x & z) }
  function MajorityOr(x: Word, y: Word, z: Word): Word { (x & y) | (x & z) | (y & z) }

  lemma ChooseForms(x: Word, y: Word, z: Word)
    ensures ChooseOr(x, y, z) == S.Choose(x, y, z)
  {
    assert (x & y) | (!x & z) == (x & y) ^ (!x & z);
  }

  lemma MajorityForms(x: Word, y: Word, z: Word)
    ensures MajorityOr(x, y, z) == S.Majority(x, y, z)
  {
    assert (x & y) | (x & z) | (y & z) == (x & y) ^ (x & z) ^ (y & z);
  }

  class Digest {
    var h: Registers
    var block: array<byte>
    var used: nat
    var bits: nat
    ghost var message: seq<byte>
    ghost var blocks: nat

    /** The block buffer, possibly full, and the chaining value stand for `message`. */
    ghost predicate Filled()
      reads this, block
    {
      && block.Length == BLOCK && used <= BLOCK
      && |message| == BLOCK * blocks + used
      && block[..used] == message[BLOCK * blocks..]
      && h == HashBlocks(message, blocks)
    }

    ghost predicate Valid()
      reads this, block
    {
      Filled() && used < BLOCK && bits == 8 * |message| % TWO_64
    }

    constructor ()
      ensures Valid() && message == [] && fresh(block)
    {
      block := new byte[BLOCK](i => 0);
      h, used, bits := IV, 0, 0;
      message, blocks := [], 0;
    }

    /** The word of round `i`: from the block, then from the ring it replaces the oldest of. */
    method NextWord(w: array<Word>, i: nat)
      requires block.Length == BLOCK && w.Length == 16 && i < 80
      requires forall t :: 0 <= t < i && i - 16 <= t ==> w[t % 16] == Schedule(block[..], t)
      modifies w
      ensures forall t :: 0 <= t <= i && i - 15 <= t ==> w[t % 16] == Schedule(block[..], t)
    {
      hide Schedule, Expanded, S.WordOf, HashBlocks;
      ghost var input := block[..];
      ghost var before := w[..];
      if i < 16 {
        w[i % 16] := S.WordOf(block[i * 4], block[i * 4 + 1], block[i * 4 + 2], block[i * 4 + 3]);
        ScheduleWord(input, i);
      } else {
        w[i % 16] := Expanded(w[(i - 3) % 16], w[(i - 8) % 16], w[(i - 14) % 16], w[(i - 16) % 16]);
        ScheduleStep(input, i);
      }
      forall t | 0 <= t < i && i - 15 <= t
        ensures w[t % 16] == Schedule(input, t)
      {
        assert t % 16 != i % 16;
        assert w[t % 16] == before[t % 16];
      }
    }

    /** One round: its function and constant by its number, then the shift of the registers. */
    method NextRegisters(r: Registers, i: nat, w: Word) returns (s: Registers)
      requires i < 80
      ensures s == Round(r, i, w)
    {
      hide S.Choose, S.Majority, ChooseOr, MajorityOr, Parity, Sum, RotateLeft;
      ChooseForms(r.b, r.c, r.d);
      MajorityForms(r.b, r.c, r.d);
      var f: Word := 0;
      var k: Word := 0;
      if i < 20 {
        f := ChooseOr(r.b, r.c, r.d);
        k := 0x5A827999;
      } else if i < 40 {
        f := Parity(r.b, r.c, r.d);
        k := 0x6ED9EBA1;
      } else if i < 60 {
        f := MajorityOr(r.b, r.c, r.d);
        k := 0x8F1BBCDC;
      } else {
        f := Parity(r.b, r.c, r.d);
        k := 0xCA62C1D6;
      }
      s := Registers(Sum(r.a, f, r.e, k, w), r.a, RotateLeft(r.b, 30), r.c, r.d);
    }

    /** The compression of section 6.1.2 over the 16-word ring. */
    method Process()
      requires block.Length == BLOCK
      modifies this`h
      ensures h == Compress(old(h), block[..])
    {
      hide HashBlocks, Round, Add, Schedule;
      var w := new Word[16](i => 0);
      var r := h;
      ghost var input := block[..];
      RoundsNone(h, input);
      for i := 0 to 80
        invariant block[..] == input && r == Rounds(h, input, i)
        invariant forall t :: 0 <= t < i && i - 16 <= t ==> w[t % 16] == Schedule(input, t)
        modifies w
      {
        NextWord(w, i);
        RoundsStep(h, input, i);
        r := NextRegisters(r, i, w[i % 16]);
      }
      h := Add(h, r);
    }

    /** Copies a piece into the block buffer. */
    method Fill(piece: seq<byte>)
      requires Filled() && used + |piece| <= BLOCK
      modifies this`used, this`message, block
      ensures Filled() && used == old(used) + |piece| && message == old(message) + piece
    {
      hide HashBlocks;
      HashBlocksPrefix(message, piece, blocks);
      forall i | 0 <= i < |piece| {
        block[used + i] := piece[i];
      }
      used := used + |piece|;
      message := message + piece;
      assert block[..used] == old(block[..used]) + piece;
    }

    /** Compresses the full block. */
    method Flush()
      requires Filled() && used == BLOCK
      modifies this`used, this`blocks, this`h
      ensures Filled() && used == 0
    {
      hide HashBlocks, Compress;
      HashBlocksStep(message, blocks);
      assert block[..] == message[BLOCK * blocks..BLOCK * (blocks + 1)];
      Process();
      used := 0;
      blocks := blocks + 1;
    }

    method Absorb(piece: seq<byte>)
      requires Filled() && used < BLOCK && |piece| <= BLOCK - used
      modifies this`used, this`message, this`blocks, this`h, block
      ensures Filled() && used < BLOCK && message == old(message) + piece
    {
      hide HashBlocks;
      Fill(piece);
      if used == BLOCK {
        Flush();
      }
    }

    method Update(input: seq<byte>)
      requires Valid()
      modifies this`bits, this`used, this`message, this`blocks, this`h, block
      ensures Valid() && message == old(message) + input
    {
      hide HashBlocks;
      S.BitCount(|message|, |input|);
      bits := (bits + |input| * 8) % TWO_64;
      AbsorbAll(input);
    }

    method AbsorbAll(input: seq<byte>)
      requires Filled() && used < BLOCK
      modifies this`used, this`message, this`blocks, this`h, block
      ensures Filled() && used < BLOCK && message == old(message) + input
    {
      hide HashBlocks;
      var offset := 0;
      ghost var start := message;
      while offset < |input|
        invariant 0 <= offset <= |input| && message == start + input[..offset]
        invariant Filled() && used < BLOCK
      {
        var length := |input| - offset;
        var copy := if BLOCK - used < length then BLOCK - used else length;
        Absorb(input[offset..offset + copy]);
        assert input[..offset] + input[offset..offset + copy] == input[..offset + copy];
        offset := offset + copy;
      }
      assert input[..offset] == input;
    }

    method FillZeros(limit: nat)
      requires Filled() && used <= limit <= BLOCK
      modifies this`used, this`message, block
      ensures Filled() && used == limit
      ensures message == old(message) + Zeros(limit - old(used))
    {
      hide HashBlocks;
      ghost var start, from := message, used;
      while used < limit
        invariant Filled() && from <= used <= limit
        invariant message == start + Zeros(used - from)
      {
        Fill([0]);
        assert Zeros(used - from) == Zeros(used - 1 - from) + [0];
      }
    }

    /** Pads, compresses what that completes and returns the hash; the digest is used up. */
    method Finish() returns (output: seq<byte>)
      requires Valid()
      modifies this, block
      ensures output == Hash(old(message))
    {
      hide HashBlocks, RegisterBytes;
      ghost var m := message;
      Fill([0x80]);
      ghost var z := 0;
      if used > 56 {
        z := BLOCK - used;
        FillZeros(BLOCK);
        Flush();
      }
      ghost var z1 := 56 - used;
      FillZeros(56);
      assert message == m + [0x80] + Zeros(z + z1) by {
        assert Zeros(z + z1) == Zeros(z) + Zeros(z1);
      }
      Fill(BigEndian(bits, 8));
      Flush();
      S.OnlyZeroCount(|m|, z + z1, blocks);
      output := RegisterBytes(h);
    }
  }

  /** Any split of a message into pieces gives the hash of the whole. */
  method HashPieces(pieces: seq<seq<byte>>) returns (output: seq<byte>)
    ensures output == Hash(Concat(pieces))
  {
    hide Hash;
    var digest := new Digest();
    for i := 0 to |pieces|
      invariant fresh(digest) && fresh(digest.block) && digest.Valid()
      invariant digest.message == Concat(pieces[..i])
    {
      digest.Update(pieces[i]);
      assert pieces[..i + 1][..i] == pieces[..i];
    }
    assert pieces[..|pieces|] == pieces;
    output := digest.Finish();
  }

  function Concat(pieces: seq<seq<byte>>): seq<byte> {
    if pieces == [] then [] else Concat(pieces[..|pieces| - 1]) + pieces[|pieces| - 1]
  }
}
