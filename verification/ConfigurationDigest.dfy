/** The streaming SHA-256 that checks a transferred configuration. */
module ConfigurationDigest {
  import opened Bytes
  import opened ConfigurationTypes
  import opened Sha256

  class Digest {
    var state: Registers
    var bitLength: nat
    var buffer: array<byte>
    var bufferLength: nat
    ghost var message: seq<byte>  // everything added since the last reset
    ghost var blocks: nat         // how many whole blocks of it are in `state`

    ghost predicate Shape()
      reads this
    {
      buffer.Length == BLOCK
    }

    /** The block buffer, possibly full, and the chaining value stand for `message`. */
    ghost predicate Filled()
      reads this, buffer
    {
      && Shape()
      && bufferLength <= BLOCK
      && |message| == BLOCK * blocks + bufferLength
      && buffer[..bufferLength] == message[BLOCK * blocks..]
      && state == HashBlocks(message, blocks)
    }

    ghost predicate Valid()
      reads this, buffer
    {
      Filled() && bufferLength < BLOCK && bitLength == 8 * |message| % TWO_64
    }

    constructor ()
      ensures Valid() && message == []
      ensures fresh(buffer)
    {
      buffer := new byte[BLOCK](i => 0);
      bitLength, bufferLength := 0, 0;
      state := IV;
      message, blocks := [], 0;
    }

    method Reset()
      requires Shape()
      modifies this
      ensures buffer == old(buffer)
      ensures Valid() && message == []
    {
      state := IV;
      bitLength := 0;
      bufferLength := 0;
      message, blocks := [], 0;
    }

    /** The 64 schedule words of the buffered block. */
    method Expand() returns (words: array<Word>)
      requires Shape()
      ensures fresh(words) && words.Length == 64
      ensures forall t :: 0 <= t < 64 ==> words[t] == Schedule(buffer[..], t)
    {
      hide Expanded, Schedule, WordOf, HashBlocks;
      ghost var block := buffer[..];
      words := new Word[64](i => 0);
      for i := 0 to 16
        invariant forall t :: 0 <= t < i ==> words[t] == Schedule(block, t)
      {
        words[i] := WordOf(buffer[4 * i], buffer[4 * i + 1], buffer[4 * i + 2], buffer[4 * i + 3]);
        ScheduleWord(block, i);
      }
      for i := 16 to 64
        invariant forall t :: 0 <= t < i ==> words[t] == Schedule(block, t)
      {
        words[i] := Expanded(words[i - 16], words[i - 15], words[i - 7], words[i - 2]);
        ScheduleStep(block, i);
      }
    }

    /** Absorbs the full buffer: the state becomes the FIPS compression of it. */
    method Transform()
      requires Shape()
      modifies this`state
      ensures state == Compress(old(state), buffer[..])
    {
      hide HashBlocks, Round, Add, Schedule;
      ghost var block := buffer[..];
      var words := Expand();
      assert buffer[..] == block;
      var r := state;
      RoundsNone(state, block);
      for i := 0 to 64
        invariant r == Rounds(state, block, i)
        modifies {}
      {
        RoundsStep(state, block, i);
        r := Round(r, K[i], words[i]);
      }
      state := Add(state, r);
    }

    /** Copies a piece into the block buffer, as `memcpy` or a byte store does. */
    method Fill(piece: seq<byte>)
      requires Filled() && bufferLength + |piece| <= BLOCK
      modifies this`bufferLength, this`message, buffer
      ensures Filled() && bufferLength == old(bufferLength) + |piece|
      ensures message == old(message) + piece
    {
      hide HashBlocks;
      HashBlocksPrefix(message, piece, blocks);
      forall i | 0 <= i < |piece| {
        buffer[bufferLength + i] := piece[i];
      }
      bufferLength := bufferLength + |piece|;
      message := message + piece;
      assert buffer[..bufferLength] == old(buffer[..bufferLength]) + piece;
    }

    /** Compresses the full buffer and empties it. */
    method Flush()
      requires Filled() && bufferLength == BLOCK
      modifies this`bufferLength, this`blocks, this`state
      ensures Filled() && bufferLength == 0
    {
      hide HashBlocks, Compress;
      HashBlocksStep(message, blocks);
      assert buffer[..] == message[BLOCK * blocks..BLOCK * (blocks + 1)];
      Transform();
      bufferLength := 0;
      blocks := blocks + 1;
    }

    /** One pass of the loop in `update`. */
    method Absorb(piece: seq<byte>)
      requires Filled() && bufferLength < BLOCK && 0 < |piece| <= BLOCK - bufferLength
      modifies this`bufferLength, this`message, this`blocks, this`state, buffer
      ensures Filled() && bufferLength < BLOCK && message == old(message) + piece
    {
      hide HashBlocks;
      Fill(piece);
      if bufferLength == BLOCK {
        Flush();
      }
    }

    method Update(data: seq<byte>)
      requires Valid()
      modifies this`bitLength, this`bufferLength, this`message, this`blocks, this`state, buffer
      ensures Valid() && message == old(message) + data
    {
      hide HashBlocks;
      if |data| == 0 {
        assert message + data == message;
        return;
      }
      BitCount(|message|, |data|);
      bitLength := (bitLength + |data| * 8) % TWO_64;
      AbsorbAll(data);
    }

    /** The loop of `update`: as much as fits, block after block. */
    method AbsorbAll(data: seq<byte>)
      requires Filled() && bufferLength < BLOCK
      modifies this`bufferLength, this`message, this`blocks, this`state, buffer
      ensures Filled() && bufferLength < BLOCK && message == old(message) + data
    {
      hide HashBlocks;
      var offset := 0;
      ghost var start := message;
      while offset < |data|
        invariant 0 <= offset <= |data|
        invariant message == start + data[..offset]
        invariant Filled() && bufferLength < BLOCK
      {
        var available := BLOCK - bufferLength;
        var copied := if |data| - offset < available then |data| - offset else available;
        Absorb(data[offset..offset + copied]);
        assert data[..offset] + data[offset..offset + copied] == data[..offset + copied];
        offset := offset + copied;
      }
      assert data[..offset] == data;
    }

    /** Adds the persisted form of a record to the hash input. */
    method AddRecord(record: Record)
      requires Valid()
      modifies this`bitLength, this`bufferLength, this`message, this`blocks, this`state, buffer
      ensures Valid() && message == old(message) + Envelope(record)
    {
      hide HashBlocks, BigEndian;
      var envelope := BigEndian(record.sequence, 4) + [record.kind] + BigEndian(|record.body|, 2);
      Update(envelope);
      Update(record.body);
      assert old(message) + envelope + record.body == old(message) + Envelope(record);
    }

    constructor Copy(other: Digest)
      requires other.Valid()
      ensures Valid() && message == other.message
      ensures fresh(buffer)
    {
      state, bitLength, bufferLength := other.state, other.bitLength, other.bufferLength;
      message, blocks := other.message, other.blocks;
      buffer := new byte[BLOCK](i requires 0 <= i < BLOCK && other.buffer.Length == BLOCK reads other, other.buffer =>
        other.buffer[i]);
      new;
      assert buffer[..bufferLength] == other.buffer[..bufferLength];
    }

    /** Stores zero octets up to `limit`, as the two loops of `pad` do. */
    method FillZeros(limit: nat)
      requires Filled() && bufferLength <= limit <= BLOCK
      modifies this`bufferLength, this`message, buffer
      ensures Filled() && bufferLength == limit
      ensures message == old(message) + Zeros(limit - old(bufferLength))
    {
      ghost var start, from := message, bufferLength;
      while bufferLength < limit
        invariant Filled() && from <= bufferLength <= limit
        invariant message == start + Zeros(bufferLength - from)
      {
        Fill([0]);
        assert Zeros(bufferLength - from) == Zeros(bufferLength - 1 - from) + [0];
      }
    }

    /** Appends the FIPS 180-4 padding of section 5.1.1 and compresses what it completes. */
    method PadInPlace()
      requires Valid()
      modifies this, buffer
      ensures Shape()
      ensures message == Pad(old(message)) && BLOCK * blocks == |message|
      ensures state == HashBlocks(message, blocks)
    {
      hide HashBlocks;
      ghost var m := message;
      var length := bitLength;
      Fill([0x80]);
      ghost var z := 0;
      if bufferLength > 56 {
        z := BLOCK - bufferLength;
        FillZeros(BLOCK);
        Flush();
      }
      ghost var z1 := 56 - bufferLength;
      FillZeros(56);
      assert message == m + [0x80] + Zeros(z + z1) by {
        assert Zeros(z + z1) == Zeros(z) + Zeros(z1);
      }
      Fill(BigEndian(length, 8));
      Flush();
      OnlyZeroCount(|m|, z + z1, blocks);
    }

    /** The checksum of everything added so far; this digest can go on. */
    method Finish() returns (output: seq<byte>)
      requires Valid()
      ensures output == Hash(message)
    {
      hide HashBlocks, RegisterBytes;
      var copy := new Digest.Copy(this);
      copy.PadInPlace();
      output := RegisterBytes(copy.state);
    }
  }
}
