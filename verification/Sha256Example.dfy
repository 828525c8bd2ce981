/**
 The answer for the message "abc" that accompanies FIPS 180-4: the schedule eight words
 and the rounds four rounds at a time. It pins what the hash functions compute.
 */
module Sha256Example {
  import opened Bytes
  import opened Sha256

  const ABC: seq<byte> := [97, 98, 99]

  /** The one block of the padded message. */
  const ABC_BLOCK: seq<byte> := [97, 98, 99, 0x80] + Zeros(59) + [24]

  lemma Padded()
    ensures Pad(ABC) == ABC_BLOCK
  {
    assert 24 / 256 == 0;
    assert BigEndian(24, 1) == [24];
    ZeroEncoded(7);
    assert BigEndian(24, 8) == BigEndian(0, 7) + [24];
    assert Zeros(59) == Zeros(52) + Zeros(7);
  }

  lemma {:induction false} ZeroEncoded(width: nat)
    ensures BigEndian(0, width) == Zeros(width)
  {
    if width > 0 {
      ZeroEncoded(width - 1);
      assert Zeros(width) == Zeros(width - 1) + [0];
    }
  }

  /** Eight words of the schedule from `t` on. */
  predicate Words(t: nat, w0: Word, w1: Word, w2: Word, w3: Word, w4: Word, w5: Word, w6: Word, w7: Word)
    requires t + 8 <= 64
  {
    var b := ABC_BLOCK;
    && Schedule(b, t) == w0 && Schedule(b, t + 1) == w1 && Schedule(b, t + 2) == w2 && Schedule(b, t + 3) == w3
    && Schedule(b, t + 4) == w4 && Schedule(b, t + 5) == w5 && Schedule(b, t + 6) == w6 && Schedule(b, t + 7) == w7
  }

  lemma Words0()
    ensures Words(0,
                  0x61626380, 0x00000000, 0x00000000, 0x00000000,
                  0x00000000, 0x00000000, 0x00000000, 0x00000000)
  {
    hide Schedule;
    ScheduleWord(ABC_BLOCK, 0); ScheduleWord(ABC_BLOCK, 1); ScheduleWord(ABC_BLOCK, 2); ScheduleWord(ABC_BLOCK, 3);
    ScheduleWord(ABC_BLOCK, 4); ScheduleWord(ABC_BLOCK, 5); ScheduleWord(ABC_BLOCK, 6); ScheduleWord(ABC_BLOCK, 7);
  }

  lemma Words8()
    ensures Words(8,
                  0x00000000, 0x00000000, 0x00000000, 0x00000000,
                  0x00000000, 0x00000000, 0x00000000, 0x00000018)
  {
    hide Schedule;
    ScheduleWord(ABC_BLOCK, 8); ScheduleWord(ABC_BLOCK, 9); ScheduleWord(ABC_BLOCK, 10); ScheduleWord(ABC_BLOCK, 11);
    ScheduleWord(ABC_BLOCK, 12); ScheduleWord(ABC_BLOCK, 13); ScheduleWord(ABC_BLOCK, 14); ScheduleWord(ABC_BLOCK, 15);
  }

  lemma Words16()
    ensures Words(16,
                  0x61626380, 0x000f0000, 0x7da86405, 0x600003c6,
                  0x3e9d7b78, 0x0183fc00, 0x12dcbfdb, 0xe2e2c38e)
  {
    hide Schedule;
    Words0();
    Words8();
    ScheduleStep(ABC_BLOCK, 16); ScheduleStep(ABC_BLOCK, 17); ScheduleStep(ABC_BLOCK, 18); ScheduleStep(ABC_BLOCK, 19);
    assert Schedule(ABC_BLOCK, 16) == 0x61626380 && Schedule(ABC_BLOCK, 17) == 0x000f0000;
    ScheduleStep(ABC_BLOCK, 20); ScheduleStep(ABC_BLOCK, 21); ScheduleStep(ABC_BLOCK, 22); ScheduleStep(ABC_BLOCK, 23);
  }

  lemma Words24()
    ensures Words(24,
                  0xc8215c1a, 0xb73679a2, 0xe5bc3909, 0x32663c5b,
                  0x9d209d67, 0xec8726cb, 0x702138a4, 0xd3b7973b)
  {
    hide Schedule;
    Words8();
    Words16();
    ScheduleStep(ABC_BLOCK, 24); ScheduleStep(ABC_BLOCK, 25); ScheduleStep(ABC_BLOCK, 26); ScheduleStep(ABC_BLOCK, 27);
    assert Schedule(ABC_BLOCK, 24) == 0xc8215c1a && Schedule(ABC_BLOCK, 25) == 0xb73679a2;
    ScheduleStep(ABC_BLOCK, 28); ScheduleStep(ABC_BLOCK, 29); ScheduleStep(ABC_BLOCK, 30); ScheduleStep(ABC_BLOCK, 31);
  }

  lemma Words32()
    ensures Words(32,
                  0x93f5997f, 0x3b68ba73, 0xaff4ffc1, 0xf10a5c62,
                  0x0a8b3996, 0x72af830a, 0x9409e33e, 0x24641522)
  {
    hide Schedule;
    Words16();
    Words24();
    ScheduleStep(ABC_BLOCK, 32); ScheduleStep(ABC_BLOCK, 33); ScheduleStep(ABC_BLOCK, 34); ScheduleStep(ABC_BLOCK, 35);
    assert Schedule(ABC_BLOCK, 32) == 0x93f5997f && Schedule(ABC_BLOCK, 33) == 0x3b68ba73;
    ScheduleStep(ABC_BLOCK, 36); ScheduleStep(ABC_BLOCK, 37); ScheduleStep(ABC_BLOCK, 38); ScheduleStep(ABC_BLOCK, 39);
  }

  lemma Words40()
    ensures Words(40,
                  0x9f47bf94, 0xf0a64f5a, 0x3e246a79, 0x27333ba3,
                  0x0c4763f2, 0x840abf27, 0x7a290d5d, 0x065c43da)
  {
    hide Schedule;
    Words24();
    Words32();
    ScheduleStep(ABC_BLOCK, 40); ScheduleStep(ABC_BLOCK, 41); ScheduleStep(ABC_BLOCK, 42); ScheduleStep(ABC_BLOCK, 43);
    assert Schedule(ABC_BLOCK, 40) == 0x9f47bf94 && Schedule(ABC_BLOCK, 41) == 0xf0a64f5a;
    ScheduleStep(ABC_BLOCK, 44); ScheduleStep(ABC_BLOCK, 45); ScheduleStep(ABC_BLOCK, 46); ScheduleStep(ABC_BLOCK, 47);
  }

  lemma Words48()
    ensures Words(48,
                  0xfb3e89cb, 0xcc7617db, 0xb9e66c34, 0xa9993667,
                  0x84badedd, 0xc21462bc, 0x1487472c, 0xb20f7a99)
  {
    hide Schedule;
    Words32();
    Words40();
    ScheduleStep(ABC_BLOCK, 48); ScheduleStep(ABC_BLOCK, 49); ScheduleStep(ABC_BLOCK, 50); ScheduleStep(ABC_BLOCK, 51);
    assert Schedule(ABC_BLOCK, 48) == 0xfb3e89cb && Schedule(ABC_BLOCK, 49) == 0xcc7617db;
    ScheduleStep(ABC_BLOCK, 52); ScheduleStep(ABC_BLOCK, 53); ScheduleStep(ABC_BLOCK, 54); ScheduleStep(ABC_BLOCK, 55);
  }

  lemma Words56()
    ensures Words(56,
                  0xef57b9cd, 0xebe6b238, 0x9fe3095e, 0x78bc8d4b,
                  0xa43fcf15, 0x668b2ff8, 0xeeaba2cc, 0x12b1edeb)
  {
    hide Schedule;
    Words40();
    Words48();
    ScheduleStep(ABC_BLOCK, 56); ScheduleStep(ABC_BLOCK, 57); ScheduleStep(ABC_BLOCK, 58); ScheduleStep(ABC_BLOCK, 59);
    assert Schedule(ABC_BLOCK, 56) == 0xef57b9cd && Schedule(ABC_BLOCK, 57) == 0xebe6b238;
    ScheduleStep(ABC_BLOCK, 60); ScheduleStep(ABC_BLOCK, 61); ScheduleStep(ABC_BLOCK, 62); ScheduleStep(ABC_BLOCK, 63);
  }

  lemma Rounds4()
    ensures Rounds(IV, ABC_BLOCK, 4) == Registers(
              0xd550f666, 0xc8c347a7, 0x5a6ad9ad, 0x5d6aebcd,
              0x24e00850, 0xf92939eb, 0x78ce7989, 0xfa2a4622)
  {
    hide Schedule, Rounds;
    RoundsNone(IV, ABC_BLOCK);
    Words0();
    assert K[0] == 0x428a2f98 && K[1] == 0x71374491 && K[2] == 0xb5c0fbcf && K[3] == 0xe9b5dba5;
    RoundsStep(IV, ABC_BLOCK, 0); RoundsStep(IV, ABC_BLOCK, 1); RoundsStep(IV, ABC_BLOCK, 2); RoundsStep(IV, ABC_BLOCK, 3);
  }

  lemma Rounds8()
    ensures Rounds(IV, ABC_BLOCK, 8) == Registers(
              0x85a07b5f, 0xe5030380, 0x2b4209f5, 0x04409a6a,
              0x0c657a79, 0x9b27a401, 0x714260ad, 0x43ada245)
  {
    hide Schedule, Rounds;
    Rounds4();
    Words0();
    assert K[4] == 0x3956c25b && K[5] == 0x59f111f1 && K[6] == 0x923f82a4 && K[7] == 0xab1c5ed5;
    RoundsStep(IV, ABC_BLOCK, 4); RoundsStep(IV, ABC_BLOCK, 5); RoundsStep(IV, ABC_BLOCK, 6); RoundsStep(IV, ABC_BLOCK, 7);
  }

  lemma Rounds12()
    ensures Rounds(IV, ABC_BLOCK, 12) == Registers(
              0xf71fc5a9, 0x4798a3f4, 0x8c87346b, 0x8e04ecb9,
              0x816fd6e9, 0x436b23e8, 0x1cc92596, 0x32ca2d8c)
  {
    hide Schedule, Rounds;
    Rounds8();
    Words8();
    assert K[8] == 0xd807aa98 && K[9] == 0x12835b01 && K[10] == 0x243185be && K[11] == 0x550c7dc3;
    RoundsStep(IV, ABC_BLOCK, 8); RoundsStep(IV, ABC_BLOCK, 9); RoundsStep(IV, ABC_BLOCK, 10); RoundsStep(IV, ABC_BLOCK, 11);
  }

  lemma Rounds16()
    ensures Rounds(IV, ABC_BLOCK, 16) == Registers(
              0xb0fa238e, 0xc0645fde, 0xd932eb16, 0x87912990,
              0x07590dcd, 0x0b92f20c, 0x745a48de, 0x1e578218)
  {
    hide Schedule, Rounds;
    Rounds12();
    Words8();
    assert K[12] == 0x72be5d74 && K[13] == 0x80deb1fe && K[14] == 0x9bdc06a7 && K[15] == 0xc19bf174;
    RoundsStep(IV, ABC_BLOCK, 12); RoundsStep(IV, ABC_BLOCK, 13); RoundsStep(IV, ABC_BLOCK, 14); RoundsStep(IV, ABC_BLOCK, 15);
  }

  lemma Rounds20()
    ensures Rounds(IV, ABC_BLOCK, 20) == Registers(
              0xe1f20c33, 0xfe777bbf, 0xc2fbd9d1, 0x21da9a9b,
              0xb0638179, 0xcc899961, 0x846ee454, 0x8034229c)
  {
    hide Schedule, Rounds;
    Rounds16();
    Words16();
    assert K[16] == 0xe49b69c1 && K[17] == 0xefbe4786 && K[18] == 0x0fc19dc6 && K[19] == 0x240ca1cc;
    RoundsStep(IV, ABC_BLOCK, 16); RoundsStep(IV, ABC_BLOCK, 17); RoundsStep(IV, ABC_BLOCK, 18); RoundsStep(IV, ABC_BLOCK, 19);
  }

  lemma Rounds24()
    ensures Rounds(IV, ABC_BLOCK, 24) == Registers(
              0xc5d53d8d, 0xa7a3623f, 0xc2606d6d, 0x9dc68b63,
              0xaa47c347, 0x49f5114a, 0xe1257970, 0x8ada8930)
  {
    hide Schedule, Rounds;
    Rounds20();
    Words16();
    assert K[20] == 0x2de92c6f && K[21] == 0x4a7484aa && K[22] == 0x5cb0a9dc && K[23] == 0x76f988da;
    RoundsStep(IV, ABC_BLOCK, 20); RoundsStep(IV, ABC_BLOCK, 21); RoundsStep(IV, ABC_BLOCK, 22); RoundsStep(IV, ABC_BLOCK, 23);
  }

  lemma Rounds28()
    ensures Rounds(IV, ABC_BLOCK, 28) == Registers(
              0x77d37528, 0xb62ec4bc, 0xcde8037d, 0x1c2c2838,
              0xedffbff8, 0xc74c6516, 0x14383d8e, 0x2823ef91)
  {
    hide Schedule, Rounds;
    Rounds24();
    Words24();
    assert K[24] == 0x983e5152 && K[25] == 0xa831c66d && K[26] == 0xb00327c8 && K[27] == 0xbf597fc7;
    RoundsStep(IV, ABC_BLOCK, 24); RoundsStep(IV, ABC_BLOCK, 25); RoundsStep(IV, ABC_BLOCK, 26); RoundsStep(IV, ABC_BLOCK, 27);
  }

  lemma Rounds32()
    ensures Rounds(IV, ABC_BLOCK, 32) == Registers(
              0x73b33bf5, 0xea992a22, 0xa0060b30, 0x363482c9,
              0xba591112, 0x0109ab3a, 0xade79437, 0x6112a3b7)
  {
    hide Schedule, Rounds;
    Rounds28();
    Words24();
    assert K[28] == 0xc6e00bf3 && K[29] == 0xd5a79147 && K[30] == 0x06ca6351 && K[31] == 0x14292967;
    RoundsStep(IV, ABC_BLOCK, 28); RoundsStep(IV, ABC_BLOCK, 29); RoundsStep(IV, ABC_BLOCK, 30); RoundsStep(IV, ABC_BLOCK, 31);
  }

  lemma Rounds36()
    ensures Rounds(IV, ABC_BLOCK, 36) == Registers(
              0x65a0cfe4, 0xa9a7738c, 0xfe604df5, 0x98e12507,
              0xf4b002d6, 0x085f3833, 0x59249dd3, 0x9cd9f5f6)
  {
    hide Schedule, Rounds;
    Rounds32();
    Words32();
    assert K[32] == 0x27b70a85 && K[33] == 0x2e1b2138 && K[34] == 0x4d2c6dfc && K[35] == 0x53380d13;
    RoundsStep(IV, ABC_BLOCK, 32); RoundsStep(IV, ABC_BLOCK, 33); RoundsStep(IV, ABC_BLOCK, 34); RoundsStep(IV, ABC_BLOCK, 35);
  }

  lemma Rounds40()
    ensures Rounds(IV, ABC_BLOCK, 40) == Registers(
              0x79ea687a, 0x6dc57a8a, 0x34df1604, 0x41a65cb1,
              0x1efbc0a0, 0xf0781bc8, 0xa507a53d, 0x0772a26b)
  {
    hide Schedule, Rounds;
    Rounds36();
    Words32();
    assert K[36] == 0x650a7354 && K[37] == 0x766a0abb && K[38] == 0x81c2c92e && K[39] == 0x92722c85;
    RoundsStep(IV, ABC_BLOCK, 36); RoundsStep(IV, ABC_BLOCK, 37); RoundsStep(IV, ABC_BLOCK, 38); RoundsStep(IV, ABC_BLOCK, 39);
  }

  lemma Rounds44()
    ensures Rounds(IV, ABC_BLOCK, 44) == Registers(
              0x9d4baf93, 0x17aa0dfe, 0xdf46652f, 0xd6670766,
              0xfda24c2e, 0xdecd4715, 0x838b2711, 0x26352d63)
  {
    hide Schedule, Rounds;
    Rounds40();
    Words40();
    assert K[40] == 0xa2bfe8a1 && K[41] == 0xa81a664b && K[42] == 0xc24b8b70 && K[43] == 0xc76c51a3;
    RoundsStep(IV, ABC_BLOCK, 40); RoundsStep(IV, ABC_BLOCK, 41); RoundsStep(IV, ABC_BLOCK, 42); RoundsStep(IV, ABC_BLOCK, 43);
  }

  lemma Rounds48()
    ensures Rounds(IV, ABC_BLOCK, 48) == Registers(
              0x4172328d, 0xa14c14b0, 0x72ab4b91, 0x26628815,
              0xfecf0bc6, 0xd57b94a9, 0xb7755da1, 0xa80f11f0)
  {
    hide Schedule, Rounds;
    Rounds44();
    Words40();
    assert K[44] == 0xd192e819 && K[45] == 0xd6990624 && K[46] == 0xf40e3585 && K[47] == 0x106aa070;
    RoundsStep(IV, ABC_BLOCK, 44); RoundsStep(IV, ABC_BLOCK, 45); RoundsStep(IV, ABC_BLOCK, 46); RoundsStep(IV, ABC_BLOCK, 47);
  }

  lemma Rounds52()
    ensures Rounds(IV, ABC_BLOCK, 52) == Registers(
              0x886e7a22, 0x7a0508a1, 0xf11bfaa8, 0x05757ceb,
              0x49231c1e, 0x52f1ccf7, 0x6e5c390c, 0xbd714038)
  {
    hide Schedule, Rounds;
    Rounds48();
    Words48();
    assert K[48] == 0x19a4c116 && K[49] == 0x1e376c08 && K[50] == 0x2748774c && K[51] == 0x34b0bcb5;
    RoundsStep(IV, ABC_BLOCK, 48); RoundsStep(IV, ABC_BLOCK, 49); RoundsStep(IV, ABC_BLOCK, 50); RoundsStep(IV, ABC_BLOCK, 51);
  }

  lemma Rounds56()
    ensures Rounds(IV, ABC_BLOCK, 56) == Registers(
              0x38cc9913, 0x3ec45cdb, 0xf5702fdb, 0x101fd28f,
              0x54cb266b, 0xe50e1b4f, 0x9f4787c3, 0x529e7d00)
  {
    hide Schedule, Rounds;
    Rounds52();
    Words48();
    assert K[52] == 0x391c0cb3 && K[53] == 0x4ed8aa4a && K[54] == 0x5b9cca4f && K[55] == 0x682e6ff3;
    RoundsStep(IV, ABC_BLOCK, 52); RoundsStep(IV, ABC_BLOCK, 53); RoundsStep(IV, ABC_BLOCK, 54); RoundsStep(IV, ABC_BLOCK, 55);
  }

  lemma Rounds60()
    ensures Rounds(IV, ABC_BLOCK, 60) == Registers(
              0xb6ae8fff, 0xffb70472, 0xc062d46f, 0xfcd1887b,
              0xb21bad3d, 0x6d83bfc6, 0x7e44008e, 0x9b5e906c)
  {
    hide Schedule, Rounds;
    Rounds56();
    Words56();
    assert K[56] == 0x748f82ee && K[57] == 0x78a5636f && K[58] == 0x84c87814 && K[59] == 0x8cc70208;
    RoundsStep(IV, ABC_BLOCK, 56); RoundsStep(IV, ABC_BLOCK, 57); RoundsStep(IV, ABC_BLOCK, 58); RoundsStep(IV, ABC_BLOCK, 59);
  }

  lemma Rounds64()
    ensures Rounds(IV, ABC_BLOCK, 64) == Registers(
              0x506e3058, 0xd39a2165, 0x04d24d6c, 0xb85e2ce9,
              0x5ef50f24, 0xfb121210, 0x948d25b6, 0x961f4894)
  {
    hide Schedule, Rounds;
    Rounds60();
    Words56();
    assert K[60] == 0x90befffa && K[61] == 0xa4506ceb && K[62] == 0xbef9a3f7 && K[63] == 0xc67178f2;
    RoundsStep(IV, ABC_BLOCK, 60); RoundsStep(IV, ABC_BLOCK, 61); RoundsStep(IV, ABC_BLOCK, 62); RoundsStep(IV, ABC_BLOCK, 63);
  }

  /** The published digest. */
  lemma AbcHash()
    ensures Hash(ABC) == [
              0xba, 0x78, 0x16, 0xbf, 0x8f, 0x01, 0xcf, 0xea,
              0x41, 0x41, 0x40, 0xde, 0x5d, 0xae, 0x22, 0x23,
              0xb0, 0x03, 0x61, 0xa3, 0x96, 0x17, 0x7a, 0x9c,
              0xb4, 0x10, 0xff, 0x61, 0xf2, 0x00, 0x15, 0xad]
  {
    hide Rounds, Schedule;
    Padded();
    Rounds64();
    HashBlocksStep(ABC_BLOCK, 0);
    assert ABC_BLOCK[BLOCK * 0..BLOCK * 1] == ABC_BLOCK;
  }
}
