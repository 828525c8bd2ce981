/** The published answer of SHA-1 for the message "abc", as `Sha256Example` does it for SHA-256. */
module Sha1Example {
  import opened Bytes
  import opened Sha1
  import S = Sha256
  import E = Sha256Example

  /** `w` is the square root of `p` scaled by 2^30. */
  predicate ScaledRoot(p: nat, w: Word) {
    var x := w as nat;
    x * x <= p * 0x1000_0000_0000_0000 < (x + 1) * (x + 1)
  }

  /** Where the four constants come from. */
  lemma Constants()
    ensures ScaledRoot(2, K(0)) && ScaledRoot(3, K(20)) && ScaledRoot(5, K(40)) && ScaledRoot(10, K(60))
    ensures K(19) == K(0) && K(39) == K(20) && K(59) == K(40) && K(79) == K(60)
  {}

  /** Eight words of the schedule from `t` on. */
  predicate Words(t: nat, w0: Word, w1: Word, w2: Word, w3: Word, w4: Word, w5: Word, w6: Word, w7: Word)
    requires t + 8 <= 80
  {
    var b := E.ABC_BLOCK;
    && Schedule(b, t) == w0 && Schedule(b, t + 1) == w1 && Schedule(b, t + 2) == w2 && Schedule(b, t + 3) == w3
    && Schedule(b, t + 4) == w4 && Schedule(b, t + 5) == w5 && Schedule(b, t + 6) == w6 && Schedule(b, t + 7) == w7
  }

  lemma Words0()
    ensures Words(0,
                  0x61626380, 0x00000000, 0x00000000, 0x00000000,
                  0x00000000, 0x00000000, 0x00000000, 0x00000000)
  {
    hide Schedule;
    ScheduleWord(E.ABC_BLOCK, 0); ScheduleWord(E.ABC_BLOCK, 1); ScheduleWord(E.ABC_BLOCK, 2); ScheduleWord(E.ABC_BLOCK, 3);
    ScheduleWord(E.ABC_BLOCK, 4); ScheduleWord(E.ABC_BLOCK, 5); ScheduleWord(E.ABC_BLOCK, 6); ScheduleWord(E.ABC_BLOCK, 7);
  }

  lemma Words8()
    ensures Words(8,
                  0x00000000, 0x00000000, 0x00000000, 0x00000000,
                  0x00000000, 0x00000000, 0x00000000, 0x00000018)
  {
    hide Schedule;
    ScheduleWord(E.ABC_BLOCK, 8); ScheduleWord(E.ABC_BLOCK, 9); ScheduleWord(E.ABC_BLOCK, 10); ScheduleWord(E.ABC_BLOCK, 11);
    ScheduleWord(E.ABC_BLOCK, 12); ScheduleWord(E.ABC_BLOCK, 13); ScheduleWord(E.ABC_BLOCK, 14); ScheduleWord(E.ABC_BLOCK, 15);
  }

  lemma Words16()
    ensures Words(16,
                  0xc2c4c700, 0x00000000, 0x00000030, 0x85898e01,
                  0x00000000, 0x00000060, 0x0b131c03, 0x00000030)
  {
    hide Schedule;
    Words0();
    Words8();
    ScheduleStep(E.ABC_BLOCK, 16); ScheduleStep(E.ABC_BLOCK, 17); ScheduleStep(E.ABC_BLOCK, 18); ScheduleStep(E.ABC_BLOCK, 19);
    ScheduleStep(E.ABC_BLOCK, 20); ScheduleStep(E.ABC_BLOCK, 21); ScheduleStep(E.ABC_BLOCK, 22); ScheduleStep(E.ABC_BLOCK, 23);
  }

  lemma Words24()
    ensures Words(24,
                  0x85898ec1, 0x16263806, 0x00000000, 0x00000180,
                  0x2c4c700c, 0x000000f0, 0x93afb507, 0x5898e048)
  {
    hide Schedule;
    Words8();
    Words16();
    ScheduleStep(E.ABC_BLOCK, 24); ScheduleStep(E.ABC_BLOCK, 25); ScheduleStep(E.ABC_BLOCK, 26); ScheduleStep(E.ABC_BLOCK, 27);
    ScheduleStep(E.ABC_BLOCK, 28); ScheduleStep(E.ABC_BLOCK, 29); ScheduleStep(E.ABC_BLOCK, 30); ScheduleStep(E.ABC_BLOCK, 31);
  }

  lemma Words32()
    ensures Words(32,
                  0x8e9a9202, 0x00000600, 0xb131c0f0, 0x16263bc6,
                  0x4ebed41e, 0x626380a1, 0x16263806, 0x000018c0)
  {
    hide Schedule;
    Words16();
    Words24();
    ScheduleStep(E.ABC_BLOCK, 32); ScheduleStep(E.ABC_BLOCK, 33); ScheduleStep(E.ABC_BLOCK, 34); ScheduleStep(E.ABC_BLOCK, 35);
    ScheduleStep(E.ABC_BLOCK, 36); ScheduleStep(E.ABC_BLOCK, 37); ScheduleStep(E.ABC_BLOCK, 38); ScheduleStep(E.ABC_BLOCK, 39);
  }

  lemma Words40()
    ensures Words(40,
                  0xd2e138c4, 0x00000f00, 0x3afb5079, 0x898e04e5,
                  0xe2ba3c2b, 0x000060c0, 0x053a37cd, 0x74458547)
  {
    hide Schedule;
    Words24();
    Words32();
    ScheduleStep(E.ABC_BLOCK, 40); ScheduleStep(E.ABC_BLOCK, 41); ScheduleStep(E.ABC_BLOCK, 42); ScheduleStep(E.ABC_BLOCK, 43);
    ScheduleStep(E.ABC_BLOCK, 44); ScheduleStep(E.ABC_BLOCK, 45); ScheduleStep(E.ABC_BLOCK, 46); ScheduleStep(E.ABC_BLOCK, 47);
  }

  lemma Words48()
    ensures Words(48,
                  0xda9415ed, 0x26380a16, 0x626383a1, 0x4ebf54de,
                  0x3835b44b, 0x0000f600, 0x1e84c7a3, 0x98e04d98)
  {
    hide Schedule;
    Words32();
    Words40();
    ScheduleStep(E.ABC_BLOCK, 48); ScheduleStep(E.ABC_BLOCK, 49); ScheduleStep(E.ABC_BLOCK, 50); ScheduleStep(E.ABC_BLOCK, 51);
    ScheduleStep(E.ABC_BLOCK, 52); ScheduleStep(E.ABC_BLOCK, 53); ScheduleStep(E.ABC_BLOCK, 54); ScheduleStep(E.ABC_BLOCK, 55);
  }

  lemma Words56()
    ensures Words(56,
                  0x651d16a0, 0x62658ca1, 0x458544d6, 0x44584cb7,
                  0x7ba06619, 0x6380aea2, 0x0ae55269, 0x627b49a1)
  {
    hide Schedule;
    Words40();
    Words48();
    ScheduleStep(E.ABC_BLOCK, 56); ScheduleStep(E.ABC_BLOCK, 57); ScheduleStep(E.ABC_BLOCK, 58); ScheduleStep(E.ABC_BLOCK, 59);
    ScheduleStep(E.ABC_BLOCK, 60); ScheduleStep(E.ABC_BLOCK, 61); ScheduleStep(E.ABC_BLOCK, 62); ScheduleStep(E.ABC_BLOCK, 63);
  }

  lemma Words64()
    ensures Words(64,
                  0x7cd45c9d, 0x000f0000, 0xfb50753a, 0xec6765e8,
                  0xba3c2be2, 0x0060c000, 0x3a37cd05, 0x458546f4)
  {
    hide Schedule;
    Words48();
    Words56();
    ScheduleStep(E.ABC_BLOCK, 64); ScheduleStep(E.ABC_BLOCK, 65); ScheduleStep(E.ABC_BLOCK, 66); ScheduleStep(E.ABC_BLOCK, 67);
    ScheduleStep(E.ABC_BLOCK, 68); ScheduleStep(E.ABC_BLOCK, 69); ScheduleStep(E.ABC_BLOCK, 70); ScheduleStep(E.ABC_BLOCK, 71);
  }

  lemma Words72()
    ensures Words(72,
                  0xb8599dd6, 0x380a1a26, 0x01e02203, 0xe7cc3456,
                  0xe6e60b69, 0x00f60a00, 0x5795ef4f, 0x822e0879)
  {
    hide Schedule;
    Words56();
    Words64();
    ScheduleStep(E.ABC_BLOCK, 72); ScheduleStep(E.ABC_BLOCK, 73); ScheduleStep(E.ABC_BLOCK, 74); ScheduleStep(E.ABC_BLOCK, 75);
    ScheduleStep(E.ABC_BLOCK, 76); ScheduleStep(E.ABC_BLOCK, 77); ScheduleStep(E.ABC_BLOCK, 78); ScheduleStep(E.ABC_BLOCK, 79);
  }

  lemma Rounds8()
    ensures Rounds(IV, E.ABC_BLOCK, 8)
            == Registers(0x9e8c07d4, 0x993e30c1, 0x0ff1f290, 0xb3f52677, 0xf3763846)
  {
    hide Schedule, Rounds;
    RoundsNone(IV, E.ABC_BLOCK);
    Words0();
    RoundsStep(IV, E.ABC_BLOCK, 0); RoundsStep(IV, E.ABC_BLOCK, 1); RoundsStep(IV, E.ABC_BLOCK, 2); RoundsStep(IV, E.ABC_BLOCK, 3);
    RoundsStep(IV, E.ABC_BLOCK, 4); RoundsStep(IV, E.ABC_BLOCK, 5); RoundsStep(IV, E.ABC_BLOCK, 6); RoundsStep(IV, E.ABC_BLOCK, 7);
  }

  lemma Rounds16()
    ensures Rounds(IV, E.ABC_BLOCK, 16)
            == Registers(0x20bdd62f, 0x196bee77, 0x644a3da5, 0x1181ed99, 0x18c623f9)
  {
    hide Schedule, Rounds;
    Rounds8();
    Words8();
    RoundsStep(IV, E.ABC_BLOCK, 8); RoundsStep(IV, E.ABC_BLOCK, 9); RoundsStep(IV, E.ABC_BLOCK, 10); RoundsStep(IV, E.ABC_BLOCK, 11);
    RoundsStep(IV, E.ABC_BLOCK, 12); RoundsStep(IV, E.ABC_BLOCK, 13); RoundsStep(IV, E.ABC_BLOCK, 14); RoundsStep(IV, E.ABC_BLOCK, 15);
  }

  lemma Rounds24()
    ensures Rounds(IV, E.ABC_BLOCK, 24)
            == Registers(0xd541f12d, 0x21283486, 0x0ce88eff, 0x868dec32, 0x7f67875f)
  {
    hide Schedule, Rounds;
    Rounds16();
    Words16();
    RoundsStep(IV, E.ABC_BLOCK, 16); RoundsStep(IV, E.ABC_BLOCK, 17); RoundsStep(IV, E.ABC_BLOCK, 18); RoundsStep(IV, E.ABC_BLOCK, 19);
    RoundsStep(IV, E.ABC_BLOCK, 20); RoundsStep(IV, E.ABC_BLOCK, 21); RoundsStep(IV, E.ABC_BLOCK, 22); RoundsStep(IV, E.ABC_BLOCK, 23);
  }

  lemma Rounds32()
    ensures Rounds(IV, E.ABC_BLOCK, 32)
            == Registers(0x3b845d33, 0x1267b407, 0x717eebd7, 0xa0dc2d4b, 0xd2aa1365)
  {
    hide Schedule, Rounds;
    Rounds24();
    Words24();
    RoundsStep(IV, E.ABC_BLOCK, 24); RoundsStep(IV, E.ABC_BLOCK, 25); RoundsStep(IV, E.ABC_BLOCK, 26); RoundsStep(IV, E.ABC_BLOCK, 27);
    RoundsStep(IV, E.ABC_BLOCK, 28); RoundsStep(IV, E.ABC_BLOCK, 29); RoundsStep(IV, E.ABC_BLOCK, 30); RoundsStep(IV, E.ABC_BLOCK, 31);
  }

  lemma Rounds40()
    ensures Rounds(IV, E.ABC_BLOCK, 40)
            == Registers(0x32de1cba, 0x4c986405, 0xf718e5cf, 0x03d447f6, 0xf72eec32)
  {
    hide Schedule, Rounds;
    Rounds32();
    Words32();
    RoundsStep(IV, E.ABC_BLOCK, 32); RoundsStep(IV, E.ABC_BLOCK, 33); RoundsStep(IV, E.ABC_BLOCK, 34); RoundsStep(IV, E.ABC_BLOCK, 35);
    RoundsStep(IV, E.ABC_BLOCK, 36); RoundsStep(IV, E.ABC_BLOCK, 37); RoundsStep(IV, E.ABC_BLOCK, 38); RoundsStep(IV, E.ABC_BLOCK, 39);
  }

  lemma Rounds48()
    ensures Rounds(IV, E.ABC_BLOCK, 48)
            == Registers(0xbead02ca, 0xa01b846c, 0x8714787c, 0x503ca382, 0xfb86c6ab)
  {
    hide Schedule, Rounds;
    Rounds40();
    Words40();
    RoundsStep(IV, E.ABC_BLOCK, 40); RoundsStep(IV, E.ABC_BLOCK, 41); RoundsStep(IV, E.ABC_BLOCK, 42); RoundsStep(IV, E.ABC_BLOCK, 43);
    RoundsStep(IV, E.ABC_BLOCK, 44); RoundsStep(IV, E.ABC_BLOCK, 45); RoundsStep(IV, E.ABC_BLOCK, 46); RoundsStep(IV, E.ABC_BLOCK, 47);
  }

  lemma Rounds56()
    ensures Rounds(IV, E.ABC_BLOCK, 56)
            == Registers(0x5e6456af, 0x7b71f76d, 0x09fa7c76, 0x792410db, 0x8e11eb59)
  {
    hide Schedule, Rounds;
    Rounds48();
    Words48();
    RoundsStep(IV, E.ABC_BLOCK, 48); RoundsStep(IV, E.ABC_BLOCK, 49); RoundsStep(IV, E.ABC_BLOCK, 50); RoundsStep(IV, E.ABC_BLOCK, 51);
    RoundsStep(IV, E.ABC_BLOCK, 52); RoundsStep(IV, E.ABC_BLOCK, 53); RoundsStep(IV, E.ABC_BLOCK, 54); RoundsStep(IV, E.ABC_BLOCK, 55);
  }

  lemma Rounds64()
    ensures Rounds(IV, E.ABC_BLOCK, 64)
            == Registers(0x6b61c9e1, 0xb66c020b, 0x9523272c, 0xf5d5b051, 0x8fd4b796)
  {
    hide Schedule, Rounds;
    Rounds56();
    Words56();
    RoundsStep(IV, E.ABC_BLOCK, 56); RoundsStep(IV, E.ABC_BLOCK, 57); RoundsStep(IV, E.ABC_BLOCK, 58); RoundsStep(IV, E.ABC_BLOCK, 59);
    RoundsStep(IV, E.ABC_BLOCK, 60); RoundsStep(IV, E.ABC_BLOCK, 61); RoundsStep(IV, E.ABC_BLOCK, 62); RoundsStep(IV, E.ABC_BLOCK, 63);
  }

  lemma Rounds72()
    ensures Rounds(IV, E.ABC_BLOCK, 72)
            == Registers(0x39859de7, 0xc199f8c7, 0x8fc96230, 0x125c24f0, 0xde37534a)
  {
    hide Schedule, Rounds;
    Rounds64();
    Words64();
    RoundsStep(IV, E.ABC_BLOCK, 64); RoundsStep(IV, E.ABC_BLOCK, 65); RoundsStep(IV, E.ABC_BLOCK, 66); RoundsStep(IV, E.ABC_BLOCK, 67);
    RoundsStep(IV, E.ABC_BLOCK, 68); RoundsStep(IV, E.ABC_BLOCK, 69); RoundsStep(IV, E.ABC_BLOCK, 70); RoundsStep(IV, E.ABC_BLOCK, 71);
  }

  lemma Rounds80()
    ensures Rounds(IV, E.ABC_BLOCK, 80)
            == Registers(0x42541b35, 0x5738d5e1, 0x21834873, 0x681e6df6, 0xd8fdf6ad)
  {
    hide Schedule, Rounds;
    Rounds72();
    Words72();
    RoundsStep(IV, E.ABC_BLOCK, 72); RoundsStep(IV, E.ABC_BLOCK, 73); RoundsStep(IV, E.ABC_BLOCK, 74); RoundsStep(IV, E.ABC_BLOCK, 75);
    RoundsStep(IV, E.ABC_BLOCK, 76); RoundsStep(IV, E.ABC_BLOCK, 77); RoundsStep(IV, E.ABC_BLOCK, 78); RoundsStep(IV, E.ABC_BLOCK, 79);
  }

  /** The published digest. */
  lemma AbcHash()
    ensures Hash(E.ABC) == [
              0xa9, 0x99, 0x3e, 0x36, 0x47, 0x06, 0x81, 0x6a, 0xba, 0x3e,
              0x25, 0x71, 0x78, 0x50, 0xc2, 0x6c, 0x9c, 0xd0, 0xd8, 0x9d]
  {
    hide Rounds, Schedule;
    E.Padded();
    Rounds80();
    HashBlocksStep(E.ABC_BLOCK, 0);
    assert E.ABC_BLOCK[BLOCK * 0..BLOCK * 1] == E.ABC_BLOCK;
  }
}
