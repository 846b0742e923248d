/**
 * The one-block example of the Secure Hash Standard: the digest of "abc", computed word by word and round by round by
 * the definitions of Sha256Spec. It fixes every rotation, function, constant and byte order in them.
 */
module Sha256Vector {

  import opened Bytes
  import opened Sha256Spec

  const ABC: seq<Byte> := [0x61, 0x62, 0x63]

  /** "abc", the 0x80 byte, zeros, and the length of 24 bits. */
  function AbcBlock(): Block {
    ABC + [0x80] + Zeros(59) + [24]
  }

  /** W_t of the block. */
  function W(t: nat): Word
    requires t < 64
  {
    Schedule(AbcBlock(), t)
  }

  /** The registers after t rounds. */
  function After(t: nat): Registers
    requires t <= 64
  {
    Rounds(InitialHash(), AbcBlock(), t)
  }

  lemma NextW(t: nat)
    requires 16 <= t < 64
    ensures W(t) == NextWord(W(t - 16), W(t - 15), W(t - 7), W(t - 2))
  {
    hide NextWord;
    hide AbcBlock;
    ScheduleStep(AbcBlock(), t);
  }

  lemma NextRound(t: nat)
    requires t < 64
    ensures After(t + 1) == Round(After(t), K(t), W(t))
  {
    hide Round;
    hide K;
    hide Schedule;
    hide AbcBlock;
    hide InitialHash;
  }

  lemma FirstRound()
    ensures After(0) == InitialHash()
  {
  }

  lemma W0to15()
    ensures W(0) == 0x61626380 && W(15) == 0x00000018
    ensures forall t | 1 <= t < 15 :: W(t) == 0
  {
    hide WordOf;
    assert WordOf(0x61, 0x62, 0x63, 0x80) == 0x61626380 && WordOf(0, 0, 0, 0) == 0 && WordOf(0, 0, 0, 24) == 0x18 by {
      Joined();
    }
    ScheduleStart(AbcBlock(), 0);
    ScheduleStart(AbcBlock(), 15);
    forall t | 1 <= t < 15 ensures W(t) == 0 {
      ScheduleStart(AbcBlock(), t);
    }
  }

  lemma Joined()
    ensures WordOf(0x61, 0x62, 0x63, 0x80) == 0x61626380 && WordOf(0, 0, 0, 0) == 0 && WordOf(0, 0, 0, 24) == 0x18
  {
  }

  lemma W16to23()
    ensures W(16) == 0x61626380 && W(17) == 0x000f0000 && W(18) == 0x7da86405 && W(19) == 0x600003c6
    ensures W(20) == 0x3e9d7b78 && W(21) == 0x0183fc00 && W(22) == 0x12dcbfdb && W(23) == 0xe2e2c38e
  {
    hide W;
    W0to15();
    NextW(16);
    NextW(17);
    NextW(18);
    NextW(19);
    NextW(20);
    NextW(21);
    NextW(22);
    NextW(23);
  }

  lemma W24to31()
    ensures W(24) == 0xc8215c1a && W(25) == 0xb73679a2 && W(26) == 0xe5bc3909 && W(27) == 0x32663c5b
    ensures W(28) == 0x9d209d67 && W(29) == 0xec8726cb && W(30) == 0x702138a4 && W(31) == 0xd3b7973b
  {
    hide W;
    W16to23();
    W0to15();
    NextW(24);
    NextW(25);
    NextW(26);
    NextW(27);
    NextW(28);
    NextW(29);
    NextW(30);
    NextW(31);
  }

  lemma W32to39()
    ensures W(32) == 0x93f5997f && W(33) == 0x3b68ba73 && W(34) == 0xaff4ffc1 && W(35) == 0xf10a5c62
    ensures W(36) == 0x0a8b3996 && W(37) == 0x72af830a && W(38) == 0x9409e33e && W(39) == 0x24641522
  {
    hide W;
    W24to31();
    W16to23();
    NextW(32);
    NextW(33);
    NextW(34);
    NextW(35);
    NextW(36);
    NextW(37);
    NextW(38);
    NextW(39);
  }

  lemma W40to47()
    ensures W(40) == 0x9f47bf94 && W(41) == 0xf0a64f5a && W(42) == 0x3e246a79 && W(43) == 0x27333ba3
    ensures W(44) == 0x0c4763f2 && W(45) == 0x840abf27 && W(46) == 0x7a290d5d && W(47) == 0x065c43da
  {
    hide W;
    W32to39();
    W24to31();
    NextW(40);
    NextW(41);
    NextW(42);
    NextW(43);
    NextW(44);
    NextW(45);
    NextW(46);
    NextW(47);
  }

  lemma W48to55()
    ensures W(48) == 0xfb3e89cb && W(49) == 0xcc7617db && W(50) == 0xb9e66c34 && W(51) == 0xa9993667
    ensures W(52) == 0x84badedd && W(53) == 0xc21462bc && W(54) == 0x1487472c && W(55) == 0xb20f7a99
  {
    hide W;
    W40to47();
    W32to39();
    NextW(48);
    NextW(49);
    NextW(50);
    NextW(51);
    NextW(52);
    NextW(53);
    NextW(54);
    NextW(55);
  }

  lemma W56to63()
    ensures W(56) == 0xef57b9cd && W(57) == 0xebe6b238 && W(58) == 0x9fe3095e && W(59) == 0x78bc8d4b
    ensures W(60) == 0xa43fcf15 && W(61) == 0x668b2ff8 && W(62) == 0xeeaba2cc && W(63) == 0x12b1edeb
  {
    hide W;
    W48to55();
    W40to47();
    NextW(56);
    NextW(57);
    NextW(58);
    NextW(59);
    NextW(60);
    NextW(61);
    NextW(62);
    NextW(63);
  }

  lemma Rounds0to7()
    ensures After(8) == Registers(0x85a07b5f, 0xe5030380, 0x2b4209f5, 0x04409a6a,
                                   0x0c657a79, 0x9b27a401, 0x714260ad, 0x43ada245)
  {
    hide W;
    hide After;
    FirstRound();
    W0to15();
    NextRound(0);
    NextRound(1);
    NextRound(2);
    NextRound(3);
    NextRound(4);
    NextRound(5);
    NextRound(6);
    NextRound(7);
  }

  lemma Rounds8to15()
    ensures After(16) == Registers(0xb0fa238e, 0xc0645fde, 0xd932eb16, 0x87912990,
                                   0x07590dcd, 0x0b92f20c, 0x745a48de, 0x1e578218)
  {
    hide W;
    hide After;
    Rounds0to7();
    W0to15();
    NextRound(8);
    NextRound(9);
    NextRound(10);
    NextRound(11);
    NextRound(12);
    NextRound(13);
    NextRound(14);
    NextRound(15);
  }

  lemma Rounds16to23()
    ensures After(24) == Registers(0xc5d53d8d, 0xa7a3623f, 0xc2606d6d, 0x9dc68b63,
                                   0xaa47c347, 0x49f5114a, 0xe1257970, 0x8ada8930)
  {
    hide W;
    hide After;
    Rounds8to15();
    W16to23();
    NextRound(16);
    NextRound(17);
    NextRound(18);
    NextRound(19);
    NextRound(20);
    NextRound(21);
    NextRound(22);
    NextRound(23);
  }

  lemma Rounds24to31()
    ensures After(32) == Registers(0x73b33bf5, 0xea992a22, 0xa0060b30, 0x363482c9,
                                   0xba591112, 0x0109ab3a, 0xade79437, 0x6112a3b7)
  {
    hide W;
    hide After;
    Rounds16to23();
    W24to31();
    NextRound(24);
    NextRound(25);
    NextRound(26);
    NextRound(27);
    NextRound(28);
    NextRound(29);
    NextRound(30);
    NextRound(31);
  }

  lemma Rounds32to39()
    ensures After(40) == Registers(0x79ea687a, 0x6dc57a8a, 0x34df1604, 0x41a65cb1,
                                   0x1efbc0a0, 0xf0781bc8, 0xa507a53d, 0x0772a26b)
  {
    hide W;
    hide After;
    Rounds24to31();
    W32to39();
    NextRound(32);
    NextRound(33);
    NextRound(34);
    NextRound(35);
    NextRound(36);
    NextRound(37);
    NextRound(38);
    NextRound(39);
  }

  lemma Rounds40to47()
    ensures After(48) == Registers(0x4172328d, 0xa14c14b0, 0x72ab4b91, 0x26628815,
                                   0xfecf0bc6, 0xd57b94a9, 0xb7755da1, 0xa80f11f0)
  {
    hide W;
    hide After;
    Rounds32to39();
    W40to47();
    NextRound(40);
    NextRound(41);
    NextRound(42);
    NextRound(43);
    NextRound(44);
    NextRound(45);
    NextRound(46);
    NextRound(47);
  }

  lemma Rounds48to55()
    ensures After(56) == Registers(0x38cc9913, 0x3ec45cdb, 0xf5702fdb, 0x101fd28f,
                                   0x54cb266b, 0xe50e1b4f, 0x9f4787c3, 0x529e7d00)
  {
    hide W;
    hide After;
    Rounds40to47();
    W48to55();
    NextRound(48);
    NextRound(49);
    NextRound(50);
    NextRound(51);
    NextRound(52);
    NextRound(53);
    NextRound(54);
    NextRound(55);
  }

  lemma Rounds56to63()
    ensures After(64) == Registers(0x506e3058, 0xd39a2165, 0x04d24d6c, 0xb85e2ce9,
                                   0x5ef50f24, 0xfb121210, 0x948d25b6, 0x961f4894)
  {
    hide W;
    hide After;
    Rounds48to55();
    W56to63();
    NextRound(56);
    NextRound(57);
    NextRound(58);
    NextRound(59);
    NextRound(60);
    NextRound(61);
    NextRound(62);
    NextRound(63);
  }

  lemma AbcHash()
    ensures Compress(InitialHash(), AbcBlock()) == Registers(0xba7816bf, 0x8f01cfea, 0x414140de, 0x5dae2223,
      0xb00361a3, 0x96177a9c, 0xb410ff61, 0xf20015ad)
  {
    hide After;
    hide Rounds;
    hide Compress;
    Rounds56to63();
    AfterIs(64);
    CompressIs(InitialHash(), AbcBlock(), 64);
  }

  lemma AfterIs(t: nat)
    requires t <= 64
    ensures After(t) == Rounds(InitialHash(), AbcBlock(), t)
  {
    hide Rounds;
  }

  lemma CompressIs(v: Registers, block: Block, n: nat)
    requires n == |block|
    ensures Compress(v, block) == AddRegisters(Rounds(v, block, n), v)
  {
    hide AddRegisters;
    hide Rounds;
  }

  lemma AbcPadded()
    ensures Padded(ABC, 24) == AbcBlock()
  {
    assert ZeroBytes(3) == 52;
    LengthBytes();
    hide BigEndian;
    assert Zeros(52) + (Zeros(7) + [24]) == Zeros(59) + [24];
  }

  lemma LengthBytes()
    ensures BigEndian(24, 8) == Zeros(7) + [24]
  {
    hide BigEndian;
    LowByte(24, 8);
    NoHighBytes(7);
  }

  lemma LowByte(v: nat, w: nat)
    requires v < 256 && w > 0
    ensures BigEndian(v, w) == BigEndian(0, w - 1) + [v as Byte]
  {
    assert v / 256 == 0 && v % 256 == v;
  }

  lemma {:induction false} NoHighBytes(w: nat)
    ensures BigEndian(0, w) == Zeros(w)
  {
    if w > 0 {
      NoHighBytes(w - 1);
    }
  }


  /** The standard's example. */
  lemma DigestOfAbc()
    ensures Digest(ABC) == [
      0xba, 0x78, 0x16, 0xbf, 0x8f, 0x01, 0xcf, 0xea,
      0x41, 0x41, 0x40, 0xde, 0x5d, 0xae, 0x22, 0x23,
      0xb0, 0x03, 0x61, 0xa3, 0x96, 0x17, 0x7a, 0x9c,
      0xb4, 0x10, 0xff, 0x61, 0xf2, 0x00, 0x15, 0xad
    ]
  {
    hide Compress;
    hide AbcBlock;
    hide InitialHash;
    hide Padded;
    hide BytesOf;
    hide Serialize;
    hide Absorb;
    hide Words;
    AbcPadded();
    AbcHash();
    AbsorbNothing();
    AbsorbBlock([], AbcBlock());
    assert [] + AbcBlock() == AbcBlock();
    OutputBytes();
    WordsAre(Compress(InitialHash(), AbcBlock()));
    EightWords(Words(Compress(InitialHash(), AbcBlock())));
  }

  lemma WordsAre(v: Registers)
    ensures Words(v) == [v.a, v.b, v.c, v.d, v.e, v.f, v.g, v.h]
  {
  }

  lemma EightWords(ws: seq<Word>)
    requires |ws| == 8
    ensures Serialize(ws) == BytesOf(ws[0]) + BytesOf(ws[1]) + BytesOf(ws[2]) + BytesOf(ws[3])
                             + BytesOf(ws[4]) + BytesOf(ws[5]) + BytesOf(ws[6]) + BytesOf(ws[7])
  {
    hide BytesOf;
    hide Serialize;
    assert ws[..8] == ws && ws[..0] == [];
    SerializeNothing();
    FourWords(ws, 0);
    FourWords(ws, 4);
    assert [] + BytesOf(ws[0]) == BytesOf(ws[0]);
  }

  lemma FourWords(ws: seq<Word>, i: nat)
    requires i + 4 <= |ws|
    ensures Serialize(ws[..i + 4]) == Serialize(ws[..i]) + BytesOf(ws[i]) + BytesOf(ws[i + 1])
                                      + BytesOf(ws[i + 2]) + BytesOf(ws[i + 3])
  {
    hide BytesOf;
    hide Serialize;
    SerializeNext(ws, i);
    SerializeNext(ws, i + 1);
    SerializeNext(ws, i + 2);
    SerializeNext(ws, i + 3);
  }

  lemma OutputBytes()
    ensures BytesOf(0xba7816bf) == [0xba, 0x78, 0x16, 0xbf]
    ensures BytesOf(0x8f01cfea) == [0x8f, 0x01, 0xcf, 0xea]
    ensures BytesOf(0x414140de) == [0x41, 0x41, 0x40, 0xde]
    ensures BytesOf(0x5dae2223) == [0x5d, 0xae, 0x22, 0x23]
    ensures BytesOf(0xb00361a3) == [0xb0, 0x03, 0x61, 0xa3]
    ensures BytesOf(0x96177a9c) == [0x96, 0x17, 0x7a, 0x9c]
    ensures BytesOf(0xb410ff61) == [0xb4, 0x10, 0xff, 0x61]
    ensures BytesOf(0xf20015ad) == [0xf2, 0x00, 0x15, 0xad]
  {
  }
}
