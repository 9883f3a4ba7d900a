/**
 * The worked example of one block, the message abc: its padding, its schedule, the working variables of every
 * round, and its digest in the digits the program prints.
 */
module ShaExample {
  import opened Bytes
  import opened Digests
  import opened Fips180
  import opened Sha256

  // The example: the message abc, its schedule, and the working variables a and e round by round.

  const ABC: seq<byte> := [0x61, 0x62, 0x63]

  /** The words of the schedule. */
  function ScheduleOfAbc(t: nat): word
    requires t < 64
  {
    if t < 8 then [0x61626380, 0x00000000, 0x00000000, 0x00000000, 0x00000000, 0x00000000, 0x00000000, 0x00000000][t]
    else if t < 16 then [0x00000000, 0x00000000, 0x00000000, 0x00000000, 0x00000000, 0x00000000, 0x00000000, 0x00000018][t - 8]
    else if t < 24 then [0x61626380, 0x000f0000, 0x7da86405, 0x600003c6, 0x3e9d7b78, 0x0183fc00, 0x12dcbfdb, 0xe2e2c38e][t - 16]
    else if t < 32 then [0xc8215c1a, 0xb73679a2, 0xe5bc3909, 0x32663c5b, 0x9d209d67, 0xec8726cb, 0x702138a4, 0xd3b7973b][t - 24]
    else if t < 40 then [0x93f5997f, 0x3b68ba73, 0xaff4ffc1, 0xf10a5c62, 0x0a8b3996, 0x72af830a, 0x9409e33e, 0x24641522][t - 32]
    else if t < 48 then [0x9f47bf94, 0xf0a64f5a, 0x3e246a79, 0x27333ba3, 0x0c4763f2, 0x840abf27, 0x7a290d5d, 0x065c43da][t - 40]
    else if t < 56 then [0xfb3e89cb, 0xcc7617db, 0xb9e66c34, 0xa9993667, 0x84badedd, 0xc21462bc, 0x1487472c, 0xb20f7a99][t - 48]
    else [0xef57b9cd, 0xebe6b238, 0x9fe3095e, 0x78bc8d4b, 0xa43fcf15, 0x668b2ff8, 0xeeaba2cc, 0x12b1edeb][t - 56]
  }

  /** The variable a, oldest first; the first four are d, c, b and a before the first round. */
  function AOfAbc(t: nat): word
    requires t < 68
  {
    if t < 8 then [0xa54ff53a, 0x3c6ef372, 0xbb67ae85, 0x6a09e667, 0x5d6aebcd, 0x5a6ad9ad, 0xc8c347a7, 0xd550f666][t]
    else if t < 16 then [0x04409a6a, 0x2b4209f5, 0xe5030380, 0x85a07b5f, 0x8e04ecb9, 0x8c87346b, 0x4798a3f4, 0xf71fc5a9][t - 8]
    else if t < 24 then [0x87912990, 0xd932eb16, 0xc0645fde, 0xb0fa238e, 0x21da9a9b, 0xc2fbd9d1, 0xfe777bbf, 0xe1f20c33][t - 16]
    else if t < 32 then [0x9dc68b63, 0xc2606d6d, 0xa7a3623f, 0xc5d53d8d, 0x1c2c2838, 0xcde8037d, 0xb62ec4bc, 0x77d37528][t - 24]
    else if t < 40 then [0x363482c9, 0xa0060b30, 0xea992a22, 0x73b33bf5, 0x98e12507, 0xfe604df5, 0xa9a7738c, 0x65a0cfe4][t - 32]
    else if t < 48 then [0x41a65cb1, 0x34df1604, 0x6dc57a8a, 0x79ea687a, 0xd6670766, 0xdf46652f, 0x17aa0dfe, 0x9d4baf93][t - 40]
    else if t < 56 then [0x26628815, 0x72ab4b91, 0xa14c14b0, 0x4172328d, 0x05757ceb, 0xf11bfaa8, 0x7a0508a1, 0x886e7a22][t - 48]
    else if t < 64 then [0x101fd28f, 0xf5702fdb, 0x3ec45cdb, 0x38cc9913, 0xfcd1887b, 0xc062d46f, 0xffb70472, 0xb6ae8fff][t - 56]
    else [0xb85e2ce9, 0x04d24d6c, 0xd39a2165, 0x506e3058][t - 64]
  }

  /** The variable e, the first four being h, g, f and e before the first round. */
  function EOfAbc(t: nat): word
    requires t < 68
  {
    if t < 8 then [0x5be0cd19, 0x1f83d9ab, 0x9b05688c, 0x510e527f, 0xfa2a4622, 0x78ce7989, 0xf92939eb, 0x24e00850][t]
    else if t < 16 then [0x43ada245, 0x714260ad, 0x9b27a401, 0x0c657a79, 0x32ca2d8c, 0x1cc92596, 0x436b23e8, 0x816fd6e9][t - 8]
    else if t < 24 then [0x1e578218, 0x745a48de, 0x0b92f20c, 0x07590dcd, 0x8034229c, 0x846ee454, 0xcc899961, 0xb0638179][t - 16]
    else if t < 32 then [0x8ada8930, 0xe1257970, 0x49f5114a, 0xaa47c347, 0x2823ef91, 0x14383d8e, 0xc74c6516, 0xedffbff8][t - 24]
    else if t < 40 then [0x6112a3b7, 0xade79437, 0x0109ab3a, 0xba591112, 0x9cd9f5f6, 0x59249dd3, 0x085f3833, 0xf4b002d6][t - 32]
    else if t < 48 then [0x0772a26b, 0xa507a53d, 0xf0781bc8, 0x1efbc0a0, 0x26352d63, 0x838b2711, 0xdecd4715, 0xfda24c2e][t - 40]
    else if t < 56 then [0xa80f11f0, 0xb7755da1, 0xd57b94a9, 0xfecf0bc6, 0xbd714038, 0x6e5c390c, 0x52f1ccf7, 0x49231c1e][t - 48]
    else if t < 64 then [0x529e7d00, 0x9f4787c3, 0xe50e1b4f, 0x54cb266b, 0x9b5e906c, 0x7e44008e, 0x6d83bfc6, 0xb21bad3d][t - 56]
    else [0x961f4894, 0x948d25b6, 0xfb121210, 0x5ef50f24][t - 64]
  }

  /** The working variables after t rounds: each of a and e is passed on three times. */
  function WorkingOfAbc(t: nat): Working
    requires t <= 64
  {
    Working(AOfAbc(t + 3), AOfAbc(t + 2), AOfAbc(t + 1), AOfAbc(t),
            EOfAbc(t + 3), EOfAbc(t + 2), EOfAbc(t + 1), EOfAbc(t))
  }

  predicate RoundOk(t: nat)
    requires t < 64
  {
    Round(WorkingOfAbc(t), K(t), ScheduleOfAbc(t)) == WorkingOfAbc(t + 1)
  }

  predicate ScheduleOk(t: nat)
    requires 16 <= t < 64
  {
    Add4(SmallSigma1(ScheduleOfAbc(t - 2)), ScheduleOfAbc(t - 7),
         SmallSigma0(ScheduleOfAbc(t - 15)), ScheduleOfAbc(t - 16)) == ScheduleOfAbc(t)
  }

  lemma ScheduleRow4()
    ensures ScheduleOk(16) && ScheduleOk(17) && ScheduleOk(18) && ScheduleOk(19)
  {
  }

  lemma ScheduleRow5()
    ensures ScheduleOk(20) && ScheduleOk(21) && ScheduleOk(22) && ScheduleOk(23)
  {
  }

  lemma ScheduleRow6()
    ensures ScheduleOk(24) && ScheduleOk(25) && ScheduleOk(26) && ScheduleOk(27)
  {
  }

  lemma ScheduleRow7()
    ensures ScheduleOk(28) && ScheduleOk(29) && ScheduleOk(30) && ScheduleOk(31)
  {
  }

  lemma ScheduleRow8()
    ensures ScheduleOk(32) && ScheduleOk(33) && ScheduleOk(34) && ScheduleOk(35)
  {
  }

  lemma ScheduleRow9()
    ensures ScheduleOk(36) && ScheduleOk(37) && ScheduleOk(38) && ScheduleOk(39)
  {
  }

  lemma ScheduleRow10()
    ensures ScheduleOk(40) && ScheduleOk(41) && ScheduleOk(42) && ScheduleOk(43)
  {
  }

  lemma ScheduleRow11()
    ensures ScheduleOk(44) && ScheduleOk(45) && ScheduleOk(46) && ScheduleOk(47)
  {
  }

  lemma ScheduleRow12()
    ensures ScheduleOk(48) && ScheduleOk(49) && ScheduleOk(50) && ScheduleOk(51)
  {
  }

  lemma ScheduleRow13()
    ensures ScheduleOk(52) && ScheduleOk(53) && ScheduleOk(54) && ScheduleOk(55)
  {
  }

  lemma ScheduleRow14()
    ensures ScheduleOk(56) && ScheduleOk(57) && ScheduleOk(58) && ScheduleOk(59)
  {
  }

  lemma ScheduleRow15()
    ensures ScheduleOk(60) && ScheduleOk(61) && ScheduleOk(62) && ScheduleOk(63)
  {
  }

  lemma RoundRow0()
    ensures RoundOk(0) && RoundOk(1) && RoundOk(2) && RoundOk(3)
  {
  }

  lemma RoundRow1()
    ensures RoundOk(4) && RoundOk(5) && RoundOk(6) && RoundOk(7)
  {
  }

  lemma RoundRow2()
    ensures RoundOk(8) && RoundOk(9) && RoundOk(10) && RoundOk(11)
  {
  }

  lemma RoundRow3()
    ensures RoundOk(12) && RoundOk(13) && RoundOk(14) && RoundOk(15)
  {
  }

  lemma RoundRow4()
    ensures RoundOk(16) && RoundOk(17) && RoundOk(18) && RoundOk(19)
  {
  }

  lemma RoundRow5()
    ensures RoundOk(20) && RoundOk(21) && RoundOk(22) && RoundOk(23)
  {
  }

  lemma RoundRow6()
    ensures RoundOk(24) && RoundOk(25) && RoundOk(26) && RoundOk(27)
  {
  }

  lemma RoundRow7()
    ensures RoundOk(28) && RoundOk(29) && RoundOk(30) && RoundOk(31)
  {
  }

  lemma RoundRow8()
    ensures RoundOk(32) && RoundOk(33) && RoundOk(34) && RoundOk(35)
  {
  }

  lemma RoundRow9()
    ensures RoundOk(36) && RoundOk(37) && RoundOk(38) && RoundOk(39)
  {
  }

  lemma RoundRow10()
    ensures RoundOk(40) && RoundOk(41) && RoundOk(42) && RoundOk(43)
  {
  }

  lemma RoundRow11()
    ensures RoundOk(44) && RoundOk(45) && RoundOk(46) && RoundOk(47)
  {
  }

  lemma RoundRow12()
    ensures RoundOk(48) && RoundOk(49) && RoundOk(50) && RoundOk(51)
  {
  }

  lemma RoundRow13()
    ensures RoundOk(52) && RoundOk(53) && RoundOk(54) && RoundOk(55)
  {
  }

  lemma RoundRow14()
    ensures RoundOk(56) && RoundOk(57) && RoundOk(58) && RoundOk(59)
  {
  }

  lemma RoundRow15()
    ensures RoundOk(60) && RoundOk(61) && RoundOk(62) && RoundOk(63)
  {
  }

  lemma EarlyScheduleOk(t: nat)
    requires 16 <= t < 32
    ensures ScheduleOk(t)
  {
    hide *;
    if t < 20 {
      ScheduleRow4();
    } else if t < 24 {
      ScheduleRow5();
    } else if t < 28 {
      ScheduleRow6();
    } else {
      ScheduleRow7();
    }
  }

  lemma LateScheduleOk(t: nat)
    requires 32 <= t < 64
    ensures ScheduleOk(t)
  {
    hide *;
    if t < 36 {
      ScheduleRow8();
    } else if t < 40 {
      ScheduleRow9();
    } else if t < 44 {
      ScheduleRow10();
    } else if t < 48 {
      ScheduleRow11();
    } else if t < 52 {
      ScheduleRow12();
    } else if t < 56 {
      ScheduleRow13();
    } else if t < 60 {
      ScheduleRow14();
    } else {
      ScheduleRow15();
    }
  }

  lemma EveryScheduleOk(t: nat)
    requires 16 <= t < 64
    ensures ScheduleOk(t)
  {
    hide *;
    if t < 32 {
      EarlyScheduleOk(t);
    } else {
      LateScheduleOk(t);
    }
  }

  lemma EarlyRoundOk(t: nat)
    requires 0 <= t < 32
    ensures RoundOk(t)
  {
    hide *;
    if t < 4 {
      RoundRow0();
    } else if t < 8 {
      RoundRow1();
    } else if t < 12 {
      RoundRow2();
    } else if t < 16 {
      RoundRow3();
    } else if t < 20 {
      RoundRow4();
    } else if t < 24 {
      RoundRow5();
    } else if t < 28 {
      RoundRow6();
    } else {
      RoundRow7();
    }
  }

  lemma LateRoundOk(t: nat)
    requires 32 <= t < 64
    ensures RoundOk(t)
  {
    hide *;
    if t < 36 {
      RoundRow8();
    } else if t < 40 {
      RoundRow9();
    } else if t < 44 {
      RoundRow10();
    } else if t < 48 {
      RoundRow11();
    } else if t < 52 {
      RoundRow12();
    } else if t < 56 {
      RoundRow13();
    } else if t < 60 {
      RoundRow14();
    } else {
      RoundRow15();
    }
  }

  lemma EveryRoundOk(t: nat)
    requires 0 <= t < 64
    ensures RoundOk(t)
  {
    hide *;
    if t < 32 {
      EarlyRoundOk(t);
    } else {
      LateRoundOk(t);
    }
  }

  /** The one block of the padded example. */
  function BlockOfAbc(): (m: Block)
  {
    ABC + [0x80] + Zeros(59) + [24]
  }

  lemma PadOfAbc()
    ensures Pad(ABC) == BlockOfAbc()
  {
    var n: nat := 24;
    ByteTwentyFour();
    assert ZeroPad(|ABC|) == 52;
    assert BitLength(|ABC|) == n;
    SmallBigEndian(n, 8);
    assert Zeros(52) + (Zeros(7) + [24]) == Zeros(59) + [24];
  }

  lemma ByteTwentyFour()
    ensures ToByte(24) == 24
  {
    ByteRoundTrip(24);
  }

  lemma {:induction false} SmallBigEndian(n: nat, k: nat)
    requires n < 256 && k > 0
    ensures BigEndian(n, k) == Zeros(k - 1) + [ToByte(n)]
  {
    if k > 1 {
      ZeroBigEndian(k - 1);
    } else {
      assert BigEndian(n / 256, k - 1) == [];
    }
  }

  lemma {:induction false} ZeroBigEndian(k: nat)
    ensures BigEndian(0, k) == Zeros(k)
  {
    if k > 0 {
      ZeroBigEndian(k - 1);
      ByteRoundTrip(0);
    }
  }

  lemma FirstWords(t: nat)
    requires t < 16
    ensures W(BlockOfAbc(), t) == ScheduleOfAbc(t)
  {
    var m := BlockOfAbc();
    assert m[0] == 0x61 && m[1] == 0x62 && m[2] == 0x63 && m[3] == 0x80 && m[63] == 24;
    assert forall i :: 4 <= i < 63 ==> m[i] == 0;
    assert W(m, t) == WordOf(m[4 * t], m[4 * t + 1], m[4 * t + 2], m[4 * t + 3]);
  }

  lemma {:induction false} WordsOfAbc(t: nat)
    requires t < 64
    ensures W(BlockOfAbc(), t) == ScheduleOfAbc(t)
  {
    if t < 16 {
      FirstWords(t);
    } else {
      hide ScheduleOfAbc, BlockOfAbc, SmallSigma0, SmallSigma1, Add4;
      WordsOfAbc(t - 2);
      WordsOfAbc(t - 7);
      WordsOfAbc(t - 15);
      WordsOfAbc(t - 16);
      EveryScheduleOk(t);
    }
  }

  lemma StartOfAbc()
    ensures Load(H0) == WorkingOfAbc(0)
  {
  }

  lemma {:induction false} RoundsOfAbc(t: nat)
    requires t <= 64
    ensures Rounds(H0, BlockOfAbc(), t) == WorkingOfAbc(t)
  {
    hide Load, WorkingOfAbc, BlockOfAbc, W, K, Round, ScheduleOfAbc;
    if t == 0 {
      StartOfAbc();
    } else {
      RoundsOfAbc(t - 1);
      WordsOfAbc(t - 1);
      EveryRoundOk(t - 1);
    }
  }

  const HASH_OF_ABC: seq<word> := [
    0xba7816bf, 0x8f01cfea, 0x414140de, 0x5dae2223, 0xb00361a3, 0x96177a9c, 0xb410ff61, 0xf20015ad
  ]

  lemma LastOfAbc()
    ensures FeedForward(H0, WorkingOfAbc(64)) == HASH_OF_ABC
  {
  }

  lemma HashValueOfAbc()
    ensures HashValue(ABC) == HASH_OF_ABC
  {
    PadOfAbc();
    hide Rounds, WorkingOfAbc, FeedForward, Pad, Zeros;
    var m := BlockOfAbc();
    RoundsOfAbc(64);
    LastOfAbc();
    assert BlockAt(m, 0) == m;
    assert Fold(m, 0) == H0;
    assert Compress(H0, m) == HASH_OF_ABC;
    assert Fold(m, 1) == Compress(Fold(m, 0), BlockAt(m, 0));
  }

  // The digits of the example's digest, word by word.

  lemma {:induction false} HexJoin(a: seq<byte>, b: seq<byte>)
    ensures HexOf(a + b) == HexOf(a) + HexOf(b)
  {
    if b == [] {
      assert a + b == a;
    } else {
      var front, last := b[..|b| - 1], b[|b| - 1];
      HexJoin(a, front);
      hide HexOf, HexDigit;
      HexMore(a + front, last);
      HexMore(front, last);
      assert a + front + [last] == a + b && front + [last] == b;
    }
  }

  lemma HexOfTwo(a: byte, b: byte)
    ensures HexOf([a, b]) == [HexDigit(a >> 4), HexDigit(a & 15), HexDigit(b >> 4), HexDigit(b & 15)]
  {
    hide HexDigit, HexOf;
    HexOfNothing();
    HexMore([], a);
    HexMore([a], b);
    assert [] + [a] == [a] && [a] + [b] == [a, b];
  }

  lemma HexOfNothing()
    ensures HexOf([]) == []
  {
  }

  lemma HexOfFour(a: byte, b: byte, c: byte, d: byte)
    ensures HexOf([a, b, c, d]) == [HexDigit(a >> 4), HexDigit(a & 15), HexDigit(b >> 4), HexDigit(b & 15),
                                    HexDigit(c >> 4), HexDigit(c & 15), HexDigit(d >> 4), HexDigit(d & 15)]
  {
    hide HexDigit, HexOf;
    HexOfTwo(a, b);
    HexOfTwo(c, d);
    HexJoin([a, b], [c, d]);
    assert [a, b] + [c, d] == [a, b, c, d];
  }

  function DigitsOf(w: word): seq<byte> {
    HexOf(WordBytes(w))
  }

  /** The digits of each word, as they are printed: ba7816bf8f01cfea414140de5dae2223
      b00361a396177a9cb410ff61f20015ad. */
  function DigitsOfAbc(i: nat): (d: seq<byte>)
    requires i < 8
  {
    if i == 0 then [0x62, 0x61, 0x37, 0x38, 0x31, 0x36, 0x62, 0x66]
    else if i == 1 then [0x38, 0x66, 0x30, 0x31, 0x63, 0x66, 0x65, 0x61]
    else if i == 2 then [0x34, 0x31, 0x34, 0x31, 0x34, 0x30, 0x64, 0x65]
    else if i == 3 then [0x35, 0x64, 0x61, 0x65, 0x32, 0x32, 0x32, 0x33]
    else if i == 4 then [0x62, 0x30, 0x30, 0x33, 0x36, 0x31, 0x61, 0x33]
    else if i == 5 then [0x39, 0x36, 0x31, 0x37, 0x37, 0x61, 0x39, 0x63]
    else if i == 6 then [0x62, 0x34, 0x31, 0x30, 0x66, 0x66, 0x36, 0x31]
    else [0x66, 0x32, 0x30, 0x30, 0x31, 0x35, 0x61, 0x64]
  }

  lemma Digits0()
    ensures DigitsOf(0xba7816bf) == DigitsOfAbc(0)
  {
    HexOfFour(0xba, 0x78, 0x16, 0xbf);
    assert WordBytes(0xba7816bf) == [0xba, 0x78, 0x16, 0xbf];
  }

  lemma Digits1()
    ensures DigitsOf(0x8f01cfea) == DigitsOfAbc(1)
  {
    HexOfFour(0x8f, 0x01, 0xcf, 0xea);
    assert WordBytes(0x8f01cfea) == [0x8f, 0x01, 0xcf, 0xea];
  }

  lemma Digits2()
    ensures DigitsOf(0x414140de) == DigitsOfAbc(2)
  {
    HexOfFour(0x41, 0x41, 0x40, 0xde);
    assert WordBytes(0x414140de) == [0x41, 0x41, 0x40, 0xde];
  }

  lemma Digits3()
    ensures DigitsOf(0x5dae2223) == DigitsOfAbc(3)
  {
    HexOfFour(0x5d, 0xae, 0x22, 0x23);
    assert WordBytes(0x5dae2223) == [0x5d, 0xae, 0x22, 0x23];
  }

  lemma Digits4()
    ensures DigitsOf(0xb00361a3) == DigitsOfAbc(4)
  {
    HexOfFour(0xb0, 0x03, 0x61, 0xa3);
    assert WordBytes(0xb00361a3) == [0xb0, 0x03, 0x61, 0xa3];
  }

  lemma Digits5()
    ensures DigitsOf(0x96177a9c) == DigitsOfAbc(5)
  {
    HexOfFour(0x96, 0x17, 0x7a, 0x9c);
    assert WordBytes(0x96177a9c) == [0x96, 0x17, 0x7a, 0x9c];
  }

  lemma Digits6()
    ensures DigitsOf(0xb410ff61) == DigitsOfAbc(6)
  {
    HexOfFour(0xb4, 0x10, 0xff, 0x61);
    assert WordBytes(0xb410ff61) == [0xb4, 0x10, 0xff, 0x61];
  }

  lemma Digits7()
    ensures DigitsOf(0xf20015ad) == DigitsOfAbc(7)
  {
    HexOfFour(0xf2, 0x00, 0x15, 0xad);
    assert WordBytes(0xf20015ad) == [0xf2, 0x00, 0x15, 0xad];
  }

  /** The digits of all words from the i-th on. */
  function DigitsFrom(s: seq<word>): seq<byte> {
    if s == [] then [] else DigitsFrom(s[..|s| - 1]) + DigitsOf(s[|s| - 1])
  }

  lemma {:induction false} HexOfChain(s: seq<word>)
    ensures HexOf(ChainBytes(s)) == DigitsFrom(s)
  {
    if s != [] {
      HexOfChain(s[..|s| - 1]);
      HexJoin(ChainBytes(s[..|s| - 1]), WordBytes(s[|s| - 1]));
    }
  }

  function ExampleDigits(i: nat): seq<byte>
    requires i <= 8
  {
    if i == 0 then [] else ExampleDigits(i - 1) + DigitsOfAbc(i - 1)
  }

  lemma EachDigits(i: nat)
    requires i < 8
    ensures DigitsOf(HASH_OF_ABC[i]) == DigitsOfAbc(i)
  {
    hide DigitsOf, DigitsOfAbc;
    Digits0();
    Digits1();
    Digits2();
    Digits3();
    Digits4();
    Digits5();
    Digits6();
    Digits7();
  }

  lemma {:induction false} DigitsUpTo(i: nat)
    requires i <= 8
    ensures DigitsFrom(HASH_OF_ABC[..i]) == ExampleDigits(i)
  {
    hide DigitsOf, DigitsOfAbc;
    if i > 0 {
      var s := HASH_OF_ABC[..i];
      DigitsUpTo(i - 1);
      EachDigits(i - 1);
      assert s[..|s| - 1] == HASH_OF_ABC[..i - 1] && s[|s| - 1] == HASH_OF_ABC[i - 1];
    }
  }

  /** The example: the digest of abc, in the digits the program prints, is the one the standard's example gives. */
  lemma ExampleDigest()
    ensures HashValue(ABC) == HASH_OF_ABC
    ensures Sha256Hex(ABC) == ExampleDigits(8)
  {
    HashValueOfAbc();
    hide HashValue, DigitsFrom, ExampleDigits, ChainBytes, HexOf;
    HexOfChain(HASH_OF_ABC);
    DigitsUpTo(8);
    assert HASH_OF_ABC[..8] == HASH_OF_ABC;
  }
}
