/**
 * What pins the definition of the hash down: laws of its logical functions, and where its constants come from.
 */
module ShaFacts {
  import opened Bytes
  import opened Fips180
  import opened Sha256

  // The logical functions.

  /** Ch takes the bits of y where x has ones and those of z where x has zeros. */
  lemma ChChooses(x: word, y: word, z: word)
    ensures Ch(x, y, z) & x == y & x
    ensures Ch(x, y, z) & !x == z & !x
  {
  }

  /** Wherever two of its arguments agree, Maj agrees with them; and it does not depend on their order. */
  lemma MajAgrees(x: word, y: word, z: word)
    ensures Maj(x, y, z) & !(x ^ y) == x & !(x ^ y)
    ensures Maj(x, y, z) == Maj(y, x, z) && Maj(x, y, z) == Maj(x, z, y)
  {
  }

  // Section 4.2.2: the constants are fractional parts of cube roots of primes, and section 5.3.3 of square roots.

  /** The first sixty-four primes. */
  function Prime(t: nat): nat
    requires t < 64
  {
    if t < 8 then [2, 3, 5, 7, 11, 13, 17, 19][t]
    else if t < 16 then [23, 29, 31, 37, 41, 43, 47, 53][t - 8]
    else if t < 24 then [59, 61, 67, 71, 73, 79, 83, 89][t - 16]
    else if t < 32 then [97, 101, 103, 107, 109, 113, 127, 131][t - 24]
    else if t < 40 then [137, 139, 149, 151, 157, 163, 167, 173][t - 32]
    else if t < 48 then [179, 181, 191, 193, 197, 199, 211, 223][t - 40]
    else if t < 56 then [227, 229, 233, 239, 241, 251, 257, 263][t - 48]
    else [269, 271, 277, 281, 283, 293, 307, 311][t - 56]
  }

  const TWO_TO_THE_32: nat := 0x1_0000_0000
  const TWO_TO_THE_96: nat := 0x1_0000_0000_0000_0000_0000_0000

  function CubeRoot(p: nat): nat {
    if p < 8 then 1 else if p < 27 then 2 else if p < 64 then 3 else if p < 125 then 4 else if p < 216 then 5 else 6
  }

  function SquareRoot(p: nat): nat {
    if p < 4 then 1 else if p < 9 then 2 else if p < 16 then 3 else 4
  }

  /** r is the cube root of p, in units of 2^-32, rounded down. */
  predicate IsCubeRoot(p: nat, r: nat) {
    r * r * r <= p * TWO_TO_THE_96 < (r + 1) * (r + 1) * (r + 1)
  }

  predicate IsSquareRoot(p: nat, r: nat) {
    r * r <= p * TWO_TO_THE_64 < (r + 1) * (r + 1)
  }

  predicate KOk(t: nat)
    requires t < 64
  {
    IsCubeRoot(Prime(t), CubeRoot(Prime(t)) * TWO_TO_THE_32 + K(t) as int)
  }

  predicate H0Ok(i: nat)
    requires i < 8
  {
    IsSquareRoot(Prime(i), SquareRoot(Prime(i)) * TWO_TO_THE_32 + H0[i] as int)
  }

  lemma KRow0()
    ensures KOk(0) && KOk(1) && KOk(2) && KOk(3)
  {
  }

  lemma KRow1()
    ensures KOk(4) && KOk(5) && KOk(6) && KOk(7)
  {
  }

  lemma KRow2()
    ensures KOk(8) && KOk(9) && KOk(10) && KOk(11)
  {
  }

  lemma KRow3()
    ensures KOk(12) && KOk(13) && KOk(14) && KOk(15)
  {
  }

  lemma KRow4()
    ensures KOk(16) && KOk(17) && KOk(18) && KOk(19)
  {
  }

  lemma KRow5()
    ensures KOk(20) && KOk(21) && KOk(22) && KOk(23)
  {
  }

  lemma KRow6()
    ensures KOk(24) && KOk(25) && KOk(26) && KOk(27)
  {
  }

  lemma KRow7()
    ensures KOk(28) && KOk(29) && KOk(30) && KOk(31)
  {
  }

  lemma KRow8()
    ensures KOk(32) && KOk(33) && KOk(34) && KOk(35)
  {
  }

  lemma KRow9()
    ensures KOk(36) && KOk(37) && KOk(38) && KOk(39)
  {
  }

  lemma KRow10()
    ensures KOk(40) && KOk(41) && KOk(42) && KOk(43)
  {
  }

  lemma KRow11()
    ensures KOk(44) && KOk(45) && KOk(46) && KOk(47)
  {
  }

  lemma KRow12()
    ensures KOk(48) && KOk(49) && KOk(50) && KOk(51)
  {
  }

  lemma KRow13()
    ensures KOk(52) && KOk(53) && KOk(54) && KOk(55)
  {
  }

  lemma KRow14()
    ensures KOk(56) && KOk(57) && KOk(58) && KOk(59)
  {
  }

  lemma KRow15()
    ensures KOk(60) && KOk(61) && KOk(62) && KOk(63)
  {
  }

  lemma FractionOf(c: nat, k: nat)
    requires k < TWO_TO_THE_32
    ensures (c * TWO_TO_THE_32 + k) % TWO_TO_THE_32 == k
  {
  }

  lemma EarlyKOk(t: nat)
    requires 0 <= t < 32
    ensures KOk(t)
  {
    hide *;
    if t < 4 {
      KRow0();
    } else if t < 8 {
      KRow1();
    } else if t < 12 {
      KRow2();
    } else if t < 16 {
      KRow3();
    } else if t < 20 {
      KRow4();
    } else if t < 24 {
      KRow5();
    } else if t < 28 {
      KRow6();
    } else {
      KRow7();
    }
  }

  lemma LateKOk(t: nat)
    requires 32 <= t < 64
    ensures KOk(t)
  {
    hide *;
    if t < 36 {
      KRow8();
    } else if t < 40 {
      KRow9();
    } else if t < 44 {
      KRow10();
    } else if t < 48 {
      KRow11();
    } else if t < 52 {
      KRow12();
    } else if t < 56 {
      KRow13();
    } else if t < 60 {
      KRow14();
    } else {
      KRow15();
    }
  }

  lemma EveryKOk(t: nat)
    requires 0 <= t < 64
    ensures KOk(t)
  {
    hide *;
    if t < 32 {
      EarlyKOk(t);
    } else {
      LateKOk(t);
    }
  }

  /** The t-th constant is the first thirty-two bits of the fractional part of the cube root of the t-th prime. */
  lemma KIsCubeRoot(t: nat) returns (r: nat)
    requires t < 64
    ensures IsCubeRoot(Prime(t), r) && r % TWO_TO_THE_32 == K(t) as int
  {
    EveryKOk(t);
    hide IsCubeRoot, CubeRoot, Prime, K;
    r := CubeRoot(Prime(t)) * TWO_TO_THE_32 + K(t) as int;
    FractionOf(CubeRoot(Prime(t)), K(t) as int);
  }

  lemma H0Row()
    ensures H0Ok(0) && H0Ok(1) && H0Ok(2) && H0Ok(3)
  {
  }

  lemma H0Rest()
    ensures H0Ok(4) && H0Ok(5) && H0Ok(6) && H0Ok(7)
  {
  }

  lemma EveryH0Ok(i: nat)
    requires i < 8
    ensures H0Ok(i)
  {
    hide *;
    H0Row();
    H0Rest();
  }

  /** The i-th initial word is the same of the square root of the i-th prime. */
  lemma H0IsSquareRoot(i: nat) returns (r: nat)
    requires i < 8
    ensures IsSquareRoot(Prime(i), r) && r % TWO_TO_THE_32 == H0[i] as int
  {
    EveryH0Ok(i);
    hide IsSquareRoot, SquareRoot, Prime;
    r := SquareRoot(Prime(i)) * TWO_TO_THE_32 + H0[i] as int;
    FractionOf(SquareRoot(Prime(i)), H0[i] as int);
  }

  /** The table of digits is in order: 0 to 9 and then a to f, each digit the character after the one before but for that gap. */
  lemma DigitsInOrder(m: byte, n: byte)
    requires m < n < 16
    ensures HexDigit(m) < HexDigit(n)
    ensures HexDigit(0) == 48 && HexDigit(9) == 57 && HexDigit(10) == 97 && HexDigit(15) == 102
  {
  }
}
