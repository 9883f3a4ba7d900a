/** SHA-256 as FIPS 180-4 defines it, for whole messages of bytes. */
module Fips180 {
  import opened Bytes

  type word = bv32

  // Section 3.2: + is addition modulo 2^32, which is what the wrapping words of the code give.

  function Add(x: word, y: word): word {
    x + y
  }

  function Add4(x: word, y: word, z: word, u: word): word {
    x + y + z + u
  }

  function Add5(x: word, y: word, z: word, u: word, v: word): word {
    x + y + z + u + v
  }

  // Section 4.1.2: the six logical functions.

  function Ch(x: word, y: word, z: word): word {
    (x & y) ^ (!x & z)
  }

  function Maj(x: word, y: word, z: word): word {
    (x & y) ^ (x & z) ^ (y & z)
  }

  function BigSigma0(x: word): word {
    x.RotateRight(2) ^ x.RotateRight(13) ^ x.RotateRight(22)
  }

  function BigSigma1(x: word): word {
    x.RotateRight(6) ^ x.RotateRight(11) ^ x.RotateRight(25)
  }

  function SmallSigma0(x: word): word {
    x.RotateRight(7) ^ x.RotateRight(18) ^ (x >> 3)
  }

  function SmallSigma1(x: word): word {
    x.RotateRight(17) ^ x.RotateRight(19) ^ (x >> 10)
  }

  // Section 4.2.2: the sixty-four constants.

  function K(t: nat): word
    requires t < 64
  {
    if t < 8 then [0x428a2f98, 0x71374491, 0xb5c0fbcf, 0xe9b5dba5, 0x3956c25b, 0x59f111f1, 0x923f82a4, 0xab1c5ed5][t]
    else if t < 16 then [0xd807aa98, 0x12835b01, 0x243185be, 0x550c7dc3, 0x72be5d74, 0x80deb1fe, 0x9bdc06a7, 0xc19bf174][t - 8]
    else if t < 24 then [0xe49b69c1, 0xefbe4786, 0x0fc19dc6, 0x240ca1cc, 0x2de92c6f, 0x4a7484aa, 0x5cb0a9dc, 0x76f988da][t - 16]
    else if t < 32 then [0x983e5152, 0xa831c66d, 0xb00327c8, 0xbf597fc7, 0xc6e00bf3, 0xd5a79147, 0x06ca6351, 0x14292967][t - 24]
    else if t < 40 then [0x27b70a85, 0x2e1b2138, 0x4d2c6dfc, 0x53380d13, 0x650a7354, 0x766a0abb, 0x81c2c92e, 0x92722c85][t - 32]
    else if t < 48 then [0xa2bfe8a1, 0xa81a664b, 0xc24b8b70, 0xc76c51a3, 0xd192e819, 0xd6990624, 0xf40e3585, 0x106aa070][t - 40]
    else if t < 56 then [0x19a4c116, 0x1e376c08, 0x2748774c, 0x34b0bcb5, 0x391c0cb3, 0x4ed8aa4a, 0x5b9cca4f, 0x682e6ff3][t - 48]
    else [0x748f82ee, 0x78a5636f, 0x84c87814, 0x8cc70208, 0x90befffa, 0xa4506ceb, 0xbef9a3f7, 0xc67178f2][t - 56]
  }

  // Section 5.3.3: the initial hash value.

  const H0: seq<word> := [
    0x6a09e667, 0xbb67ae85, 0x3c6ef372, 0xa54ff53a, 0x510e527f, 0x9b05688c, 0x1f83d9ab, 0x5be0cd19
  ]

  /** A hash value: eight words. */
  type Chain = s: seq<word> | |s| == 8 witness [0, 0, 0, 0, 0, 0, 0, 0]

  /** A message block: 512 bits. */
  type Block = s: seq<byte> | |s| == 64 witness Zeros(64)

  // Section 5.2.1: a word of a block is read most significant byte first.

  function WordOf(a: byte, b: byte, c: byte, d: byte): word {
    ((a as word) << 24) | ((b as word) << 16) | ((c as word) << 8) | (d as word)
  }

  function BlockWord(m: Block, t: nat): word
    requires t < 16
  {
    WordOf(m[4 * t], m[4 * t + 1], m[4 * t + 2], m[4 * t + 3])
  }

  // Section 6.2.2, step 1: the message schedule.

  function W(m: Block, t: nat): word
    requires t < 64
  {
    if t < 16 then BlockWord(m, t)
    else Add4(SmallSigma1(W(m, t - 2)), W(m, t - 7), SmallSigma0(W(m, t - 15)), W(m, t - 16))
  }

  // Section 6.2.2, steps 2 and 3: the eight working variables and one round.

  datatype Working = Working(a: word, b: word, c: word, d: word, e: word, f: word, g: word, h: word)

  function Load(s: Chain): Working {
    Working(s[0], s[1], s[2], s[3], s[4], s[5], s[6], s[7])
  }

  function Round(v: Working, k: word, w: word): Working {
    var t1 := Add5(v.h, BigSigma1(v.e), Ch(v.e, v.f, v.g), k, w);
    var t2 := Add(BigSigma0(v.a), Maj(v.a, v.b, v.c));
    Working(Add(t1, t2), v.a, v.b, v.c, Add(v.d, t1), v.e, v.f, v.g)
  }

  function Rounds(s: Chain, m: Block, t: nat): Working
    requires t <= 64
  {
    if t == 0 then Load(s) else Round(Rounds(s, m, t - 1), K(t - 1), W(m, t - 1))
  }

  // Section 6.2.2, step 4: the next intermediate hash value.

  function FeedForward(s: Chain, v: Working): Chain {
    [Add(v.a, s[0]), Add(v.b, s[1]), Add(v.c, s[2]), Add(v.d, s[3]),
     Add(v.e, s[4]), Add(v.f, s[5]), Add(v.g, s[6]), Add(v.h, s[7])]
  }

  function Compress(s: Chain, m: Block): Chain {
    FeedForward(s, Rounds(s, m, |m|))
  }

  // Section 5.1.1: padding. The standard defines it for fewer than 2^64 bits; the modulus, which
  // changes nothing there, makes the function total.

  const TWO_TO_THE_64: nat := 0x1_0000_0000_0000_0000

  function BitLength(len: nat): (n: nat)
    ensures n < TWO_TO_THE_64
    ensures 8 * len < TWO_TO_THE_64 ==> n == 8 * len
  {
    8 * len % TWO_TO_THE_64
  }

  function ZeroPad(len: nat): (k: nat)
    ensures k < 64 && (len + 1 + k) % 64 == 56
    ensures (len + 1 + k + 8) % 64 == 0
  {
    (119 - len % 64) % 64
  }

  function Pad(m: seq<byte>): (p: seq<byte>)
    ensures |p| == |m| + 1 + ZeroPad(|m|) + 8
    ensures |p| % 64 == 0
  {
    m + [0x80] + Zeros(ZeroPad(|m|)) + BigEndian(BitLength(|m|), 8)
  }

  // Section 6.2.2: the iteration over the first n blocks.

  function BlockAt(p: seq<byte>, i: nat): Block
    requires 64 * (i + 1) <= |p|
  {
    p[64 * i..64 * (i + 1)]
  }

  function Fold(p: seq<byte>, n: nat): Chain
    requires 64 * n <= |p|
  {
    if n == 0 then H0 else Compress(Fold(p, n - 1), BlockAt(p, n - 1))
  }

  function HashValue(m: seq<byte>): Chain {
    var p := Pad(m);
    Fold(p, |p| / 64)
  }

  // The digest of section 6.2.2 as bytes: each word most significant byte first.

  function WordBytes(w: word): (s: seq<byte>)
    ensures |s| == 4
  {
    [((w >> 24) & 255) as byte, ((w >> 16) & 255) as byte, ((w >> 8) & 255) as byte, (w & 255) as byte]
  }

  function ChainBytes(s: seq<word>): (r: seq<byte>)
    ensures |r| == 4 * |s|
  {
    if s == [] then [] else ChainBytes(s[..|s| - 1]) + WordBytes(s[|s| - 1])
  }

  function Digest(m: seq<byte>): (r: seq<byte>)
    ensures |r| == 32
  {
    ChainBytes(HashValue(m))
  }

  /** Only the blocks read matter to the iteration. */
  lemma {:induction false} FoldPrefix(p: seq<byte>, q: seq<byte>, n: nat)
    requires 64 * n <= |p|
    requires p <= q
    ensures Fold(q, n) == Fold(p, n)
  {
    hide Compress;
    if n > 0 {
      FoldPrefix(p, q, n - 1);
      assert BlockAt(q, n - 1) == BlockAt(p, n - 1);
    }
  }

  lemma LengthFieldInjective(n1: nat, n2: nat)
    requires n1 < TWO_TO_THE_64 && n2 < TWO_TO_THE_64
    requires BigEndian(n1, 8) == BigEndian(n2, 8)
    ensures n1 == n2
  {
    Capacities();
    BigEndianInjective(n1, n2, 8);
  }

  lemma PadParts(m: seq<byte>)
    ensures Pad(m)[..|m|] == m
    ensures Pad(m)[|Pad(m)| - 8..] == BigEndian(BitLength(|m|), 8)
  {
    hide BigEndian;
  }

  /** Padding is unambiguous: two messages the standard covers with the same padded blocks are equal. */
  lemma PadInjective(m1: seq<byte>, m2: seq<byte>)
    requires 8 * |m1| < TWO_TO_THE_64 && 8 * |m2| < TWO_TO_THE_64
    requires Pad(m1) == Pad(m2)
    ensures m1 == m2
  {
    hide BigEndian;
    PadParts(m1);
    PadParts(m2);
    LengthFieldInjective(BitLength(|m1|), BitLength(|m2|));
  }
}
