/** Bytes, and the fixed-width integer encodings the program reads and writes with memcpy and shifts. */
module Bytes {

  type byte = bv8

  function ToByte(n: int): byte
    requires 0 <= n < 256
  {
    n as bv8
  }

  function FromByte(b: byte): (n: int)
    ensures 0 <= n < 256
  {
    b as int
  }

  /** Every number below 256 is the value of some byte. */
  lemma {:induction false} ByteWithValue(n: int) returns (b: byte)
    requires 0 <= n < 256
    ensures FromByte(b) == n
  {
    if n == 0 {
      b := 0;
    } else {
      var c := ByteWithValue(n - 1);
      ByteSuccessor(c);
      b := c + 1;
    }
  }

  lemma ByteSuccessor(b: byte)
    requires FromByte(b) < 255
    ensures (b + 1) as int == b as int + 1
  {
  }

  lemma ByteRoundTrip(n: int)
    requires 0 <= n < 256
    ensures FromByte(ToByte(n)) == n
  {
    var b := ByteWithValue(n);
    assert ToByte(n) == b;
  }

  /** Two to the power of eight times k: the number of values k bytes can hold. */
  function Capacity(k: nat): (c: nat)
    ensures c >= 1
  {
    if k == 0 then 1 else 256 * Capacity(k - 1)
  }

  /** The k low-order bytes of n, least significant first, as memcpy gives them on a little-endian host. */
  function LittleEndian(n: nat, k: nat): (s: seq<byte>)
    ensures |s| == k
  {
    if k == 0 then [] else [ToByte(n % 256)] + LittleEndian(n / 256, k - 1)
  }

  function FromLittleEndian(s: seq<byte>): nat
  {
    if s == [] then 0 else FromByte(s[0]) + 256 * FromLittleEndian(s[1..])
  }

  /** The k low-order bytes of n, most significant first. */
  function BigEndian(n: nat, k: nat): (s: seq<byte>)
    ensures |s| == k
  {
    if k == 0 then [] else BigEndian(n / 256, k - 1) + [ToByte(n % 256)]
  }

  function FromBigEndian(s: seq<byte>): nat
  {
    if s == [] then 0 else 256 * FromBigEndian(s[..|s| - 1]) + FromByte(s[|s| - 1])
  }

  lemma {:induction false} LittleEndianRoundTrip(n: nat, k: nat)
    requires n < Capacity(k)
    ensures FromLittleEndian(LittleEndian(n, k)) == n
  {
    if k > 0 {
      var s := LittleEndian(n, k);
      ByteRoundTrip(n % 256);
      LittleEndianRoundTrip(n / 256, k - 1);
      assert s[1..] == LittleEndian(n / 256, k - 1);
    }
  }

  lemma {:induction false} BigEndianRoundTrip(n: nat, k: nat)
    requires n < Capacity(k)
    ensures FromBigEndian(BigEndian(n, k)) == n
  {
    if k > 0 {
      var s := BigEndian(n, k);
      ByteRoundTrip(n % 256);
      BigEndianRoundTrip(n / 256, k - 1);
      assert s[..|s| - 1] == BigEndian(n / 256, k - 1);
    }
  }

  /** Copying only the first j of k little-endian bytes keeps the low-order part of the number. */
  lemma {:induction false} LittleEndianPrefix(n: nat, j: nat, k: nat)
    requires j <= k
    ensures LittleEndian(n, k)[..j] == LittleEndian(n, j)
  {
    if j > 0 {
      LittleEndianPrefix(n / 256, j - 1, k - 1);
      var rest := LittleEndian(n / 256, k - 1);
      assert ([ToByte(n % 256)] + rest)[..j] == [ToByte(n % 256)] + rest[..j - 1];
    }
  }

  /** The last j of k big-endian bytes are the number in j bytes: the low-order end comes last. */
  lemma {:induction false} BigEndianSuffix(n: nat, j: nat, k: nat)
    requires j <= k
    ensures BigEndian(n, k)[k - j..] == BigEndian(n, j)
  {
    if j > 0 {
      BigEndianSuffix(n / 256, j - 1, k - 1);
      var front, last := BigEndian(n / 256, k - 1), [ToByte(n % 256)];
      assert (front + last)[k - j..] == front[k - j..] + last;
    }
  }

  /** One byte order is the other backwards. */
  lemma {:induction false} EndianMirror(n: nat, k: nat, i: nat)
    requires i < k
    ensures BigEndian(n, k)[i] == LittleEndian(n, k)[k - 1 - i]
  {
    if i < k - 1 {
      EndianMirror(n / 256, k - 1, i);
    }
  }

  lemma BigEndianInjective(a: nat, b: nat, k: nat)
    requires a < Capacity(k) && b < Capacity(k)
    requires BigEndian(a, k) == BigEndian(b, k)
    ensures a == b
  {
    BigEndianRoundTrip(a, k);
    BigEndianRoundTrip(b, k);
  }

  lemma Capacities()
    ensures Capacity(2) == 0x1_0000
    ensures Capacity(4) == 0x1_0000_0000
    ensures Capacity(8) == 0x1_0000_0000_0000_0000
  {
    assert Capacity(1) == 256;
    assert Capacity(3) == 256 * Capacity(2);
    assert Capacity(5) == 256 * Capacity(4);
    assert Capacity(6) == 256 * Capacity(5);
    assert Capacity(7) == 256 * Capacity(6);
  }

  /** A run of n zero bytes, as memset leaves it. */
  function Zeros(n: nat): (s: seq<byte>)
    ensures |s| == n
    ensures forall i :: 0 <= i < n ==> s[i] == 0
  {
    seq(n, i => 0)
  }

  /** What dst holds after src is copied over it from position at on. */
  function Overlay(dst: seq<byte>, at: nat, src: seq<byte>): (r: seq<byte>)
    requires at + |src| <= |dst|
    ensures |r| == |dst|
    ensures r[at..at + |src|] == src
    ensures forall i :: 0 <= i < |dst| && !(at <= i < at + |src|) ==> r[i] == dst[i]
  {
    dst[..at] + src + dst[at + |src|..]
  }

  lemma OverlayHead(dst: seq<byte>, at: nat, src: seq<byte>)
    requires at + |src| <= |dst|
    ensures Overlay(dst, at, src)[..at + |src|] == dst[..at] + src
  {
  }

  /** Copying into a zeroed tail keeps the head and zeroes what it skips. */
  lemma OverlayZeros(head: seq<byte>, gap: nat, src: seq<byte>, z: nat)
    requires gap + |src| <= z
    ensures Overlay(head + Zeros(z), |head| + gap, src) == head + Zeros(gap) + src + Zeros(z - gap - |src|)
    ensures gap == 0 ==> head + Zeros(gap) + src == head + src
  {
  }

  method Memcpy(dst: array<byte>, at: nat, src: seq<byte>)
    requires at + |src| <= dst.Length
    modifies dst
    ensures dst[..] == Overlay(old(dst[..]), at, src)
  {
    forall i | 0 <= i < |src| {
      dst[at + i] := src[i];
    }
  }
}
