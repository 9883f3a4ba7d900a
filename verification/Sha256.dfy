/** The streaming SHA-256 of src/crypt/sha256.c, proved against the whole-message definition. */
module Sha256 {
  import opened Bytes
  import opened Fips180
  import opened Digests

  // The bit mixing of the code, with its rotate_r macro written out, is that of the standard.

  function ScheduleS0(x: word): (r: word)
    ensures r == SmallSigma0(x)
  {
    ((x >> 7) | (x << 25)) ^ ((x >> 18) | (x << 14)) ^ (x >> 3)
  }

  function ScheduleS1(x: word): (r: word)
    ensures r == SmallSigma1(x)
  {
    ((x >> 17) | (x << 15)) ^ ((x >> 19) | (x << 13)) ^ (x >> 10)
  }

  function RoundS0(x: word): (r: word)
    ensures r == BigSigma0(x)
  {
    ((x >> 2) | (x << 30)) ^ ((x >> 13) | (x << 19)) ^ ((x >> 22) | (x << 10))
  }

  function RoundS1(x: word): (r: word)
    ensures r == BigSigma1(x)
  {
    ((x >> 6) | (x << 26)) ^ ((x >> 11) | (x << 21)) ^ ((x >> 25) | (x << 7))
  }

  /** The code adds the four terms of the schedule in another order than the standard. */
  lemma AddReordered(a: word, b: word, c: word, d: word)
    ensures Add4(a, b, c, d) == Add4(d, c, b, a)
  {
  }

  /** The working variables as the code keeps them: tv[0] is a, up to tv[7], which is h. */
  ghost predicate Holds(tv: array<word>, v: Working)
    reads tv
  {
    tv.Length == 8 &&
    tv[0] == v.a && tv[1] == v.b && tv[2] == v.c && tv[3] == v.d &&
    tv[4] == v.e && tv[5] == v.f && tv[6] == v.g && tv[7] == v.h
  }

  /** The word the code puts together from the four bytes at its pointer. */
  function LoadWord(chunk: Block, p: nat): (w: word)
    requires p < 64 && p % 4 == 0
    ensures w == W(chunk, p / 4)
  {
    ((chunk[p] as word) << 24) | ((chunk[p + 1] as word) << 16) | ((chunk[p + 2] as word) << 8) | (chunk[p + 3] as word)
  }

  ghost predicate Scheduled(w: seq<word>, chunk: Block, n: nat)
    requires |w| == 64
  {
    forall t :: 0 <= t < 64 && t < n ==> w[t] == W(chunk, t)
  }

  lemma ScheduledStep(w: seq<word>, chunk: Block, i: nat)
    requires |w| == 64 && 16 <= i < 64 && Scheduled(w, chunk, i)
    ensures Add4(w[i - 16], ScheduleS0(w[i - 15]), w[i - 7], ScheduleS1(w[i - 2])) == W(chunk, i)
  {
    hide Add4, ScheduleS0, ScheduleS1, SmallSigma0, SmallSigma1;
    AddReordered(w[i - 16], ScheduleS0(w[i - 15]), w[i - 7], ScheduleS1(w[i - 2]));
  }

  /** Fills the message schedule from a block, first from its bytes and then by the recurrence. */
  method Schedule(chunk: Block) returns (w: array<word>)
    ensures fresh(w) && w.Length == 64
    ensures forall t :: 0 <= t < 64 ==> w[t] == W(chunk, t)
  {
    hide Add4, LoadWord, ScheduleS0, ScheduleS1, W;
    w := new word[64];
    var p := 0;
    for i := 0 to 16
      invariant p == 4 * i && Scheduled(w[..], chunk, i)
    {
      w[i] := LoadWord(chunk, p);
      p := p + 4;
    }
    for i := 16 to 64
      invariant Scheduled(w[..], chunk, i)
    {
      ScheduledStep(w[..], chunk, i);
      var s0 := ScheduleS0(w[i - 15]);
      var s1 := ScheduleS1(w[i - 2]);
      w[i] := Add4(w[i - 16], s0, w[i - 7], s1);
    }
    assert Scheduled(w[..], chunk, 64);
  }

  method Temporaries(tv: array<word>, k: word, w: word, ghost v: Working) returns (temp1: word, temp2: word)
    requires Holds(tv, v)
    ensures Round(v, k, w) == Working(Add(temp1, temp2), v.a, v.b, v.c, Add(v.d, temp1), v.e, v.f, v.g)
  {
    hide Add, Add5, BigSigma0, BigSigma1, RoundS0, RoundS1, Ch, Maj;
    var S1 := RoundS1(tv[4]);
    var ch := Ch(tv[4], tv[5], tv[6]);
    temp1 := Add5(tv[7], S1, ch, k, w);
    var S0 := RoundS0(tv[0]);
    var maj := Maj(tv[0], tv[1], tv[2]);
    temp2 := Add(S0, maj);
  }

  method ShiftInPlace(tv: array<word>, temp1: word, temp2: word, ghost v: Working)
    requires Holds(tv, v)
    modifies tv
    ensures Holds(tv, Working(Add(temp1, temp2), v.a, v.b, v.c, Add(v.d, temp1), v.e, v.f, v.g))
  {
    hide Add;
    tv[7] := tv[6];
    tv[6] := tv[5];
    tv[5] := tv[4];
    tv[4] := Add(tv[3], temp1);
    tv[3] := tv[2];
    tv[2] := tv[1];
    tv[1] := tv[0];
    tv[0] := Add(temp1, temp2);
  }

  /** The sixty-four rounds on the eight temporaries. */
  method AllRounds(tv: array<word>, w: array<word>, ghost s: Chain, ghost m: Block)
    requires Holds(tv, Load(s)) && w.Length == 64 && tv != w
    requires forall t :: 0 <= t < 64 ==> w[t] == W(m, t)
    modifies tv
    ensures Holds(tv, Rounds(s, m, 64))
  {
    hide Round, W, Load;
    for i := 0 to 64
      invariant Holds(tv, Rounds(s, m, i))
    {
      ghost var v := Rounds(s, m, i);
      var temp1, temp2 := Temporaries(tv, K(i), w[i], v);
      ShiftInPlace(tv, temp1, temp2, v);
    }
  }

  method LoadWorking(hcomps: array<word>) returns (tv: array<word>)
    requires hcomps.Length == 8
    ensures fresh(tv) && Holds(tv, Load(hcomps[..]))
  {
    tv := new word[8];
    for i := 0 to 8
      invariant forall j :: 0 <= j < i ==> tv[j] == hcomps[j]
    {
      tv[i] := hcomps[i];
    }
  }

  lemma FeedForwardIs(s: Chain, v: Working, r: Chain)
    requires r[0] == Add(v.a, s[0]) && r[1] == Add(v.b, s[1]) && r[2] == Add(v.c, s[2]) && r[3] == Add(v.d, s[3])
    requires r[4] == Add(v.e, s[4]) && r[5] == Add(v.f, s[5]) && r[6] == Add(v.g, s[6]) && r[7] == Add(v.h, s[7])
    ensures r == FeedForward(s, v)
  {
    hide Add;
  }

  ghost predicate AddedTo(h: seq<word>, s: Chain, tv: seq<word>, n: nat)
    requires |h| == 8 == |tv|
  {
    forall j :: 0 <= j < 8 ==> h[j] == if j < n then Add(tv[j], s[j]) else s[j]
  }

  lemma AllAdded(h: seq<word>, s: Chain, tv: seq<word>, v: Working)
    requires |h| == 8 == |tv| && AddedTo(h, s, tv, 8)
    requires tv == [v.a, v.b, v.c, v.d, v.e, v.f, v.g, v.h]
    ensures h == FeedForward(s, v)
  {
    hide Add;
    FeedForwardIs(s, v, h);
  }

  lemma HeldWords(tv: array<word>, v: Working)
    requires Holds(tv, v)
    ensures tv[..] == [v.a, v.b, v.c, v.d, v.e, v.f, v.g, v.h]
  {
  }

  method AddWorking(hcomps: array<word>, tv: array<word>, ghost v: Working)
    requires hcomps.Length == 8 && Holds(tv, v) && tv != hcomps
    modifies hcomps
    ensures hcomps[..] == FeedForward(old(hcomps[..]), v)
  {
    hide Add, FeedForward;
    HeldWords(tv, v);
    ghost var s: Chain := hcomps[..];
    for i := 0 to 8
      invariant tv[..] == old(tv[..]) && AddedTo(hcomps[..], s, tv[..], i)
    {
      hcomps[i] := Add(tv[i], hcomps[i]);
    }
    AllAdded(hcomps[..], s, tv[..], v);
  }

  /** Processes one block: sha256_calculate_chunk is the compression of section 6.2.2. */
  method CalculateChunk(hcomps: array<word>, chunk: Block)
    requires hcomps.Length == 8
    modifies hcomps
    ensures hcomps[..] == Compress(old(hcomps[..]), chunk)
  {
    hide Rounds, FeedForward, W, Holds, Load;
    ghost var s: Chain := hcomps[..];
    var w := Schedule(chunk);
    var tv := LoadWorking(hcomps);
    AllRounds(tv, w, s, chunk);
    AddWorking(hcomps, tv, Rounds(s, chunk, |chunk|));
  }

  /** Compresses the block that follows the first j blocks of a message. */
  method NextBlock(hcomps: array<word>, chunk: Block, ghost all: seq<byte>, ghost j: nat)
    requires 64 * (j + 1) <= |all| && chunk == BlockAt(all, j)
    requires hcomps.Length == 8 && hcomps[..] == Fold(all, j)
    modifies hcomps
    ensures hcomps[..] == Fold(all, j + 1)
  {
    hide Compress;
    CalculateChunk(hcomps, chunk);
  }

  /** The bytes left over from m and the first of those that follow make the next block. */
  lemma FilledBlock(m: seq<byte>, bytes: seq<byte>)
    requires 64 <= |m| % 64 + |bytes|
    ensures 64 * (|m| / 64 + 1) <= |m + bytes|
    ensures BlockAt(m + bytes, |m| / 64) == m[|m| - |m| % 64..] + bytes[..64 - |m| % 64]
  {
    var a, n := |m| % 64, |m|;
    assert (m + bytes)[n - a..n - a + 64] == m[n - a..] + bytes[..64 - a];
  }

  /** tmp_chunk: what was buffered and what completes it. */
  method JoinedBlock(kept: seq<byte>, added: seq<byte>) returns (tmp: array<byte>)
    requires |kept| + |added| == 64
    ensures fresh(tmp) && tmp.Length == 64 && tmp[..] == kept + added
  {
    tmp := new byte[64];
    Memcpy(tmp, 0, kept);
    Memcpy(tmp, |kept|, added);
  }

  /** Completes the buffered block with the head of the caller's bytes and compresses it. */
  method FillBlock(hcomps: array<word>, lastChunk: array<byte>, chunkSize: nat, bytes: seq<byte>, ghost m: seq<byte>)
    requires chunkSize < 64 <= chunkSize + |bytes| && chunkSize == |m| % 64
    requires lastChunk.Length == 64 && lastChunk[..chunkSize] == m[|m| - chunkSize..]
    requires hcomps.Length == 8 && hcomps[..] == Fold(m + bytes, |m| / 64)
    modifies hcomps
    ensures hcomps[..] == Fold(m + bytes, |m| / 64 + 1)
  {
    hide Fold, BlockAt;
    FilledBlock(m, bytes);
    var tmp := JoinedBlock(lastChunk[..chunkSize], bytes[..64 - chunkSize]);
    NextBlock(hcomps, tmp[..], m + bytes, |m| / 64);
  }

  /** Appends the bytes that do not complete a block to those already buffered. */
  method KeepRest(lastChunk: array<byte>, chunkSize: nat, rest: seq<byte>)
    requires chunkSize + |rest| <= lastChunk.Length
    modifies lastChunk
    ensures lastChunk[..chunkSize + |rest|] == old(lastChunk[..chunkSize]) + rest
  {
    OverlayHead(lastChunk[..], chunkSize, rest);
    Memcpy(lastChunk, chunkSize, rest);
    assert lastChunk[..chunkSize + |rest|] == lastChunk[..][..chunkSize + |rest|];
    assert old(lastChunk[..])[..chunkSize] == old(lastChunk[..chunkSize]);
  }

  /** How a byte count splits into whole blocks and a rest when fewer bytes than complete a block arrive. */
  lemma NoNewBlock(a: nat, b: nat)
    requires a % 64 + b < 64
    ensures (a + b) / 64 == a / 64 && (a + b) % 64 == a % 64 + b
  {
  }

  /** The value of a uint64_t that was counted up to n. */
  function Wrap64(n: nat): (r: nat)
    ensures r < TWO_TO_THE_64
    ensures n < TWO_TO_THE_64 ==> r == n
  {
    n % TWO_TO_THE_64
  }

  lemma SizeWraps(a: nat, b: nat)
    ensures Wrap64(Wrap64(a) + b) == Wrap64(a + b)
  {
  }

  /** The while loop of sha256_update: compresses straight from the caller's bytes while a block is left. */
  method WholeBlocks(hcomps: array<word>, bytes: seq<byte>, from: nat, ghost all: seq<byte>, ghost j: nat)
    returns (ptr: nat, size: nat)
    requires from <= |bytes| && 64 * j <= |all| && bytes[from..] == all[64 * j..]
    requires hcomps.Length == 8 && hcomps[..] == Fold(all, j)
    modifies hcomps
    ensures ptr + size == |bytes| && size == |all| % 64
    ensures bytes[ptr..] == all[|all| - size..]
    ensures hcomps[..] == Fold(all, |all| / 64)
  {
    hide Fold;
    ptr, size := from, |bytes| - from;
    ghost var n := j;
    while size >= 64
      invariant ptr + size == |bytes|
      invariant 64 * n + size == |all|
      invariant hcomps[..] == Fold(all, n)
    {
      assert bytes[ptr..ptr + 64] == BlockAt(all, n) by {
        assert bytes[from..][ptr - from..ptr - from + 64] == bytes[ptr..ptr + 64];
        assert all[64 * j..][ptr - from..ptr - from + 64] == BlockAt(all, n);
      }
      NextBlock(hcomps, bytes[ptr..ptr + 64], all, n);
      ptr := ptr + 64;
      size := size - 64;
      n := n + 1;
    }
    assert bytes[ptr..] == bytes[from..][ptr - from..];
    assert all[|all| - size..] == all[64 * j..][ptr - from..];
  }

  /** The bytes of the last, incomplete block of a message. */
  function Tail(m: seq<byte>): (r: seq<byte>)
    ensures |r| == |m| % 64
  {
    m[|m| - |m| % 64..]
  }

  lemma TailIs(m: seq<byte>)
    ensures Tail(m) == m[|m| - |m| % 64..]
  {
  }

  lemma TailWithin(m: seq<byte>, bytes: seq<byte>)
    requires |m| % 64 + |bytes| < 64
    ensures Tail(m + bytes) == Tail(m) + bytes
    ensures |m + bytes| / 64 == |m| / 64
  {
    NoNewBlock(|m|, |bytes|);
  }

  /** sha256_update on the chaining words and the buffer, when the bytes m came before. */
  method Absorb(hcomps: array<word>, lastChunk: array<byte>, chunkSize: nat, bytes: seq<byte>, ghost m: seq<byte>)
    returns (newSize: nat)
    requires hcomps.Length == 8 && lastChunk.Length == 64 && chunkSize == |m| % 64
    requires lastChunk[..chunkSize] == Tail(m) && hcomps[..] == Fold(m, |m| / 64)
    modifies hcomps, lastChunk
    ensures newSize == |m + bytes| % 64
    ensures lastChunk[..newSize] == Tail(m + bytes)
    ensures hcomps[..] == Fold(m + bytes, |m + bytes| / 64)
  {
    hide Fold, Tail;
    FoldPrefix(m, m + bytes, |m| / 64);
    TailIs(m);
    var ptr, size := 0, |bytes|;
    newSize := chunkSize;
    if size + chunkSize >= 64 {
      FillBlock(hcomps, lastChunk, chunkSize, bytes, m);
      ptr := 64 - chunkSize;
      newSize := 0;
      assert bytes[ptr..] == (m + bytes)[64 * (|m| / 64 + 1)..];
      // With fewer bytes than complete a block, the loop would not run.
      ptr, size := WholeBlocks(hcomps, bytes, ptr, m + bytes, |m| / 64 + 1);
      TailIs(m + bytes);
      assert Tail(m + bytes) == lastChunk[..newSize] + bytes[ptr..ptr + size];
    } else {
      TailWithin(m, bytes);
      assert Tail(m + bytes) == lastChunk[..newSize] + bytes[ptr..ptr + size];
    }
    KeepRest(lastChunk, newSize, bytes[ptr..ptr + size]);
    newSize := newSize + size;
  }

  /** Writes a 64-bit size over the last eight bytes of the buffer, most significant byte first. */
  method WriteSize(lastChunk: array<byte>, bits: nat)
    requires lastChunk.Length == 64
    modifies lastChunk
    ensures lastChunk[..] == old(lastChunk[..56]) + BigEndian(bits, 8)
  {
    var size, i := bits, 8;
    while i > 0
      invariant 0 <= i <= 8
      invariant lastChunk[..56] == old(lastChunk[..56])
      invariant BigEndian(size, i) + lastChunk[56 + i..] == BigEndian(bits, 8)
    {
      ghost var done := lastChunk[56 + i..];
      lastChunk[55 + i] := ToByte(size % 256);
      assert lastChunk[55 + i..] == [ToByte(size % 256)] + done;
      assert BigEndian(size, i) == BigEndian(size / 256, i - 1) + [ToByte(size % 256)];
      size := size / 256;
      i := i - 1;
    }
    assert lastChunk[..] == lastChunk[..56] + lastChunk[56..];
  }

  /** When the length fits behind the stop byte, the padded message has one block more than the message. */
  lemma PadOneBlock(m: seq<byte>)
    requires |m| % 64 + 1 <= 56
    ensures |Pad(m)| / 64 == |m| / 64 + 1
    ensures BlockAt(Pad(m), |m| / 64) == Tail(m) + [0x80] + Zeros(55 - |m| % 64) + BigEndian(BitLength(|m|), 8)
  {
    hide BigEndian;
    assert ZeroPad(|m|) == 55 - |m| % 64;
  }

  /** Otherwise it has two, and the length stands at the end of a block of its own. */
  lemma PadTwoBlocks(m: seq<byte>)
    requires |m| % 64 + 1 > 56
    ensures |Pad(m)| / 64 == |m| / 64 + 2
    ensures BlockAt(Pad(m), |m| / 64) == Tail(m) + [0x80] + Zeros(63 - |m| % 64)
    ensures BlockAt(Pad(m), |m| / 64 + 1) == Zeros(56) + BigEndian(BitLength(|m|), 8)
  {
    hide BigEndian;
    assert ZeroPad(|m|) == 63 - |m| % 64 + 56;
  }

  /** sha256_finalize on the chaining words and the buffer, after the bytes m. */
  method Finish(hcomps: array<word>, lastChunk: array<byte>, chunkSize: nat, bits: nat, ghost m: seq<byte>)
    requires hcomps.Length == 8 && lastChunk.Length == 64 && chunkSize == |m| % 64
    requires lastChunk[..chunkSize] == Tail(m) && hcomps[..] == Fold(m, |m| / 64)
    requires bits == BitLength(|m|)
    modifies hcomps, lastChunk
    ensures hcomps[..] == HashValue(m)
  {
    hide Fold, BigEndian, Pad, Tail, BitLength;
    ghost var p, n := Pad(m), |m| / 64;
    assert m <= p by {
      PadParts(m);
    }
    FoldPrefix(m, p, n);
    lastChunk[chunkSize] := 0x80;
    var used := chunkSize + 1;
    Memcpy(lastChunk, used, Zeros(64 - used));
    assert lastChunk[..] == Tail(m) + [0x80] + Zeros(64 - used);
    if used > 56 {
      PadTwoBlocks(m);
      NextBlock(hcomps, lastChunk[..], p, n);
      n := n + 1;
      Memcpy(lastChunk, 0, Zeros(64));
      assert lastChunk[..56] == Zeros(56);
    } else {
      PadOneBlock(m);
      assert lastChunk[..56] == Tail(m) + [0x80] + Zeros(55 - |m| % 64);
    }
    WriteSize(lastChunk, bits);
    NextBlock(hcomps, lastChunk[..], p, n);
  }

  method StoreWord(hash: array<byte>, at: nat, h: word)
    requires at + 4 <= hash.Length
    modifies hash
    ensures hash[..at + 4] == old(hash[..at]) + WordBytes(h)
  {
    hash[at] := ((h >> 24) & 255) as byte;
    hash[at + 1] := ((h >> 16) & 255) as byte;
    hash[at + 2] := ((h >> 8) & 255) as byte;
    hash[at + 3] := (h & 255) as byte;
  }

  lemma DropMultiples(a: nat, q: nat)
    ensures (a + q * TWO_TO_THE_64) % TWO_TO_THE_64 == a % TWO_TO_THE_64
  {
  }

  /** Wrapping the byte count and then the bit count is wrapping the bit count. */
  lemma BitsWrap(n: nat)
    ensures Wrap64(8 * Wrap64(n)) == BitLength(n)
  {
    var q, r := n / TWO_TO_THE_64, n % TWO_TO_THE_64;
    assert 8 * n == 8 * r + (8 * q) * TWO_TO_THE_64;
    DropMultiples(8 * r, 8 * q);
  }

  /** The table 0123456789abcdef, in character codes. */
  function HexDigit(n: byte): (c: byte)
    requires n < 16
    ensures IsLowerHex(c)
  {
    if n < 10 then 48 + n else 87 + n
  }

  predicate IsLowerHex(c: byte) {
    48 <= c <= 57 || 97 <= c <= 102
  }

  function HexOf(d: seq<byte>): (h: seq<byte>)
    ensures |h| == 2 * |d|
    ensures forall i :: 0 <= i < |h| ==> IsLowerHex(h[i])
  {
    if d == [] then []
    else
      var c := d[|d| - 1];
      HexOf(d[..|d| - 1]) + [HexDigit(c >> 4), HexDigit(c & 15)]
  }

  /** The hash string of a byte string: what every comparison in the program looks at. */
  function Sha256Hex(m: seq<byte>): (h: HexDigest)
    ensures forall i :: 0 <= i < |h| ==> IsLowerHex(h[i])
  {
    HexOf(Digest(m))
  }

  function UnhexDigit(c: byte): byte {
    if c < 97 then c - 48 else c - 87
  }

  function Unhex(h: seq<byte>): seq<byte>
  {
    if |h| < 2 then [] else Unhex(h[..|h| - 2]) + [(UnhexDigit(h[|h| - 2]) << 4) | UnhexDigit(h[|h| - 1])]
  }

  function WordsOf(d: seq<byte>): seq<word>
  {
    if |d| < 4 then []
    else WordsOf(d[..|d| - 4]) + [WordOf(d[|d| - 4], d[|d| - 3], d[|d| - 2], d[|d| - 1])]
  }

  lemma DigitsRoundTrip(c: byte)
    ensures (UnhexDigit(HexDigit(c >> 4)) << 4) | UnhexDigit(HexDigit(c & 15)) == c
  {
  }

  lemma WordRoundTrip(w: word)
    ensures var b := WordBytes(w); WordOf(b[0], b[1], b[2], b[3]) == w
  {
  }

  lemma UnhexMore(h: seq<byte>, last: seq<byte>)
    requires |last| == 2
    ensures Unhex(h + last) == Unhex(h) + [(UnhexDigit(last[0]) << 4) | UnhexDigit(last[1])]
  {
    hide UnhexDigit;
    assert (h + last)[..|h|] == h;
  }

  lemma HexMore(d: seq<byte>, c: byte)
    ensures HexOf(d + [c]) == HexOf(d) + [HexDigit(c >> 4), HexDigit(c & 15)]
  {
    hide HexDigit;
    assert (d + [c])[..|d|] == d;
  }

  lemma HexStep(d: seq<byte>, c: byte)
    requires Unhex(HexOf(d)) == d
    ensures Unhex(HexOf(d + [c])) == d + [c]
  {
    DigitsRoundTrip(c);
    hide HexDigit, UnhexDigit, HexOf, Unhex;
    HexMore(d, c);
    UnhexMore(HexOf(d), [HexDigit(c >> 4), HexDigit(c & 15)]);
  }

  lemma {:induction false} HexRoundTrip(d: seq<byte>)
    ensures Unhex(HexOf(d)) == d
  {
    if d != [] {
      hide HexOf, Unhex, HexDigit, UnhexDigit;
      var front, last := d[..|d| - 1], d[|d| - 1];
      HexRoundTrip(front);
      HexStep(front, last);
      assert d == front + [last];
    }
  }

  lemma {:induction false} WordsRoundTrip(s: seq<word>)
    ensures WordsOf(ChainBytes(s)) == s
  {
    if s != [] {
      var d := ChainBytes(s);
      WordsRoundTrip(s[..|s| - 1]);
      WordRoundTrip(s[|s| - 1]);
      assert d[..|d| - 4] == ChainBytes(s[..|s| - 1]);
      assert d[|d| - 4..] == WordBytes(s[|s| - 1]);
      assert s == s[..|s| - 1] + [s[|s| - 1]];
    }
  }

  /** The printed digits decode to the chaining words, so comparing hash strings compares digests. */
  lemma HexDecodes(m: seq<byte>)
    ensures WordsOf(Unhex(Sha256Hex(m))) == HashValue(m)
  {
    HexRoundTrip(Digest(m));
    WordsRoundTrip(HashValue(m));
  }

  method BinToHex(data: seq<byte>) returns (out: array<byte>)
    ensures fresh(out) && out[..] == HexOf(data)
  {
    out := new byte[2 * |data|];
    for i := 0 to |data|
      invariant out[..2 * i] == HexOf(data[..i])
    {
      var c := data[i];
      out[2 * i] := HexDigit(c >> 4);
      out[2 * i + 1] := HexDigit(c & 15);
      assert out[..2 * (i + 1)] == out[..2 * i] + [HexDigit(c >> 4), HexDigit(c & 15)];
      assert data[..i + 1][..i] == data[..i];
    }
    assert data[..|data|] == data && out[..2 * |data|] == out[..];
  }

  function Concat(parts: seq<seq<byte>>): seq<byte>
  {
    if parts == [] then [] else Concat(parts[..|parts| - 1]) + parts[|parts| - 1]
  }

  /** The running state of a hash: struct sha256_compute_data. */
  class Sha256Data {
    var dataSize: nat
    const hcomps: array<word>
    const lastChunk: array<byte>
    var chunkSize: nat
    /** Everything fed in so far. */
    ghost var absorbed: seq<byte>

    /** The buffer holds the bytes of the last, incomplete block; every whole block has been compressed. */
    ghost predicate Valid()
      reads this, hcomps, lastChunk
    {
      hcomps.Length == 8 && lastChunk.Length == 64 &&
      dataSize == Wrap64(|absorbed|) &&
      chunkSize == |absorbed| % 64 &&
      lastChunk[..chunkSize] == Tail(absorbed) &&
      hcomps[..] == Fold(absorbed, |absorbed| / 64)
    }

    constructor ()
      ensures Valid() && fresh(hcomps) && fresh(lastChunk)
      ensures absorbed == []
    {
      hcomps := new word[8](i requires 0 <= i < 8 => H0[i]);
      lastChunk := new byte[64](i => 0);
      dataSize, chunkSize := 0, 0;
      absorbed := [];
      new;
      assert hcomps[..] == H0;
    }

    method Update(bytes: seq<byte>)
      requires Valid()
      requires |bytes| + chunkSize < 0x1_0000_0000
      modifies this, hcomps, lastChunk
      ensures Valid()
      ensures absorbed == old(absorbed) + bytes
    {
      hide Fold, Wrap64, Tail;
      SizeWraps(|absorbed|, |bytes|);
      dataSize := Wrap64(dataSize + |bytes|);
      chunkSize := Absorb(hcomps, lastChunk, chunkSize, bytes, absorbed);
      absorbed := absorbed + bytes;
    }

    method Finalize()
      requires Valid()
      modifies this, hcomps, lastChunk
      ensures hcomps[..] == HashValue(old(absorbed))
    {
      hide HashValue, Fold, Wrap64, BitLength;
      BitsWrap(|absorbed|);
      Finish(hcomps, lastChunk, chunkSize, Wrap64(8 * dataSize), absorbed);
      chunkSize := chunkSize + 1;
    }

    /** The chaining words as bytes, each word most significant byte first. */
    method Output() returns (hash: array<byte>)
      requires hcomps.Length == 8
      ensures fresh(hash) && hash[..] == ChainBytes(hcomps[..])
    {
      hash := new byte[32];
      for i := 0 to 8
        invariant hash[..4 * i] == ChainBytes(hcomps[..i])
      {
        StoreWord(hash, 4 * i, hcomps[i]);
        assert hcomps[..i + 1][..i] == hcomps[..i];
      }
      assert hcomps[..8] == hcomps[..] && hash[..32] == hash[..];
    }

    /** sha256_output_hex: sixty-four hexadecimal digits. */
    method OutputHex() returns (hex: seq<byte>)
      requires hcomps.Length == 8
      ensures hex == HexOf(ChainBytes(hcomps[..]))
    {
      var hash := Output();
      var out := BinToHex(hash[..]);
      hex := out[..];
    }
  }

  /** Init, one update, finalize and the hexadecimal output: how the package code hashes a string. */
  method HashBytes(bytes: seq<byte>) returns (hex: seq<byte>)
    requires |bytes| < 0x1_0000_0000
    ensures hex == Sha256Hex(bytes)
  {
    hide HashValue, Fold;
    var data := new Sha256Data();
    data.Update(bytes);
    assert [] + bytes == bytes;
    data.Finalize();
    hex := data.OutputHex();
  }

  /** Hashing a list of byte strings, one update for each, as every caller of the hash does with a list of one. */
  method HashParts(parts: seq<seq<byte>>) returns (hex: seq<byte>)
    requires forall i :: 0 <= i < |parts| ==> |parts[i]| + 64 < 0x1_0000_0000
    ensures hex == Sha256Hex(Concat(parts))
  {
    hide Fold, Wrap64, Tail, HashValue, HexOf;
    var data := new Sha256Data();
    for i := 0 to |parts|
      invariant fresh(data) && fresh(data.hcomps) && fresh(data.lastChunk)
      invariant data.Valid() && data.absorbed == Concat(parts[..i])
    {
      data.Update(parts[i]);
      assert parts[..i + 1][..i] == parts[..i];
    }
    assert parts[..|parts|] == parts;
    data.Finalize();
    hex := data.OutputHex();
  }

  /** The state is determined by what has been absorbed, however it was divided among updates. */
  lemma AbsorbedDeterminesState(apart: Sha256Data, joint: Sha256Data)
    requires apart.Valid() && joint.Valid() && apart.absorbed == joint.absorbed
    ensures apart.dataSize == joint.dataSize && apart.chunkSize == joint.chunkSize
    ensures apart.hcomps[..] == joint.hcomps[..]
    ensures apart.chunkSize <= apart.lastChunk.Length && joint.chunkSize <= joint.lastChunk.Length
    ensures apart.lastChunk[..apart.chunkSize] == joint.lastChunk[..joint.chunkSize]
  {
    hide Fold, Wrap64, Tail;
  }

  /** Feeding a and then b leaves the same state as feeding a + b at once: both have absorbed a + b. */
  method FeedBothWays(a: seq<byte>, b: seq<byte>) returns (apart: Sha256Data, joint: Sha256Data)
    requires |a| + |b| + 64 < 0x1_0000_0000
    ensures apart.Valid() && joint.Valid() && apart.absorbed == a + b && joint.absorbed == a + b
    ensures apart.dataSize == joint.dataSize && apart.chunkSize == joint.chunkSize
    ensures apart.hcomps[..] == joint.hcomps[..]
    ensures apart.chunkSize <= apart.lastChunk.Length && joint.chunkSize <= joint.lastChunk.Length
    ensures apart.lastChunk[..apart.chunkSize] == joint.lastChunk[..joint.chunkSize]
  {
    hide Fold, Wrap64, Tail;
    apart := new Sha256Data();
    apart.Update(a);
    assert [] + a == a;
    apart.Update(b);
    joint := new Sha256Data();
    joint.Update(a + b);
    assert [] + (a + b) == a + b;
    AbsorbedDeterminesState(apart, joint);
  }
}
