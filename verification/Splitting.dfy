/** Cutting a range of a file into RES packets, and what the receiver's writes make of them. */
module Splitting {
  import opened Bytes
  import opened Packets

  /** The value an int takes from a uint32_t. */
  function ToInt32(n: nat): (i: int)
    requires n < 0x1_0000_0000
    ensures -0x8000_0000 <= i < 0x8000_0000 && (i == n || i == n - 0x1_0000_0000)
  {
    if n < 0x8000_0000 then n else n - 0x1_0000_0000
  }

  function ByteAt(f: seq<byte>, x: nat): byte {
    if x < |f| then f[x] else 0
  }

  /** What a zeroed buffer holds after reading up to n bytes from an offset. */
  function ReadPadded(f: seq<byte>, offset: nat, n: nat): (d: seq<byte>)
    ensures |d| == n
    ensures forall i :: 0 <= i < n ==> d[i] == ByteAt(f, offset + i)
  {
    seq(n, i requires 0 <= i < n => ByteAt(f, offset + i))
  }

  function PieceLen(n: nat): nat {
    if n > DATA_MAX then DATA_MAX else n
  }

  predicate Sendable(offset: nat, hash: seq<byte>, ident: seq<byte>) {
    offset < 0x1_0000_0000 && |hash| == HASH_LEN && |ident| == IDENT_LEN
  }

  ghost predicate Sized(ps: seq<Packet>) {
    forall p :: p in ps ==> |p.payload| == PAYLOAD_MAX
  }

  /** The RES packet for the next piece of a range. */
  function Piece(f: seq<byte>, offset: nat, n: nat, hash: seq<byte>, ident: seq<byte>): (p: Packet)
    requires Sendable(offset, hash, ident)
    ensures |p.payload| == PAYLOAD_MAX
  {
    Packet(PKT_MSG_RES, 0, EncodeRes(offset, ReadPadded(f, offset, PieceLen(n)), hash, ident))
  }

  /** Everything the send loop sends for a range. */
  function Pieces(f: seq<byte>, offset: nat, n: int, hash: seq<byte>, ident: seq<byte>): (ps: seq<Packet>)
    requires Sendable(offset, hash, ident) && (n > 0 ==> offset + n < 0x8000_0000)
    ensures Sized(ps)
    decreases n
  {
    if n <= 0 then []
    else [Piece(f, offset, n, hash, ident)] + Pieces(f, offset + PieceLen(n), n - PieceLen(n), hash, ident)
  }

  /** The send loop of generate_and_send_RES. */
  method SendPieces(f: seq<byte>, dataLen: nat, offset: nat, hash: seq<byte>,
                    ident: seq<byte>) returns (sent: seq<Packet>)
    requires dataLen < 0x1_0000_0000 && Sendable(offset, hash, ident)
    requires 0 < dataLen < 0x8000_0000 ==> offset + dataLen < 0x8000_0000
    ensures sent == Pieces(f, offset, ToInt32(dataLen), hash, ident)
  {
    hide EncodeRes, ReadPadded;
    var bytesToSend := ToInt32(dataLen);
    var currentOffset := offset;
    sent := [];
    while bytesToSend > 0
      invariant currentOffset >= 0 && (bytesToSend > 0 ==> currentOffset + bytesToSend < 0x8000_0000)
      invariant Sendable(currentOffset, hash, ident)
      invariant sent + Pieces(f, currentOffset, bytesToSend, hash, ident) == Pieces(f, offset, ToInt32(dataLen), hash, ident)
    {
      var currentDataLen := if bytesToSend > DATA_MAX then DATA_MAX else bytesToSend;
      var buffer := ReadPadded(f, currentOffset, currentDataLen);
      var packet := BuildRes(currentOffset, buffer, hash, ident);
      sent := sent + [packet];
      bytesToSend := bytesToSend - currentDataLen;
      currentOffset := currentOffset + currentDataLen;
    }
  }

  /** Every packet of a range says whose bytes it carries: its code, its hash and its identifier are those asked for. */
  lemma {:induction false} PiecesNameTheirChunk(f: seq<byte>, offset: nat, n: nat, hash: seq<byte>, ident: seq<byte>, i: nat)
    requires Sendable(offset, hash, ident) && offset + n < 0x8000_0000
    requires i < |Pieces(f, offset, n, hash, ident)|
    ensures var packet := Pieces(f, offset, n, hash, ident)[i];
            packet.code == 0x07 && packet.error == 0 && |packet.payload| == 4092
            && ResHash(packet.payload) == hash && ResIdent(packet.payload) == ident
    decreases n
  {
    hide Piece, ResHash, ResIdent;
    if i == 0 {
      var pl, d := PieceFields(f, offset, n, hash, ident);
    } else {
      PiecesNameTheirChunk(f, offset + PieceLen(n), n - PieceLen(n), hash, ident, i - 1);
    }
  }

  /** One packet for every started run of 2998 bytes. */
  lemma {:induction false} PieceCount(f: seq<byte>, offset: nat, n: nat, hash: seq<byte>, ident: seq<byte>)
    requires Sendable(offset, hash, ident) && offset + n < 0x8000_0000
    ensures |Pieces(f, offset, n, hash, ident)| == (n + DATA_MAX - 1) / DATA_MAX
    decreases n
  {
    hide Piece;
    if n > 0 {
      PieceCount(f, offset + PieceLen(n), n - PieceLen(n), hash, ident);
    }
  }

  /** The i-th packet is the piece that starts i full pieces into the range. */
  lemma {:induction false} PieceAt(f: seq<byte>, offset: nat, n: nat, hash: seq<byte>, ident: seq<byte>, i: nat)
    requires Sendable(offset, hash, ident) && offset + n < 0x8000_0000
    requires DATA_MAX * i < n
    ensures i < |Pieces(f, offset, n, hash, ident)|
    ensures Pieces(f, offset, n, hash, ident)[i] == Piece(f, offset + DATA_MAX * i, n - DATA_MAX * i, hash, ident)
    decreases n
  {
    hide Piece;
    if i > 0 {
      PieceAt(f, offset + DATA_MAX, n - DATA_MAX, hash, ident, i - 1);
    }
  }

  // The receiver.

  /** A file after data is written at an offset; a gap past its end reads as zeros. */
  function WriteAt(f: seq<byte>, offset: nat, d: seq<byte>): (r: seq<byte>)
    ensures d != [] ==> |r| == if |f| < offset + |d| then offset + |d| else |f|
    ensures d == [] ==> r == f
    ensures forall x :: 0 <= x < |r| ==> r[x] == if offset <= x < offset + |d| then d[x - offset] else ByteAt(f, x)
  {
    if d == [] then f
    else
      var n := if |f| < offset + |d| then offset + |d| else |f|;
      seq(n, x requires 0 <= x < n => if offset <= x < offset + |d| then d[x - offset] else ByteAt(f, x))
  }

  function Receive(f: seq<byte>, p: Packet): seq<byte>
    requires |p.payload| == PAYLOAD_MAX
  {
    WriteAt(f, ResOffset(p.payload), ResData(p.payload))
  }

  ghost function ReceiveAll(f: seq<byte>, ps: seq<Packet>): seq<byte>
    requires Sized(ps)
  {
    if ps == [] then f else Receive(ReceiveAll(f, ps[..|ps| - 1]), ps[|ps| - 1])
  }

  /** A packet that carries bytes of src for a part of the range. */
  ghost predicate Carries(p: Packet, src: seq<byte>, offset: nat, n: nat) {
    |p.payload| == PAYLOAD_MAX &&
    var o, d := ResOffset(p.payload), ResData(p.payload);
    d != [] && offset <= o && o + |d| <= offset + n <= |src| && d == src[o..o + |d|]
  }

  predicate Touches(p: Packet, x: nat)
    requires |p.payload| == PAYLOAD_MAX
  {
    ResOffset(p.payload) <= x < ResOffset(p.payload) + |ResData(p.payload)|
  }

  /** What the receiver decodes from a piece. */
  lemma PieceFields(f: seq<byte>, offset: nat, n: nat, hash: seq<byte>, ident: seq<byte>)
    returns (pl: seq<byte>, d: seq<byte>)
    requires Sendable(offset, hash, ident)
    ensures Piece(f, offset, n, hash, ident) == Packet(PKT_MSG_RES, 0, pl) && |pl| == PAYLOAD_MAX
    ensures ResOffset(pl) == offset && ResData(pl) == d && |d| == PieceLen(n)
    ensures ResHash(pl) == hash && ResIdent(pl) == ident
    ensures forall k :: 0 <= k < |d| ==> d[k] == ByteAt(f, offset + k)
  {
    d := ReadPadded(f, offset, PieceLen(n));
    ResRoundTrip(offset, d, hash, ident);
    hide EncodeRes, ResOffset, ResData, ResHash, ResIdent;
    pl := EncodeRes(offset, d, hash, ident);
  }

  lemma PieceCarries(src: seq<byte>, offset: nat, n: nat, hash: seq<byte>, ident: seq<byte>)
    requires Sendable(offset, hash, ident) && 0 < n && offset + n <= |src|
    ensures var p := Piece(src, offset, n, hash, ident);
            ResOffset(p.payload) == offset && ResData(p.payload) == src[offset..offset + PieceLen(n)]
            && Carries(p, src, offset, n)
  {
    hide ReadPadded, Piece, ResOffset, ResData;
    var pl, d := PieceFields(src, offset, n, hash, ident);
    assert d == src[offset..offset + PieceLen(n)];
  }

  lemma {:induction false} PiecesCarry(src: seq<byte>, offset: nat, n: nat, hash: seq<byte>, ident: seq<byte>)
    requires Sendable(offset, hash, ident) && offset + n < 0x8000_0000 && offset + n <= |src|
    ensures forall p :: p in Pieces(src, offset, n, hash, ident) ==> Carries(p, src, offset, n)
    decreases n
  {
    hide Piece;
    if n > 0 {
      PieceCarries(src, offset, n, hash, ident);
      PiecesCarry(src, offset + PieceLen(n), n - PieceLen(n), hash, ident);
    }
  }

  /** Every byte of the range is carried by some packet. */
  lemma {:induction false} PiecesReach(src: seq<byte>, offset: nat, n: nat, hash: seq<byte>, ident: seq<byte>, x: nat)
    returns (p: Packet)
    requires Sendable(offset, hash, ident) && offset + n < 0x8000_0000 && offset + n <= |src|
    requires offset <= x < offset + n
    ensures p in Pieces(src, offset, n, hash, ident) && |p.payload| == PAYLOAD_MAX && Touches(p, x)
    decreases n
  {
    hide Piece;
    PieceCarries(src, offset, n, hash, ident);
    p := Piece(src, offset, n, hash, ident);
    if x >= offset + PieceLen(n) {
      p := PiecesReach(src, offset + PieceLen(n), n - PieceLen(n), hash, ident, x);
    }
  }

  ghost predicate Touched(ps: seq<Packet>, x: nat)
    requires Sized(ps)
  {
    exists p :: p in ps && Touches(p, x)
  }

  /** One write of a true packet. */
  lemma ReceivedOnce(f: seq<byte>, p: Packet, src: seq<byte>, offset: nat, n: nat, x: nat)
    requires Carries(p, src, offset, n)
    ensures ByteAt(Receive(f, p), x) == ByteAt(if Touches(p, x) then src else f, x)
    ensures Touches(p, x) ==> x < |Receive(f, p)| && x < |src|
    ensures |f| <= |Receive(f, p)| <= if |f| < offset + n then offset + n else |f|
  {
    hide ResOffset, ResData;
  }

  lemma TouchedByLast(rest: seq<Packet>, p: Packet, x: nat)
    requires Sized(rest + [p])
    ensures Sized(rest) && |p.payload| == PAYLOAD_MAX
    ensures Touched(rest + [p], x) <==> Touched(rest, x) || Touches(p, x)
  {
    hide Touches;
    assert forall q :: q in rest ==> q in rest + [p];
    assert p in rest + [p];
  }

  lemma ReceiveLast(f: seq<byte>, rest: seq<Packet>, p: Packet)
    requires Sized(rest + [p]) && Sized(rest) && |p.payload| == PAYLOAD_MAX
    ensures ReceiveAll(f, rest + [p]) == Receive(ReceiveAll(f, rest), p)
  {
    hide Receive;
    assert (rest + [p])[..|rest|] == rest;
  }

  ghost predicate AllCarry(ps: seq<Packet>, src: seq<byte>, offset: nat, n: nat) {
    forall p :: p in ps ==> Carries(p, src, offset, n)
  }

  lemma AllCarryParts(rest: seq<Packet>, p: Packet, src: seq<byte>, offset: nat, n: nat)
    requires AllCarry(rest + [p], src, offset, n)
    ensures AllCarry(rest, src, offset, n) && Carries(p, src, offset, n) && Sized(rest + [p])
  {
    hide Carries;
    assert forall q :: q in rest ==> q in rest + [p];
    assert p in rest + [p];
    forall q | q in rest + [p] ensures |q.payload| == PAYLOAD_MAX {
      CarriesSized(q, src, offset, n);
    }
  }

  lemma CarriesSized(p: Packet, src: seq<byte>, offset: nat, n: nat)
    requires Carries(p, src, offset, n)
    ensures |p.payload| == PAYLOAD_MAX
  {
  }

  /** After any writes of true packets, a byte is the sender's if it was written and the receiver's if not. */
  lemma {:induction false} ReceivedByte(f: seq<byte>, ps: seq<Packet>, src: seq<byte>, offset: nat, n: nat, x: nat)
    requires AllCarry(ps, src, offset, n)
    ensures Sized(ps)
    ensures ByteAt(ReceiveAll(f, ps), x) == ByteAt(if Touched(ps, x) then src else f, x)
    ensures Touched(ps, x) ==> x < |ReceiveAll(f, ps)| && x < |src|
    ensures |f| <= |ReceiveAll(f, ps)|
    ensures |ReceiveAll(f, ps)| <= if |f| < offset + n then offset + n else |f|
  {
    if ps != [] {
      var rest, p := ps[..|ps| - 1], ps[|ps| - 1];
      assert ps == rest + [p];
      hide AllCarry, Sized, Touched, Touches, ReceiveAll, Receive, ByteAt, Carries;
      AllCarryParts(rest, p, src, offset, n);
      ReceivedByte(f, rest, src, offset, n, x);
      ReceivedOnce(ReceiveAll(f, rest), p, src, offset, n, x);
      TouchedByLast(rest, p, x);
      ReceiveLast(f, rest, p);
      OrByte(ReceiveAll(f, rest), f, src, Touched(rest, x), Touches(p, x), x);
    }
  }

  lemma OrByte(r: seq<byte>, f: seq<byte>, src: seq<byte>, a: bool, b: bool, x: nat)
    requires ByteAt(r, x) == ByteAt(if a then src else f, x)
    ensures ByteAt(if b then src else r, x) == ByteAt(if a || b then src else f, x)
  {
  }

  /**
   * Split and reassemble: the packets of a range, written in any order and any number of times each,
   * make that range the sender's and leave every other byte as it was.
   */
  lemma AnyOrderReassembles(src: seq<byte>, offset: nat, n: nat, hash: seq<byte>, ident: seq<byte>,
                            f: seq<byte>, arrived: seq<Packet>)
    requires Sendable(offset, hash, ident) && offset + n < 0x8000_0000 && offset + n <= |src| && n > 0
    requires forall p :: p in arrived <==> p in Pieces(src, offset, n, hash, ident)
    ensures Sized(arrived)
    ensures |ReceiveAll(f, arrived)| == if |f| < offset + n then offset + n else |f|
    ensures forall x :: 0 <= x < |ReceiveAll(f, arrived)| ==>
              ReceiveAll(f, arrived)[x] == if offset <= x < offset + n then src[x] else ByteAt(f, x)
  {
    hide ReceiveAll, Pieces;
    PiecesCarry(src, offset, n, hash, ident);
    var r := ReceiveAll(f, arrived);
    forall x: nat
      ensures ByteAt(r, x) == if offset <= x < offset + n then src[x] else ByteAt(f, x)
      ensures offset <= x < offset + n ==> x < |r|
    {
      ReceivedByte(f, arrived, src, offset, n, x);
      if offset <= x < offset + n {
        var p := PiecesReach(src, offset, n, hash, ident, x);
        assert p in arrived;
      }
    }
    ReceivedByte(f, arrived, src, offset, n, offset + n - 1);
  }
}
