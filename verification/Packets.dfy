/** The wire format of REQ and RES, and the cutting of a chunk into RES packets, in src/packet.c. */
module Packets {
  import opened Bytes

  const DATA_MAX: nat := 2998
  const HASH_LEN: nat := 64
  const IDENT_LEN: nat := 1024
  const PAYLOAD_MAX: nat := 4092

  const PKT_MSG_ACK: nat := 0x0c
  const PKT_MSG_ACP: nat := 0x02
  const PKT_MSG_DSN: nat := 0x03
  const PKT_MSG_REQ: nat := 0x06
  const PKT_MSG_RES: nat := 0x07
  const PKT_MSG_PNG: nat := 0xFF
  const PKT_MSG_POG: nat := 0x00

  datatype Packet = Packet(code: nat, error: nat, payload: seq<byte>)

  /** A packet that carries its code only. */
  function Plain(code: nat): (p: Packet)
    ensures |p.payload| == PAYLOAD_MAX && p.code == code && p.error == 0
  {
    Packet(code, 0, Zeros(PAYLOAD_MAX))
  }

  function ErrorRes(): (p: Packet)
    ensures |p.payload| == PAYLOAD_MAX && p.code == 0x07 && p.error == 1
  {
    Packet(PKT_MSG_RES, 1, Zeros(PAYLOAD_MAX))
  }

  // REQ: offset, length, hash, identifier.

  predicate ReqFields(ident: seq<byte>, hash: seq<byte>, len: nat, offset: nat) {
    |ident| <= IDENT_LEN && |hash| == HASH_LEN && len < 0x1_0000_0000 && offset < 0x1_0000_0000
  }

  function EncodeReq(ident: seq<byte>, hash: seq<byte>, len: nat, offset: nat): (pl: seq<byte>)
    requires ReqFields(ident, hash, len, offset)
    ensures |pl| == PAYLOAD_MAX
  {
    LittleEndian(offset, 4) + LittleEndian(len, 4) + hash + ident + Zeros(PAYLOAD_MAX - 72 - |ident|)
  }

  function ReqOffset(pl: seq<byte>): nat
    requires |pl| == PAYLOAD_MAX
  {
    FromLittleEndian(pl[0..4])
  }

  function ReqLen(pl: seq<byte>): nat
    requires |pl| == PAYLOAD_MAX
  {
    FromLittleEndian(pl[4..8])
  }

  function ReqHash(pl: seq<byte>): seq<byte>
    requires |pl| == PAYLOAD_MAX
  {
    pl[8..72]
  }

  /** The identifier buffer the handler fills: 1024 bytes, zero where the sender left nothing. */
  function ReqIdent(pl: seq<byte>): (r: seq<byte>)
    requires |pl| == PAYLOAD_MAX
    ensures |r| == IDENT_LEN
  {
    pl[72..72 + IDENT_LEN]
  }

  // RES: offset, data area, length, hash, identifier. The fields fill the payload.

  predicate ResFields(offset: nat, data: seq<byte>, hash: seq<byte>, ident: seq<byte>) {
    offset < 0x1_0000_0000 && |data| <= DATA_MAX && |hash| == HASH_LEN && |ident| == IDENT_LEN
  }

  function EncodeRes(offset: nat, data: seq<byte>, hash: seq<byte>, ident: seq<byte>): (pl: seq<byte>)
    requires ResFields(offset, data, hash, ident)
    ensures |pl| == PAYLOAD_MAX
  {
    LittleEndian(offset, 4) + data + Zeros(DATA_MAX - |data|) + LittleEndian(|data|, 4)[..2] + hash + ident
  }

  function ResOffset(pl: seq<byte>): nat
    requires |pl| == PAYLOAD_MAX
  {
    FromLittleEndian(pl[0..4])
  }

  function ResLen(pl: seq<byte>): nat
    requires |pl| == PAYLOAD_MAX
  {
    FromLittleEndian(pl[4 + DATA_MAX..6 + DATA_MAX])
  }

  /** The bytes the receiver writes. A sender never names more than the data area holds. */
  function ResData(pl: seq<byte>): (d: seq<byte>)
    requires |pl| == PAYLOAD_MAX
    ensures |d| <= DATA_MAX
  {
    pl[4..4 + if ResLen(pl) <= DATA_MAX then ResLen(pl) else DATA_MAX]
  }

  function ResHash(pl: seq<byte>): seq<byte>
    requires |pl| == PAYLOAD_MAX
  {
    pl[6 + DATA_MAX..6 + DATA_MAX + HASH_LEN]
  }

  function ResIdent(pl: seq<byte>): seq<byte>
    requires |pl| == PAYLOAD_MAX
  {
    pl[6 + DATA_MAX + HASH_LEN..]
  }

  lemma NumberRoundTrip(n: nat)
    requires n < 0x1_0000_0000
    ensures FromLittleEndian(LittleEndian(n, 4)) == n
  {
    Capacities();
    LittleEndianRoundTrip(n, 4);
  }

  /** Only two of the four bytes of the length travel, and they are enough for every length sent. */
  lemma ShortRoundTrip(n: nat)
    requires n < 0x1_0000
    ensures FromLittleEndian(LittleEndian(n, 4)[..2]) == n
  {
    Capacities();
    LittleEndianPrefix(n, 2, 4);
    LittleEndianRoundTrip(n, 2);
  }

  lemma ReqRoundTrip(ident: seq<byte>, hash: seq<byte>, len: nat, offset: nat)
    requires ReqFields(ident, hash, len, offset)
    ensures var pl := EncodeReq(ident, hash, len, offset);
            ReqOffset(pl) == offset && ReqLen(pl) == len && ReqHash(pl) == hash
            && ReqIdent(pl) == ident + Zeros(IDENT_LEN - |ident|)
  {
    var pl := EncodeReq(ident, hash, len, offset);
    NumberRoundTrip(offset);
    NumberRoundTrip(len);
    hide LittleEndian, FromLittleEndian;
    assert pl[0..4] == LittleEndian(offset, 4);
    assert pl[4..8] == LittleEndian(len, 4);
  }

  lemma ResRoundTrip(offset: nat, data: seq<byte>, hash: seq<byte>, ident: seq<byte>)
    requires ResFields(offset, data, hash, ident)
    ensures var pl := EncodeRes(offset, data, hash, ident);
            ResOffset(pl) == offset && ResLen(pl) == |data| && ResData(pl) == data
            && ResHash(pl) == hash && ResIdent(pl) == ident
  {
    var pl := EncodeRes(offset, data, hash, ident);
    NumberRoundTrip(offset);
    ShortRoundTrip(|data|);
    hide LittleEndian, FromLittleEndian;
    assert pl[0..4] == LittleEndian(offset, 4);
    assert pl[4 + DATA_MAX..6 + DATA_MAX] == LittleEndian(|data|, 4)[..2];
  }

  // Where the fields lie, counted in bytes from the start of the payload.

  lemma ReqLayout(ident: seq<byte>, hash: seq<byte>, len: nat, offset: nat)
    requires ReqFields(ident, hash, len, offset)
    ensures var pl := EncodeReq(ident, hash, len, offset);
            pl[0..4] == LittleEndian(offset, 4) && pl[4..8] == LittleEndian(len, 4) && pl[8..72] == hash
            && pl[72..72 + |ident|] == ident && forall i :: 72 + |ident| <= i < 4092 ==> pl[i] == 0
  {
    hide LittleEndian;
  }

  lemma ResLayout(offset: nat, data: seq<byte>, hash: seq<byte>, ident: seq<byte>)
    requires ResFields(offset, data, hash, ident)
    ensures var pl := EncodeRes(offset, data, hash, ident);
            pl[0..4] == LittleEndian(offset, 4) && pl[4..4 + |data|] == data
            && (forall i :: 4 + |data| <= i < 3002 ==> pl[i] == 0)
            && pl[3002..3004] == LittleEndian(|data|, 4)[..2] && pl[3004..3068] == hash && pl[3068..4092] == ident
  {
    hide LittleEndian;
  }

  method GenerateReq(ident: seq<byte>, hash: seq<byte>, len: nat, offset: nat) returns (packet: Packet)
    requires ReqFields(ident, hash, len, offset)
    ensures packet == Packet(PKT_MSG_REQ, 0, EncodeReq(ident, hash, len, offset))
    ensures packet.code == 0x06 && packet.error == 0
  {
    assert EncodeReq(ident, hash, len, offset)
        == LittleEndian(offset, 4) + LittleEndian(len, 4) + hash + ident + Zeros(PAYLOAD_MAX - 72 - |ident|);
    assert |ident| <= IDENT_LEN && |hash| == HASH_LEN;
    hide *;
    var pl := StartPayload(LittleEndian(offset, 4));
    CopyInto(pl, 4, LittleEndian(len, 4), LittleEndian(offset, 4), 0, PAYLOAD_MAX - 4);
    ghost var head := LittleEndian(offset, 4) + LittleEndian(len, 4);
    CopyInto(pl, 8, hash, head, 0, PAYLOAD_MAX - 8);
    CopyInto(pl, 72, ident, head + hash, 0, PAYLOAD_MAX - 72);
    packet := Packet(PKT_MSG_REQ, 0, pl[..]);
  }

  /** A payload that is zero but for its first field. */
  method StartPayload(field: seq<byte>) returns (pl: array<byte>)
    requires |field| <= PAYLOAD_MAX
    ensures fresh(pl) && pl.Length == PAYLOAD_MAX && pl[..] == field + Zeros(PAYLOAD_MAX - |field|)
  {
    pl := new byte[PAYLOAD_MAX](i => 0);
    Memcpy(pl, 0, field);
  }

  /** One memcpy into a payload that holds head and then zeros. */
  method CopyInto(pl: array<byte>, at: nat, src: seq<byte>, ghost head: seq<byte>, ghost gap: nat, ghost z: nat)
    requires pl.Length == PAYLOAD_MAX == |head| + z && gap + |src| <= z && at == |head| + gap
    requires pl[..] == head + Zeros(z)
    modifies pl
    ensures pl[..] == head + Zeros(gap) + src + Zeros(z - gap - |src|)
    ensures gap == 0 ==> pl[..] == head + src + Zeros(z - |src|)
  {
    hide Overlay, Zeros;
    OverlayZeros(head, gap, src, z);
    Memcpy(pl, at, src);
  }

  method BuildRes(offset: nat, data: seq<byte>, hash: seq<byte>, ident: seq<byte>) returns (packet: Packet)
    requires ResFields(offset, data, hash, ident)
    ensures packet == Packet(PKT_MSG_RES, 0, EncodeRes(offset, data, hash, ident))
    ensures packet.code == 0x07 && packet.error == 0
  {
    assert EncodeRes(offset, data, hash, ident)
        == LittleEndian(offset, 4) + data + Zeros(DATA_MAX - |data|) + LittleEndian(|data|, 4)[..2] + hash + ident;
    assert |data| <= DATA_MAX && |hash| == HASH_LEN && |ident| == IDENT_LEN;
    hide *;
    var len := LittleEndian(|data|, 4)[..2];
    var pl := StartPayload(LittleEndian(offset, 4));
    CopyInto(pl, 4, data, LittleEndian(offset, 4), 0, PAYLOAD_MAX - 4);
    ghost var head := LittleEndian(offset, 4) + data;
    CopyInto(pl, DATA_MAX + 4, len, head, DATA_MAX - |data|, PAYLOAD_MAX - |head|);
    ghost var head2 := head + Zeros(DATA_MAX - |data|) + len;
    CopyInto(pl, DATA_MAX + 6, hash, head2, 0, PAYLOAD_MAX - |head2|);
    CopyInto(pl, DATA_MAX + 6 + HASH_LEN, ident, head2 + hash, 0, IDENT_LEN);
    assert head2 + hash + ident + Zeros(0) == head2 + hash + ident;
    packet := Packet(PKT_MSG_RES, 0, pl[..]);
  }
}
