/** The packet loops of src/peer.c: server_handle_client and client_handle_server. */
module Handlers {
  import opened Bytes
  import opened Digests
  import opened Merkle
  import opened Lookup
  import opened Verification
  import opened Packets
  import opened Splitting
  import opened Protocol

  datatype Connection = Connection(ip: seq<byte>, port: nat, connected: bool)

  /** The first entry of the connection list for an address, or the length of the list. */
  function EntryOf(conns: seq<Connection>, ip: seq<byte>, port: nat): (i: nat)
    ensures i <= |conns|
    ensures i < |conns| ==> conns[i].ip == ip && conns[i].port == port
    ensures forall j :: 0 <= j < i ==> !(conns[j].ip == ip && conns[j].port == port)
  {
    if conns == [] || (conns[0].ip == ip && conns[0].port == port) then 0
    else 1 + EntryOf(conns[1..], ip, port)
  }

  function Flagged(conns: seq<Connection>, ip: seq<byte>, port: nat, connected: bool): (r: seq<Connection>)
    ensures |r| == |conns|
    ensures forall j :: 0 <= j < |conns| ==>
              r[j] == if j == EntryOf(conns, ip, port) then Connection(ip, port, connected) else conns[j]
  {
    var i := EntryOf(conns, ip, port);
    if i < |conns| then conns[i := conns[i].(connected := connected)] else conns
  }

  function Removed(conns: seq<Connection>, ip: seq<byte>, port: nat): (r: seq<Connection>)
    ensures |r| == if EntryOf(conns, ip, port) < |conns| then |conns| - 1 else |conns|
    ensures forall j :: 0 <= j < |r| ==> r[j] == conns[if j < EntryOf(conns, ip, port) then j else j + 1]
  {
    var i := EntryOf(conns, ip, port);
    if i < |conns| then conns[..i] + conns[i + 1..] else conns
  }

  /** What a loop has done: the peer and its connection list, the packets sent, and why it ended, if it has. */
  datatype LoopState = LoopState(peer: Peer, conns: seq<Connection>, sent: seq<Packet>, end: End)

  /** Undefined stands for what C leaves undefined: a null pointer, or an offset beyond the range of int. */
  datatype End = Running | Closed | Undefined

  /** The packets a loop can meet on the wire. */
  predicate OnWire(packet: Packet) {
    |packet.payload| == PAYLOAD_MAX
  }

  function AfterRequest(H: Digester, p: Package, st: LoopState, pl: seq<byte>): (r: LoopState)
    requires p.FullTree() && CacheFits(p, st.peer) && |pl| == PAYLOAD_MAX
    ensures CacheFits(p, r.peer)
  {
    var peer := AfterReq(H, p, st.peer, pl);
    match AnswerReq(H, p, st.peer, pl)
    case Crash => st.(peer := peer, end := Undefined)
    case Refuse => st.(peer := peer, sent := st.sent + [ErrorRes()])
    case Serve(j) =>
      st.(peer := peer, sent := st.sent + Pieces(peer.file.value, j.offset, j.left, j.hash, j.ident))
  }

  /** One turn of the loop; client tells which of the two loops it is. */
  function Turn(H: Digester, p: Package, client: bool, ip: seq<byte>, port: nat, st: LoopState,
                packet: Packet): (r: LoopState)
    requires p.FullTree() && CacheFits(p, st.peer) && OnWire(packet)
    ensures CacheFits(p, r.peer)
  {
    if packet.code == PKT_MSG_ACP && client then
      st.(sent := st.sent + [Plain(PKT_MSG_ACK)], conns := Flagged(st.conns, ip, port, true))
    else if packet.code == PKT_MSG_DSN then
      st.(conns := Removed(st.conns, ip, port), end := Closed)
    else if packet.code == PKT_MSG_PNG then
      st.(sent := st.sent + [Plain(PKT_MSG_POG)])
    else if packet.code == PKT_MSG_REQ then
      AfterRequest(H, p, st, packet.payload)
    else if packet.code == PKT_MSG_RES then
      st.(peer := AfterRes(p, st.peer, packet))
    else
      st
  }

  /** The loop over the packets received, until the connection ends; then the entry is marked disconnected. */
  function Loop(H: Digester, p: Package, client: bool, ip: seq<byte>, port: nat, st: LoopState,
                inbox: seq<Packet>): LoopState
    requires p.FullTree() && CacheFits(p, st.peer) && forall k :: 0 <= k < |inbox| ==> OnWire(inbox[k])
    decreases |inbox|
  {
    if st.end == Undefined then st
    else if st.end == Closed || inbox == [] then
      st.(conns := Flagged(st.conns, ip, port, false), end := Closed)
    else
      Loop(H, p, client, ip, port, Turn(H, p, client, ip, port, st, inbox[0]), inbox[1..])
  }

  /** On packets without ACP the two loops do the same from the same state. */
  lemma {:induction false} SameLoop(H: Digester, p: Package, ip: seq<byte>, port: nat, st: LoopState,
                                    inbox: seq<Packet>)
    requires p.FullTree() && CacheFits(p, st.peer)
    requires forall k :: 0 <= k < |inbox| ==> OnWire(inbox[k]) && inbox[k].code != PKT_MSG_ACP
    ensures Loop(H, p, true, ip, port, st, inbox) == Loop(H, p, false, ip, port, st, inbox)
    decreases |inbox|
  {
    hide AfterRequest, AfterRes, Flagged, Removed;
    if st.end == Running && inbox != [] {
      SameLoop(H, p, ip, port, Turn(H, p, false, ip, port, st, inbox[0]), inbox[1..]);
    }
  }

  /** The state with more sent before what it has sent. */
  function After(pre: seq<Packet>, st: LoopState): LoopState {
    st.(sent := pre + st.sent)
  }

  lemma SendAfter(pre: seq<Packet>, st: LoopState, more: seq<Packet>)
    ensures After(pre, st.(sent := st.sent + more)) == After(pre, st).(sent := After(pre, st).sent + more)
  {
    assert pre + (st.sent + more) == pre + st.sent + more;
  }

  lemma RequestAfter(H: Digester, p: Package, pre: seq<Packet>, st: LoopState, pl: seq<byte>)
    requires p.FullTree() && CacheFits(p, st.peer) && |pl| == PAYLOAD_MAX
    ensures AfterRequest(H, p, After(pre, st), pl) == After(pre, AfterRequest(H, p, st, pl))
  {
    var peer, answer := AfterReq(H, p, st.peer, pl), AnswerReq(H, p, st.peer, pl);
    hide AfterReq, AnswerReq, Pieces, ErrorRes;
    if answer.Refuse? {
      SendAfter(pre, st, [ErrorRes()]);
    } else if answer.Serve? {
      var j := answer.job;
      SendAfter(pre, st, Pieces(peer.file.value, j.offset, j.left, j.hash, j.ident));
    }
  }

  /** What a turn does, does not depend on what has been sent before. */
  lemma TurnAfter(H: Digester, p: Package, client: bool, ip: seq<byte>, port: nat, pre: seq<Packet>, st: LoopState,
                  packet: Packet)
    requires p.FullTree() && CacheFits(p, st.peer) && OnWire(packet)
    ensures Turn(H, p, client, ip, port, After(pre, st), packet) == After(pre, Turn(H, p, client, ip, port, st, packet))
  {
    RequestAfter(H, p, pre, st, packet.payload);
    SendAfter(pre, st, [Plain(PKT_MSG_ACK)]);
    SendAfter(pre, st, [Plain(PKT_MSG_POG)]);
    hide AfterRequest, AfterRes, Flagged, Removed, Plain;
  }

  lemma {:induction false} LoopAfter(H: Digester, p: Package, client: bool, ip: seq<byte>, port: nat, pre: seq<Packet>,
                                     st: LoopState, inbox: seq<Packet>)
    requires p.FullTree() && CacheFits(p, st.peer) && forall k :: 0 <= k < |inbox| ==> OnWire(inbox[k])
    ensures Loop(H, p, client, ip, port, After(pre, st), inbox) == After(pre, Loop(H, p, client, ip, port, st, inbox))
    decreases |inbox|
  {
    hide Turn, Flagged;
    if st.end == Running && inbox != [] {
      TurnAfter(H, p, client, ip, port, pre, st, inbox[0]);
      LoopAfter(H, p, client, ip, port, pre, Turn(H, p, client, ip, port, st, inbox[0]), inbox[1..]);
    }
  }

  /**
   * The two loops as they are started, the server's with its ACP sent, the client's with nothing: on packets
   * without ACP they end with the same peer, connections and outcome, and the server has sent its ACP and
   * then exactly what the client sends.
   */
  lemma LoopsAgree(H: Digester, p: Package, ip: seq<byte>, port: nat, peer: Peer, conns: seq<Connection>,
                   inbox: seq<Packet>)
    requires p.FullTree() && CacheFits(p, peer)
    requires forall k :: 0 <= k < |inbox| ==> OnWire(inbox[k]) && inbox[k].code != PKT_MSG_ACP
    ensures var server := Loop(H, p, false, ip, port, LoopState(peer, conns, [Plain(PKT_MSG_ACP)], Running), inbox);
            var client := Loop(H, p, true, ip, port, LoopState(peer, conns, [], Running), inbox);
            server.peer == client.peer && server.conns == client.conns && server.end == client.end
            && server.sent == [Plain(PKT_MSG_ACP)] + client.sent
  {
    hide Loop, Plain;
    var st := LoopState(peer, conns, [], Running);
    var acp := [Plain(PKT_MSG_ACP)];
    SameLoop(H, p, ip, port, st, inbox);
    LoopAfter(H, p, false, ip, port, acp, st, inbox);
    assert After(acp, st) == LoopState(peer, conns, acp, Running) by {
      assert acp + [] == acp;
    }
  }

  /** What the byte at a place is after a RES: the packet's in the range it names, otherwise the old one or zero. */
  function ByteAfterRes(p: Package, file: Option<seq<byte>>, pl: seq<byte>, x: nat): byte
    requires |pl| == PAYLOAD_MAX
  {
    var o, d := ResOffset(pl), ResData(pl);
    if o <= x < o + |d| then d[x - o]
    else if file.Some? && x < |file.value| then file.value[x]
    else 0
  }

  /** How long the file is after a RES: long enough for the data, and as long as the package if it was missing. */
  function LengthAfterRes(p: Package, file: Option<seq<byte>>, pl: seq<byte>): nat
    requires |pl| == PAYLOAD_MAX
  {
    var n := if file.None? then p.size else |file.value|;
    var end := ResOffset(pl) + |ResData(pl)|;
    if ResData(pl) != [] && n < end then end else n
  }

  /** No piece is an error report. */
  lemma PiecesAreNoError(f: seq<byte>, offset: nat, n: int, hash: seq<byte>, ident: seq<byte>)
    requires Sendable(offset, hash, ident) && (n > 0 ==> offset + n < 0x8000_0000)
    ensures Pieces(f, offset, n, hash, ident) != [ErrorRes()]
  {
    if n > 0 {
      assert Pieces(f, offset, n, hash, ident)[0].error == 0;
    }
  }

  /** A running program: its package with data file and computed hashes, and its list of connections. */
  class Process {
    const pkg: Package
    var peer: Peer
    var conns: seq<Connection>

    ghost predicate Valid()
      reads this
    {
      pkg.FullTree() && CacheFits(pkg, peer)
    }

    constructor (p: Package, peer: Peer, conns: seq<Connection>)
      requires p.FullTree() && CacheFits(p, peer)
      ensures Valid() && pkg == p && this.peer == peer && this.conns == conns
    {
      pkg, this.peer, this.conns := p, peer, conns;
    }

    /** Sets the connected flag of the first entry for an address, if there is one. */
    method SetConnected(ip: seq<byte>, port: nat, connected: bool)
      modifies this`conns
      ensures conns == Flagged(old(conns), ip, port, connected)
      ensures |conns| == |old(conns)|
      ensures forall j :: 0 <= j < |conns| ==>
                conns[j] == if j == EntryOf(old(conns), ip, port) then Connection(ip, port, connected) else old(conns)[j]
    {
      for i := 0 to |conns|
        invariant conns == old(conns)
        invariant EntryOf(conns, ip, port) == i + EntryOf(conns[i..], ip, port)
      {
        if conns[i].ip == ip && conns[i].port == port {
          conns := conns[i := conns[i].(connected := connected)];
          return;
        }
      }
    }

    /** Takes the first entry for an address out of the list and moves the later ones up. */
    method RemoveConnection(ip: seq<byte>, port: nat)
      modifies this`conns
      ensures conns == Removed(old(conns), ip, port)
      ensures |conns| == if EntryOf(old(conns), ip, port) < |old(conns)| then |old(conns)| - 1 else |old(conns)|
      ensures forall j :: 0 <= j < |conns| ==>
                conns[j] == old(conns)[if j < EntryOf(old(conns), ip, port) then j else j + 1]
    {
      for i := 0 to |conns|
        invariant conns == old(conns)
        invariant EntryOf(conns, ip, port) == i + EntryOf(conns[i..], ip, port)
      {
        if conns[i].ip == ip && conns[i].port == port {
          conns := conns[..i] + conns[i + 1..];
          return;
        }
      }
    }

    /** The node that the hash of the request is found at does not have its expected hash. */
    ghost predicate Mismatch(pl: seq<byte>)
      requires Valid() && |pl| == PAYLOAD_MAX
      reads this
    {
      var k := FindFrom(|pkg.hashes|, pkg.Expected(), ReqHash(pl), 0);
      k.Some? && peer.cache.Some? && peer.cache.value[k.value] != pkg.Expected()[k.value]
    }

    /** generate_and_send_RES with the fields a handler has taken from a REQ. */
    method GenerateAndSendRes(H: Digester, pl: seq<byte>, ghost st: LoopState) returns (sent: seq<Packet>, end: End)
      requires Valid() && |pl| == PAYLOAD_MAX && st.peer == peer && st.end == Running
      modifies this`peer
      ensures Valid()
      ensures AfterRequest(H, pkg, st, pl) == LoopState(peer, st.conns, st.sent + sent, end)
      // The file stays, and the computed hashes are those of a check if the package is managed.
      ensures peer == if Manages(pkg, old(peer), ReqIdent(pl)) then Checked(H, pkg, old(peer)) else old(peer)
      // Nothing is sent where C leaves it undefined what happens.
      ensures end == Running || (end == Undefined && sent == [])
      // An error report alone, exactly if the package is not managed or the node found does not match.
      ensures sent == [ErrorRes()] <==> !Manages(pkg, old(peer), ReqIdent(pl)) || Mismatch(pl)
      // Otherwise the pieces of the range asked for, read from the file as it is.
      ensures end == Running && sent != [ErrorRes()] ==>
                peer.file.Some? && IntRange(ReqOffset(pl), ReqLen(pl)) &&
                sent == Pieces(peer.file.value, ReqOffset(pl), ToInt32(ReqLen(pl)), ReqHash(pl), ReqIdent(pl))
    {
      hide FindFrom, AfterVerify, Pieces, Package.Expected, SameIdent, ReqIdent, ReqHash, ReqLen, ReqOffset;
      sent, end := [], Running;
      assert st.sent + [] == st.sent;
      if !Manages(pkg, peer, ReqIdent(pl)) {
        return [ErrorRes()], Running;
      }
      peer := Checked(H, pkg, peer);
      var k := FindFrom(|pkg.hashes|, pkg.Expected(), ReqHash(pl), 0);
      if k.None? {
        return [], Undefined;
      }
      if peer.cache.value[k.value] != pkg.Expected()[k.value] {
        return [ErrorRes()], Running;
      }
      if peer.file.None? || !IntRange(ReqOffset(pl), ReqLen(pl)) {
        return [], Undefined;
      }
      RequestFieldSizes(pl);
      PiecesAreNoError(peer.file.value, ReqOffset(pl), ToInt32(ReqLen(pl)), ReqHash(pl), ReqIdent(pl));
      sent := SendPieces(peer.file.value, ReqLen(pl), ReqOffset(pl), ReqHash(pl), ReqIdent(pl));
    }

    /** Writes the data of a RES where it belongs, creating the file if it is missing. */
    method TakeRes(packet: Packet)
      requires Valid() && OnWire(packet)
      modifies this`peer
      ensures Valid() && peer == AfterRes(pkg, old(peer), packet)
      ensures peer.cache == old(peer).cache
      ensures packet.error != 0 || !Manages(pkg, old(peer), ResIdent(packet.payload)) ==> peer == old(peer)
      ensures packet.error == 0 && Manages(pkg, old(peer), ResIdent(packet.payload)) ==>
                peer.file.Some? && |peer.file.value| == LengthAfterRes(pkg, old(peer).file, packet.payload)
                && forall x :: 0 <= x < |peer.file.value| ==>
                     peer.file.value[x] == ByteAfterRes(pkg, old(peer).file, packet.payload, x)
    {
      hide SameIdent, ResOffset, ResData, ResIdent;
      if packet.error != 0 {
        return;
      }
      if !Manages(pkg, peer, ResIdent(packet.payload)) {
        return;
      }
      var file := FileCheck(pkg, peer.file);
      peer := peer.(file := Some(WriteAt(file, ResOffset(packet.payload), ResData(packet.payload))));
    }

    method ServerHandleClient(H: Digester, ip: seq<byte>, port: nat, inbox: seq<Packet>)
      returns (sent: seq<Packet>, end: End)
      requires Valid() && forall k :: 0 <= k < |inbox| ==> OnWire(inbox[k])
      modifies this
      ensures Valid()
      ensures LoopState(peer, conns, sent, end)
              == Loop(H, pkg, false, ip, port, LoopState(old(peer), old(conns), [Plain(PKT_MSG_ACP)], Running), inbox)
    {
      hide AfterRequest, AfterRes, Flagged, Removed, Plain;
      sent, end := [Plain(PKT_MSG_ACP)], Running;
      ghost var whole := Loop(H, pkg, false, ip, port, LoopState(peer, conns, sent, end), inbox);
      var i := 0;
      while i < |inbox| && end == Running
        invariant i <= |inbox| && Valid()
        invariant Loop(H, pkg, false, ip, port, LoopState(peer, conns, sent, end), inbox[i..]) == whole
        decreases |inbox| - i
      {
        ghost var st := LoopState(peer, conns, sent, end);
        var packet := inbox[i];
        assert inbox[i..][0] == packet && inbox[i..][1..] == inbox[i + 1..];
        i := i + 1;
        if packet.code == PKT_MSG_ACK {
          continue;
        }
        if packet.code == PKT_MSG_DSN {
          RemoveConnection(ip, port);
          end := Closed;
          continue;
        }
        if packet.code == PKT_MSG_PNG {
          sent := sent + [Plain(PKT_MSG_POG)];
          continue;
        }
        if packet.code == PKT_MSG_POG {
          continue;
        }
        if packet.code == PKT_MSG_REQ {
          var res, outcome := GenerateAndSendRes(H, packet.payload, st);
          sent, end := sent + res, outcome;
          continue;
        }
        if packet.code == PKT_MSG_RES {
          TakeRes(packet);
        }
      }
      if end != Undefined {
        SetConnected(ip, port, false);
        end := Closed;
      }
    }

    method ClientHandleServer(H: Digester, ip: seq<byte>, port: nat, inbox: seq<Packet>)
      returns (sent: seq<Packet>, end: End)
      requires Valid() && forall k :: 0 <= k < |inbox| ==> OnWire(inbox[k])
      modifies this
      ensures Valid()
      ensures LoopState(peer, conns, sent, end)
              == Loop(H, pkg, true, ip, port, LoopState(old(peer), old(conns), [], Running), inbox)
    {
      hide AfterRequest, AfterRes, Flagged, Removed, Plain;
      sent, end := [], Running;
      ghost var whole := Loop(H, pkg, true, ip, port, LoopState(peer, conns, sent, end), inbox);
      var i := 0;
      while i < |inbox| && end == Running
        invariant i <= |inbox| && Valid()
        invariant Loop(H, pkg, true, ip, port, LoopState(peer, conns, sent, end), inbox[i..]) == whole
        decreases |inbox| - i
      {
        ghost var st := LoopState(peer, conns, sent, end);
        var packet := inbox[i];
        assert inbox[i..][0] == packet && inbox[i..][1..] == inbox[i + 1..];
        i := i + 1;
        if packet.code == PKT_MSG_ACP {
          sent := sent + [Plain(PKT_MSG_ACK)];
          SetConnected(ip, port, true);
          continue;
        }
        if packet.code == PKT_MSG_DSN {
          RemoveConnection(ip, port);
          end := Closed;
          continue;
        }
        if packet.code == PKT_MSG_PNG {
          sent := sent + [Plain(PKT_MSG_POG)];
          continue;
        }
        if packet.code == PKT_MSG_POG {
          continue;
        }
        if packet.code == PKT_MSG_REQ {
          var res, outcome := GenerateAndSendRes(H, packet.payload, st);
          sent, end := sent + res, outcome;
          continue;
        }
        if packet.code == PKT_MSG_RES {
          TakeRes(packet);
        }
      }
      if end != Undefined {
        SetConnected(ip, port, false);
        end := Closed;
      }
    }
  }
}
