/**
 * What one turn of a packet loop does, packet code by packet code, and how the loops and the protocol fit: a
 * turn is the protocol's delivery of the packet followed by the sends of the job it starts, to the last.
 */
module Turns {
  import opened Bytes
  import opened Digests
  import opened Merkle
  import opened Lookup
  import opened Verification
  import opened Packets
  import opened Splitting
  import opened Protocol
  import opened Safety
  import opened Handlers

  // What a turn does.

  /** The reply of the protocol for a code alone. */
  predicate IsPlain(packet: Packet, code: nat) {
    packet.code == code && packet.error == 0 && |packet.payload| == 4092 &&
    forall i :: 0 <= i < 4092 ==> packet.payload[i] == 0
  }

  /** ACP, 2, at the connecting side: an ACK, 12, is sent and the first entry for the address counts as connected. */
  lemma AcpTurn(H: Digester, p: Package, ip: seq<byte>, port: nat, st: LoopState, packet: Packet)
    requires p.FullTree() && CacheFits(p, st.peer) && OnWire(packet) && packet.code == 0x02
    ensures var r := Turn(H, p, true, ip, port, st, packet);
            r.peer == st.peer && r.end == st.end && |r.sent| == |st.sent| + 1 && r.sent[..|st.sent|] == st.sent
            && IsPlain(r.sent[|st.sent|], 0x0c) && |r.conns| == |st.conns|
            && forall j :: 0 <= j < |st.conns| ==>
                 r.conns[j] == if j == EntryOf(st.conns, ip, port) then st.conns[j].(connected := true) else st.conns[j]
    ensures Turn(H, p, false, ip, port, st, packet) == st
  {
  }

  /** DSN, 3: the first entry for the address leaves the list, and the loop ends. */
  lemma DsnTurn(H: Digester, p: Package, client: bool, ip: seq<byte>, port: nat, st: LoopState, packet: Packet)
    requires p.FullTree() && CacheFits(p, st.peer) && OnWire(packet) && packet.code == 0x03
    ensures var r, e := Turn(H, p, client, ip, port, st, packet), EntryOf(st.conns, ip, port);
            r.peer == st.peer && r.sent == st.sent && r.end == Closed
            && (if e < |st.conns| then r.conns == st.conns[..e] + st.conns[e + 1..] else r.conns == st.conns)
  {
  }

  /** PNG, 255: a POG, 0, is sent. */
  lemma PngTurn(H: Digester, p: Package, client: bool, ip: seq<byte>, port: nat, st: LoopState, packet: Packet)
    requires p.FullTree() && CacheFits(p, st.peer) && OnWire(packet) && packet.code == 0xFF
    ensures var r := Turn(H, p, client, ip, port, st, packet);
            r == st.(sent := r.sent) && |r.sent| == |st.sent| + 1 && r.sent[..|st.sent|] == st.sent
            && IsPlain(r.sent[|st.sent|], 0x00)
  {
  }

  /** ACK, 12, and POG, 0: nothing happens. */
  lemma IdleTurn(H: Digester, p: Package, client: bool, ip: seq<byte>, port: nat, st: LoopState, packet: Packet)
    requires p.FullTree() && CacheFits(p, st.peer) && OnWire(packet) && (packet.code == 0x0c || packet.code == 0x00)
    ensures Turn(H, p, client, ip, port, st, packet) == st
  {
  }

  /** RES, 7: the bytes of the range it names are written, if it is no error report and the package is managed. */
  lemma ResTurn(H: Digester, p: Package, client: bool, ip: seq<byte>, port: nat, st: LoopState, packet: Packet)
    requires p.FullTree() && CacheFits(p, st.peer) && OnWire(packet) && packet.code == 0x07
    ensures var r := Turn(H, p, client, ip, port, st, packet);
            r == st.(peer := r.peer) && r.peer.cache == st.peer.cache
            && (packet.error != 0 || !Manages(p, st.peer, ResIdent(packet.payload)) ==> r.peer == st.peer)
            && (packet.error == 0 && Manages(p, st.peer, ResIdent(packet.payload)) ==>
                  r.peer.file.Some? && |r.peer.file.value| == LengthAfterRes(p, st.peer.file, packet.payload)
                  && forall x :: 0 <= x < |r.peer.file.value| ==>
                       r.peer.file.value[x] == ByteAfterRes(p, st.peer.file, packet.payload, x))
  {
    hide SameIdent, ResOffset, ResData, ResIdent;
  }

  /** What is sent are the pieces of the range a request asks for. */
  ghost predicate SendsRange(st: LoopState, r: LoopState, pl: seq<byte>)
    requires |pl| == PAYLOAD_MAX
  {
    st.peer.file.Some? && IntRange(ReqOffset(pl), ReqLen(pl)) &&
    Sendable(ReqOffset(pl), ReqHash(pl), ReqIdent(pl)) &&
    r.sent == st.sent + Pieces(st.peer.file.value, ReqOffset(pl), ToInt32(ReqLen(pl)), ReqHash(pl), ReqIdent(pl))
  }

  /** REQ, 6: the file is not touched, and what is sent is an error report or the pieces of the range asked for. */
  lemma ReqTurn(H: Digester, p: Package, client: bool, ip: seq<byte>, port: nat, st: LoopState, packet: Packet)
    requires p.FullTree() && CacheFits(p, st.peer) && OnWire(packet) && packet.code == 0x06 && st.end == Running
    ensures var r, pl := Turn(H, p, client, ip, port, st, packet), packet.payload;
            r.conns == st.conns && r.peer.file == st.peer.file
            && (!Manages(p, st.peer, ReqIdent(pl)) ==> r == st.(sent := st.sent + [ErrorRes()]))
            && (r.end == Running ==> r.sent == st.sent + [ErrorRes()] || SendsRange(st, r, pl))
            && (r.end != Running ==> r.end == Undefined && r.sent == st.sent)
  {
    hide SameIdent, FindFrom, Checked, Package.Expected, ReqIdent, ReqHash, ReqOffset, ReqLen, Pieces, ErrorRes;
  }

  /** When a loop is over, the first entry left for the address counts as disconnected, unless the outcome is undefined. */
  lemma {:induction false} LoopEnds(H: Digester, p: Package, client: bool, ip: seq<byte>, port: nat, st: LoopState, inbox: seq<Packet>)
    requires p.FullTree() && CacheFits(p, st.peer) && forall k :: 0 <= k < |inbox| ==> OnWire(inbox[k])
    ensures var r := Loop(H, p, client, ip, port, st, inbox);
            r.end == Undefined ||
            (r.end == Closed && forall j :: 0 <= j < |r.conns| && r.conns[j].connected ==>
               !(r.conns[j].ip == ip && r.conns[j].port == port) ||
               exists i :: 0 <= i < j && r.conns[i].ip == ip && r.conns[i].port == port)
    decreases |inbox|
  {
    hide Turn, Flagged;
    if st.end == Running && inbox != [] {
      LoopEnds(H, p, client, ip, port, Turn(H, p, client, ip, port, st, inbox[0]), inbox[1..]);
    } else if st.end != Undefined {
      FlagsFirst(st.conns, ip, port);
    }
  }

  lemma FlagsFirst(conns: seq<Connection>, ip: seq<byte>, port: nat)
    ensures var r := Flagged(conns, ip, port, false);
            forall j :: 0 <= j < |r| && r[j].connected ==>
              !(r[j].ip == ip && r[j].port == port) || exists i :: 0 <= i < j && r[i].ip == ip && r[i].port == port
  {
    var r, e := Flagged(conns, ip, port, false), EntryOf(conns, ip, port);
    forall j | 0 <= j < |r| && r[j].connected && r[j].ip == ip && r[j].port == port
      ensures exists i :: 0 <= i < j && r[i].ip == ip && r[i].port == port
    {
      assert e < j && r[e].ip == ip;
    }
  }

  // The loops and the protocol.

  /** What the protocol does for one connection without commands: deliver from it, or send over the way back. */
  ghost predicate Hop(H: Digester, p: Package, l: Link, s: State, s': State)
    requires p.FullTree() && Wired(p, s)
  {
    DeliverStep(H, p, s, l, s') || EmitStep(p, s, l.Back(), s')
  }

  ghost predicate HopAt(H: Digester, p: Package, l: Link, states: seq<State>, k: nat)
    requires p.FullTree() && k + 1 < |states|
  {
    Wired(p, states[k]) && Hop(H, p, l, states[k], states[k + 1])
  }

  ghost predicate Hops(H: Digester, p: Package, l: Link, states: seq<State>)
    requires p.FullTree()
  {
    |states| > 0 && forall k :: 0 <= k < |states| - 1 ==> HopAt(H, p, l, states, k)
  }

  lemma OneHop(H: Digester, p: Package, l: Link, s: State, s': State)
    requires p.FullTree() && Wired(p, s) && Hop(H, p, l, s, s')
    ensures Hops(H, p, l, [s, s'])
  {
    hide Hop, Wired;
  }

  lemma HopsJoin(H: Digester, p: Package, l: Link, a: seq<State>, b: seq<State>)
    requires p.FullTree() && Hops(H, p, l, a) && Hops(H, p, l, b) && a[|a| - 1] == b[0]
    ensures |a| > 0 && |b| > 0
    ensures Hops(H, p, l, a + b[1..]) && (a + b[1..])[0] == a[0] && (a + b[1..])[|a + b[1..]| - 1] == b[|b| - 1]
  {
    hide Hop, Wired;
    var c := a + b[1..];
    forall k | 0 <= k < |c| - 1 ensures HopAt(H, p, l, c, k) {
      if k < |a| - 1 {
        assert HopAt(H, p, l, a, k);
      } else {
        assert HopAt(H, p, l, b, k - (|a| - 1));
        assert c[k + 1] == b[k - (|a| - 1) + 1];
      }
    }
  }

  /** The state once these packets have gone back and the send loop over the way back has ended. */
  function SentBack(s: State, b: Link, packets: seq<Packet>): State
    requires b in s.channels
  {
    s.(channels := s.channels[b := s.channels[b] + packets], jobs := s.jobs - {b})
  }

  lemma SentBackMore(s: State, b: Link, packet: Packet, j: Job, rest: seq<Packet>)
    requires b in s.channels && b in s.jobs
    ensures var s1 := Sent(s, b, packet).(jobs := s.jobs[b := j]);
            b in s1.channels && SentBack(s1, b, rest) == SentBack(s, b, [packet] + rest)
  {
    var s1 := Sent(s, b, packet).(jobs := s.jobs[b := j]);
    assert s.channels[b] + [packet] + rest == s.channels[b] + ([packet] + rest);
    assert s1.jobs - {b} == s.jobs - {b};
    assert s1.channels[b := s1.channels[b] + rest] == s.channels[b := s.channels[b] + ([packet] + rest)];
  }

  /** A send loop that is left alone sends the pieces of its range and ends. */
  lemma {:induction false} SendsToTheEnd(H: Digester, p: Package, s: State, l: Link, f: seq<byte>, j: Job) returns (states: seq<State>)
    requires p.FullTree() && Wired(p, s) && l.Back() in s.jobs && s.jobs[l.Back()] == j && l.Back() in s.channels
    requires l.to < |s.peers| && s.peers[l.to].file == Some(f) && Sendable(j.offset, j.hash, j.ident)
    requires j.left > 0 ==> j.offset + j.left < 0x8000_0000
    ensures |states| > 0 && Hops(H, p, l, states) && states[0] == s
    ensures states[|states| - 1] == SentBack(s, l.Back(), Pieces(f, j.offset, j.left, j.hash, j.ident))
    decreases j.left
  {
    hide Wired, Hops, Piece, EmitStep;
    var b := l.Back();
    if j.left <= 0 {
      EndsLoop(p, s, b);
      var s' := s.(jobs := s.jobs - {b});
      OneHop(H, p, l, s, s');
      states := [s, s'];
      assert s.channels[b] + [] == s.channels[b];
      assert SentBack(s, b, []) == s';
    } else {
      var packet := Piece(f, j.offset, j.left, j.hash, j.ident);
      var s1 := Sent(s, b, packet).(jobs := s.jobs[b := Advanced(j)]);
      SendsPiece(p, s, b, f);
      PieceKeepsWired(p, s, b, packet, Advanced(j));
      OneHop(H, p, l, s, s1);
      var more := SendsToTheEnd(H, p, s1, l, f, Advanced(j));
      HopsJoin(H, p, l, [s, s1], more);
      states := [s, s1] + more[1..];
      SentBackMore(s, b, packet, Advanced(j), Pieces(f, j.offset + PieceLen(j.left), j.left - PieceLen(j.left), j.hash, j.ident));
    }
  }

  lemma PieceKeepsWired(p: Package, s: State, b: Link, packet: Packet, j: Job)
    requires Wired(p, s) && b in s.channels && b in s.jobs
    ensures Wired(p, Sent(s, b, packet).(jobs := s.jobs[b := j]))
  {
    hide CacheFits;
  }

  /** The state in which a turn that ends in r leaves the peer and its connection. */
  function AfterTurn(s: State, l: Link, r: Peer, replies: seq<Packet>): State
    requires l in s.channels && s.channels[l] != [] && l.to < |s.peers| && l.Back() in s.channels
  {
    var taken := Taken(s, l, r);
    taken.(channels := taken.channels[l.Back() := taken.channels[l.Back()] + replies])
  }

  lemma RepliesAre(s: State, l: Link, r: Peer, packet: Packet)
    requires l in s.channels && s.channels[l] != [] && l.to < |s.peers| && l.Back() in s.channels
    ensures Sent(Taken(s, l, r), l.Back(), packet) == AfterTurn(s, l, r, [packet])
    ensures Taken(s, l, r) == AfterTurn(s, l, r, [])
  {
    var taken := Taken(s, l, r);
    assert taken.channels[l.Back()] + [] == taken.channels[l.Back()];
    assert taken.channels[l.Back() := taken.channels[l.Back()]] == taken.channels;
  }

  lemma JobDone(s: State, l: Link, r: Peer, j: Job, replies: seq<Packet>)
    requires l in s.channels && s.channels[l] != [] && l.to < |s.peers| && l.Back() in s.channels && l.Back() !in s.jobs
    ensures var started := Taken(s, l, r).(jobs := Taken(s, l, r).jobs[l.Back() := j]);
            l.Back() in started.channels && SentBack(started, l.Back(), replies) == AfterTurn(s, l, r, replies)
  {
    var started := Taken(s, l, r).(jobs := Taken(s, l, r).jobs[l.Back() := j]);
    assert started.jobs - {l.Back()} == s.jobs;
  }

  lemma TakenKeepsWired(p: Package, s: State, l: Link, r: Peer)
    requires Wired(p, s) && l in s.channels && s.channels[l] != [] && l.to < |s.peers| && CacheFits(p, r)
    ensures Wired(p, Taken(s, l, r))
  {
    hide CacheFits;
  }

  lemma AfterTurnWired(p: Package, s: State, l: Link, r: Peer, replies: seq<Packet>)
    requires Wired(p, s) && l in s.channels && s.channels[l] != [] && l.to < |s.peers| && l.Back() in s.channels && CacheFits(p, r)
    ensures Wired(p, AfterTurn(s, l, r, replies))
  {
    hide CacheFits;
  }

  lemma StartKeepsWired(p: Package, s: State, b: Link, j: Job)
    requires Wired(p, s) && b in s.channels
    ensures Wired(p, s.(jobs := s.jobs[b := j]))
  {
    hide CacheFits;
  }

  /** The packets a turn adds. */
  ghost predicate Adds(st: LoopState, r: LoopState, replies: seq<Packet>) {
    r.sent == st.sent + replies
  }

  lemma ServedTurn(H: Digester, p: Package, s: State, l: Link, me: Peer, pl: seq<byte>) returns (states: seq<State>)
    requires p.FullTree() && Wired(p, s) && l in s.channels && s.channels[l] != [] && l.Back() in s.channels && l.Back() !in s.jobs
    requires l.to < |s.peers| && s.peers[l.to] == me && CacheFits(p, me)
    requires s.channels[l][0].code == PKT_MSG_REQ && s.channels[l][0].payload == pl && |pl| == PAYLOAD_MAX
    requires AnswerReq(H, p, me, pl).Serve?
    ensures me.file.Some?
    ensures var j := AnswerReq(H, p, me, pl).job;
            Hops(H, p, l, states) && states[0] == s
            && states[|states| - 1] ==
               AfterTurn(s, l, AfterReq(H, p, me, pl), Pieces(me.file.value, j.offset, j.left, j.hash, j.ident))
  {
    var j, me' := AnswerReq(H, p, me, pl).job, AfterReq(H, p, me, pl);
    var started := Taken(s, l, me').(jobs := Taken(s, l, me').jobs[l.Back() := j]);
    DeliverServes(H, p, s, l, me, pl);
    hide *;
    BackTwice(l);
    TakenKeepsWired(p, s, l, me');
    TakenShapes(s, l, me');
    StartKeepsWired(p, Taken(s, l, me'), l.Back(), j);
    OneHop(H, p, l, s, started);
    StartedShapes(s, l, me', j);
    var more := SendsToTheEnd(H, p, started, l, me.file.value, j);
    HopsJoin(H, p, l, [s, started], more);
    JobDone(s, l, me', j, Pieces(me.file.value, j.offset, j.left, j.hash, j.ident));
    states := [s, started] + more[1..];
  }

  lemma BackTwice(l: Link)
    ensures l.Back().Back() == l && l.Back() != l && l.Back().from == l.to
  {
  }

  lemma TakenShapes(s: State, l: Link, me: Peer)
    requires l in s.channels && s.channels[l] != [] && l.to < |s.peers|
    ensures Taken(s, l, me).channels.Keys == s.channels.Keys && Taken(s, l, me).jobs == s.jobs
    ensures |Taken(s, l, me).peers| == |s.peers| && Taken(s, l, me).peers[l.to] == me
  {
  }

  lemma StartedShapes(s: State, l: Link, me: Peer, j: Job)
    requires l in s.channels && s.channels[l] != [] && l.to < |s.peers| && l.Back() in s.channels
    ensures var started := Taken(s, l, me).(jobs := Taken(s, l, me).jobs[l.Back() := j]);
            l.Back() in started.channels && l.Back() in started.jobs && started.jobs[l.Back()] == j
            && l.to < |started.peers| && started.peers[l.to] == me
  {
  }

  lemma DeliverServes(H: Digester, p: Package, s: State, l: Link, me: Peer, pl: seq<byte>)
    requires p.FullTree() && Wired(p, s) && l in s.channels && s.channels[l] != [] && l.Back() !in s.jobs
    requires l.to < |s.peers| && s.peers[l.to] == me && CacheFits(p, me)
    requires s.channels[l][0].code == PKT_MSG_REQ && s.channels[l][0].payload == pl && |pl| == PAYLOAD_MAX
    requires AnswerReq(H, p, me, pl).Serve?
    ensures var me' := AfterReq(H, p, me, pl);
            CacheFits(p, me') && me'.file == me.file
            && Hop(H, p, l, s, Taken(s, l, me').(jobs := Taken(s, l, me').jobs[l.Back() := AnswerReq(H, p, me, pl).job]))
    ensures var j := AnswerReq(H, p, me, pl).job;
            me.file.Some? && Sendable(j.offset, j.hash, j.ident) && (j.left > 0 ==> j.offset + j.left < 0x8000_0000)
  {
    hide AnswerReq, AfterReq, CacheFits, EmitStep, Wired;
  }

  /** A packet whose turn starts no send loop is one delivery. */
  lemma OtherTurn(H: Digester, p: Package, s: State, l: Link, client: bool, ip: seq<byte>, port: nat, st: LoopState)
    returns (states: seq<State>, replies: seq<Packet>)
    requires p.FullTree() && Wired(p, s) && l in s.channels && s.channels[l] != [] && l.Back() in s.channels && l.Back() !in s.jobs
    requires l.to < |s.peers| && s.peers[l.to] == st.peer && CacheFits(p, st.peer) && OnWire(s.channels[l][0])
    requires s.channels[l][0].code != PKT_MSG_DSN && !(client && s.channels[l][0].code == PKT_MSG_ACP)
    requires s.channels[l][0].code == PKT_MSG_REQ ==> AnswerReq(H, p, st.peer, s.channels[l][0].payload).Refuse?
    ensures var r := Turn(H, p, client, ip, port, st, s.channels[l][0]);
            Adds(st, r, replies) && r.conns == st.conns && r.end == st.end
            && Hops(H, p, l, states) && states[0] == s && states[|states| - 1] == AfterTurn(s, l, r.peer, replies)
  {
    var packet := s.channels[l][0];
    var r := Turn(H, p, client, ip, port, st, packet);
    assert Popped(s, l).peers == s.peers[l.to := s.peers[l.to]];
    hide AnswerReq, AfterReq, AfterRes, Plain, ErrorRes, CacheFits, Wired, EmitStep, Hops;
    if packet.code == PKT_MSG_REQ {
      replies := [ErrorRes()];
      RepliesAre(s, l, r.peer, ErrorRes());
    } else if packet.code == PKT_MSG_PNG {
      replies := [Plain(PKT_MSG_POG)];
      RepliesAre(s, l, r.peer, Plain(PKT_MSG_POG));
    } else {
      replies := [];
      RepliesAre(s, l, r.peer, ErrorRes());
    }
    var s' := AfterTurn(s, l, r.peer, replies);
    assert DeliverStep(H, p, s, l, s');
    OneHop(H, p, l, s, s');
    states := [s, s'];
  }

  /**
   * A turn is what the protocol does with the packet: delivering it and then sending to the end ends with the
   * turn's peer, and adds to the way back just what the turn adds to what has been sent. ACP at the connecting
   * side, DSN, and what C leaves undefined are not steps of the protocol.
   */
  lemma TurnIsProtocol(H: Digester, p: Package, s: State, l: Link, client: bool, ip: seq<byte>, port: nat, st: LoopState)
    returns (states: seq<State>, replies: seq<Packet>)
    requires p.FullTree() && Wired(p, s) && l in s.channels && s.channels[l] != [] && l.Back() in s.channels && l.Back() !in s.jobs
    requires l.to < |s.peers| && s.peers[l.to] == st.peer && CacheFits(p, st.peer) && OnWire(s.channels[l][0])
    requires s.channels[l][0].code != PKT_MSG_DSN && !(client && s.channels[l][0].code == PKT_MSG_ACP)
    requires st.end == Running && Turn(H, p, client, ip, port, st, s.channels[l][0]).end == Running
    ensures var r := Turn(H, p, client, ip, port, st, s.channels[l][0]);
            Adds(st, r, replies) && r.conns == st.conns
            && Hops(H, p, l, states) && states[0] == s && states[|states| - 1] == AfterTurn(s, l, r.peer, replies)
  {
    var packet := s.channels[l][0];
    var r := Turn(H, p, client, ip, port, st, packet);
    hide AnswerReq, AfterReq, AfterRes, Plain, ErrorRes, CacheFits, Wired, Hops, DeliverStep, AfterTurn, Pieces;
    if packet.code == PKT_MSG_REQ && AnswerReq(H, p, st.peer, packet.payload).Serve? {
      var j := AnswerReq(H, p, st.peer, packet.payload).job;
      states := ServedTurn(H, p, s, l, st.peer, packet.payload);
      replies := Pieces(st.peer.file.value, j.offset, j.left, j.hash, j.ident);
    } else {
      states, replies := OtherTurn(H, p, s, l, client, ip, port, st);
    }
  }

  // A whole connection.

  lemma AfterTurnShape(s: State, l: Link, r: Peer, replies: seq<Packet>)
    requires l in s.channels && s.channels[l] != [] && l.to < |s.peers| && l.Back() in s.channels
    ensures var s' := AfterTurn(s, l, r, replies);
            l in s'.channels && l.Back() in s'.channels && s'.channels[l] == s.channels[l][1..] && s'.jobs == s.jobs
            && s'.channels[l.Back()] == s.channels[l.Back()] + replies
            && |s'.peers| == |s.peers| && s'.peers == s.peers[l.to := r]
  {
    BackTwice(l);
  }

  /** A loop over packets none of which is a DSN, or an ACP at the connecting side, and whose outcome is defined. */
  ghost predicate Plainly(H: Digester, p: Package, client: bool, ip: seq<byte>, port: nat, st: LoopState, inbox: seq<Packet>)
    requires p.FullTree() && CacheFits(p, st.peer)
  {
    (forall k :: 0 <= k < |inbox| ==>
       OnWire(inbox[k]) && inbox[k].code != PKT_MSG_DSN && !(client && inbox[k].code == PKT_MSG_ACP)) &&
    Loop(H, p, client, ip, port, st, inbox).end != Undefined
  }

  lemma PlainlyOn(H: Digester, p: Package, client: bool, ip: seq<byte>, port: nat, st: LoopState, inbox: seq<Packet>)
    requires p.FullTree() && CacheFits(p, st.peer) && st.end == Running && inbox != []
    requires Plainly(H, p, client, ip, port, st, inbox)
    ensures OnWire(inbox[0]) && inbox[0].code != PKT_MSG_DSN && !(client && inbox[0].code == PKT_MSG_ACP)
    ensures var st' := Turn(H, p, client, ip, port, st, inbox[0]);
            st'.end == Running && CacheFits(p, st'.peer) && Plainly(H, p, client, ip, port, st', inbox[1..])
            && Loop(H, p, client, ip, port, st, inbox) == Loop(H, p, client, ip, port, st', inbox[1..])
  {
    var st' := Turn(H, p, client, ip, port, st, inbox[0]);
    hide AnswerReq, AfterReq, AfterRes, Plain, ErrorRes, Flagged, Removed, Pieces;
    assert st'.end != Closed;
    hide Turn, AfterRequest;
    assert Loop(H, p, client, ip, port, st, inbox) == Loop(H, p, client, ip, port, st', inbox[1..]);
  }

  /**
   * A packet loop does what the protocol does: over any packets without ACP and DSN, if nothing else happens
   * meanwhile, delivering them one by one and sending each time to the end empties the connection, leaves the
   * peer as the loop does, and puts on the way back what the loop sends.
   */
  lemma {:induction false} LoopIsProtocol(H: Digester, p: Package, s: State, l: Link, client: bool, ip: seq<byte>, port: nat,
                                          st: LoopState)
    returns (states: seq<State>, replies: seq<Packet>)
    requires p.FullTree() && Wired(p, s) && l in s.channels && l.Back() in s.channels && l.Back() !in s.jobs
    requires l.to < |s.peers| && s.peers[l.to] == st.peer && CacheFits(p, st.peer) && st.end == Running
    requires Plainly(H, p, client, ip, port, st, s.channels[l])
    ensures forall k :: 0 <= k < |s.channels[l]| ==> OnWire(s.channels[l][k])
    ensures Hops(H, p, l, states) && states[0] == s
    ensures var r, end := Loop(H, p, client, ip, port, st, s.channels[l]), states[|states| - 1];
            r.sent == st.sent + replies && l in end.channels && l.Back() in end.channels && l.to < |end.peers|
            && end.channels[l] == [] && end.channels[l.Back()] == s.channels[l.Back()] + replies
            && end.jobs == s.jobs && end.peers == s.peers[l.to := r.peer]
    decreases |s.channels[l]|
  {
    hide *;
    AllOnWire(H, p, client, ip, port, st, s.channels[l]);
    if s.channels[l] == [] {
      states, replies := [s], [];
      NothingLeft(H, p, s, l, client, ip, port, st);
    } else {
      var inbox := s.channels[l];
      PlainlyOn(H, p, client, ip, port, st, inbox);
      var st' := Turn(H, p, client, ip, port, st, inbox[0]);
      var first, now := TurnIsProtocol(H, p, s, l, client, ip, port, st);
      var s' := AfterTurn(s, l, st'.peer, now);
      AfterTurnShape(s, l, st'.peer, now);
      AfterTurnWired(p, s, l, st'.peer, now);
      var more, later := LoopIsProtocol(H, p, s', l, client, ip, port, st');
      HopsJoin(H, p, l, first, more);
      states, replies := first + more[1..], now + later;
      AddsTwice(st, st', now, later);
      assert s.channels[l.Back()] + now + later == s.channels[l.Back()] + (now + later);
    }
  }

  lemma NothingLeft(H: Digester, p: Package, s: State, l: Link, client: bool, ip: seq<byte>, port: nat, st: LoopState)
    requires p.FullTree() && l in s.channels && l.Back() in s.channels && l.to < |s.peers| && s.peers[l.to] == st.peer
    requires CacheFits(p, st.peer) && st.end == Running && s.channels[l] == []
    ensures Hops(H, p, l, [s]) && [s][|[s]| - 1] == s
    ensures Loop(H, p, client, ip, port, st, s.channels[l]).sent == st.sent + []
    ensures s.channels[l.Back()] == s.channels[l.Back()] + []
    ensures s.peers == s.peers[l.to := Loop(H, p, client, ip, port, st, s.channels[l]).peer]
  {
  }

  lemma AllOnWire(H: Digester, p: Package, client: bool, ip: seq<byte>, port: nat, st: LoopState, inbox: seq<Packet>)
    requires p.FullTree() && CacheFits(p, st.peer) && Plainly(H, p, client, ip, port, st, inbox)
    ensures forall k :: 0 <= k < |inbox| ==> OnWire(inbox[k])
  {
  }

  lemma AddsTwice(st: LoopState, st': LoopState, now: seq<Packet>, later: seq<Packet>)
    requires Adds(st, st', now)
    ensures st'.sent + later == st.sent + (now + later)
  {
  }
}
