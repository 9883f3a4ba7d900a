/**
 * Progress: a connection that is not quiet has a packet to deliver or to send, each delivery or send uses
 * up some of what is on its way, and so every run can be continued to one that ends with all quiet.
 */
module Progress {
  import opened Bytes
  import opened Digests
  import opened Merkle
  import opened Lookup
  import opened Verification
  import opened Packets
  import opened Splitting
  import opened Protocol
  import opened Requests
  import opened Safety
  import opened Pledges
  import opened Completion

  // What is still on its way, counted.

  /** A packet counts for itself and for what its delivery can set going. */
  function PacketWeight(packet: Packet): nat {
    if packet.code == PKT_MSG_REQ && |packet.payload| == PAYLOAD_MAX then 3 + 2 * ReqLen(packet.payload)
    else if packet.code == PKT_MSG_PNG then 2
    else 1
  }

  function QueueWeight(q: seq<Packet>): nat {
    if q == [] then 0 else PacketWeight(q[0]) + QueueWeight(q[1..])
  }

  function JobWeight(j: Job): (w: nat)
    ensures w > 0
  {
    if j.left > 0 then 1 + 2 * j.left else 1
  }

  function LinkWeight(s: State, l: Link): nat
    requires l in s.channels
  {
    QueueWeight(s.channels[l]) + if l in s.jobs then JobWeight(s.jobs[l]) else 0
  }

  ghost function Pick(m: map<Link, nat>): (l: Link)
    requires m != map[]
    ensures l in m
  {
    var l :| l in m; l
  }

  ghost function Total(m: map<Link, nat>): nat
    decreases |m|
  {
    if m == map[] then 0 else m[Pick(m)] + Total(m - {Pick(m)})
  }

  lemma {:induction false} TotalSplits(m: map<Link, nat>, l: Link)
    requires l in m
    ensures Total(m) == m[l] + Total(m - {l})
    decreases |m|
  {
    var x := Pick(m);
    if x != l {
      TotalSplits(m - {x}, l);
      TotalSplits(m - {l}, x);
      assert m - {x} - {l} == m - {l} - {x};
    }
  }

  function Weights(s: State): map<Link, nat> {
    map l | l in s.channels :: LinkWeight(s, l)
  }

  ghost function Measure(s: State): nat {
    Total(Weights(s))
  }

  /** The two states differ on no connection but those given. */
  ghost predicate SameBut(s: State, s': State, a: Link, b: Link) {
    s'.channels.Keys == s.channels.Keys &&
    forall l :: l in s.channels && l != a && l != b ==> LinkWeight(s', l) == LinkWeight(s, l)
  }

  lemma MeasureFalls(s: State, s': State, a: Link, b: Link)
    requires a in s.channels && b in s.channels && a != b && SameBut(s, s', a, b)
    requires LinkWeight(s', a) + LinkWeight(s', b) < LinkWeight(s, a) + LinkWeight(s, b)
    ensures Measure(s') < Measure(s)
  {
    hide LinkWeight, Total;
    var m, m' := Weights(s), Weights(s');
    TotalSplits(m, a);
    TotalSplits(m - {a}, b);
    TotalSplits(m', a);
    TotalSplits(m' - {a}, b);
    assert m - {a} - {b} == m' - {a} - {b};
  }

  lemma {:induction false} QueueWeightAppends(q: seq<Packet>, packet: Packet)
    ensures QueueWeight(q + [packet]) == QueueWeight(q) + PacketWeight(packet)
  {
    hide PacketWeight;
    if q == [] {
      assert q + [packet] == [packet];
      assert [packet][1..] == [];
    } else {
      assert (q + [packet])[1..] == q[1..] + [packet];
      QueueWeightAppends(q[1..], packet);
    }
  }

  lemma BackIsOther(l: Link)
    ensures l.Back() != l && l.Back().Back() == l
  {
  }

  // Each delivery and each send makes it less.

  lemma TakenWeight(s: State, l: Link, me: Peer)
    requires l in s.channels && s.channels[l] != [] && l.to < |s.peers| && l.Back() in s.channels
    ensures var after := Taken(s, l, me);
            after.channels.Keys == s.channels.Keys && after.jobs == s.jobs
            && SameBut(s, after, l, l.Back())
            && LinkWeight(after, l) == LinkWeight(s, l) - PacketWeight(s.channels[l][0])
            && LinkWeight(after, l.Back()) == LinkWeight(s, l.Back())
  {
    BackIsOther(l);
    hide PacketWeight, JobWeight;
  }

  lemma SentWeight(s: State, l: Link, packet: Packet)
    requires l in s.channels
    ensures Sent(s, l, packet).channels.Keys == s.channels.Keys && Sent(s, l, packet).jobs == s.jobs
    ensures LinkWeight(Sent(s, l, packet), l) == LinkWeight(s, l) + PacketWeight(packet)
    ensures forall m :: m in s.channels && m != l ==> LinkWeight(Sent(s, l, packet), m) == LinkWeight(s, m)
  {
    QueueWeightAppends(s.channels[l], packet);
    hide PacketWeight, JobWeight, QueueWeight;
  }

  lemma JobAddedWeight(s: State, l: Link, j: Job)
    requires l in s.channels && l !in s.jobs
    ensures var s' := s.(jobs := s.jobs[l := j]);
            s'.channels == s.channels && LinkWeight(s', l) == LinkWeight(s, l) + JobWeight(j)
            && forall m :: m in s.channels && m != l ==> LinkWeight(s', m) == LinkWeight(s, m)
  {
    hide JobWeight, QueueWeight;
  }

  lemma SmallWeights()
    ensures PacketWeight(ErrorRes()) == 1 && PacketWeight(Plain(PKT_MSG_POG)) == 1
  {
  }

  lemma ServedWeight(H: Digester, p: Package, peer: Peer, packet: Packet)
    requires p.FullTree() && CacheFits(p, peer) && |packet.payload| == PAYLOAD_MAX && packet.code == PKT_MSG_REQ
    requires AnswerReq(H, p, peer, packet.payload).Serve?
    ensures JobWeight(AnswerReq(H, p, peer, packet.payload).job) < PacketWeight(packet)
  {
    hide FindFrom, Checked, Package.Expected, SameIdent, ReqIdent, ReqHash, ReqLen, ReqOffset;
  }

  lemma DeliverFalls(H: Digester, p: Package, s: State, l: Link, s': State)
    requires p.FullTree() && Wired(p, s) && DeliverStep(H, p, s, l, s')
    ensures Measure(s') < Measure(s)
  {
    DeliveryCases(H, p, s, l, s');
    assert CacheFits(p, s.peers[l.to]);
    var packet, me, b := s.channels[l][0], s.peers[l.to], l.Back();
    hide *;
    BackIsOther(l);
    PacketCounts(packet);
    SmallWeights();
    if packet.code == PKT_MSG_REQ {
      var after := Taken(s, l, AfterReq(H, p, me, packet.payload));
      TakenWeight(s, l, AfterReq(H, p, me, packet.payload));
      if AnswerReq(H, p, me, packet.payload).Refuse? {
        SentWeight(after, b, ErrorRes());
      } else {
        ServedWeight(H, p, me, packet);
        JobAddedWeight(after, b, AnswerReq(H, p, me, packet.payload).job);
      }
      SameButTwice(s, after, s', l, b);
    } else if packet.code == PKT_MSG_RES {
      TakenWeight(s, l, AfterRes(p, me, packet));
    } else {
      var after := Taken(s, l, me);
      TakenWeight(s, l, me);
      if packet.code == PKT_MSG_PNG {
        SentWeight(after, b, Plain(PKT_MSG_POG));
        SameButTwice(s, after, s', l, b);
      }
    }
    MeasureFalls(s, s', l, b);
  }

  lemma PacketCounts(packet: Packet)
    ensures PacketWeight(packet) > 0
    ensures packet.code == PKT_MSG_PNG || (packet.code == PKT_MSG_REQ && |packet.payload| == PAYLOAD_MAX) ==> PacketWeight(packet) > 1
  {
    hide ReqLen;
  }

  lemma SameButTwice(s: State, s1: State, s': State, a: Link, b: Link)
    requires SameBut(s, s1, a, b) && s'.channels.Keys == s1.channels.Keys
    requires forall m :: m in s1.channels && m != b ==> LinkWeight(s', m) == LinkWeight(s1, m)
    ensures SameBut(s, s', a, b)
  {
    hide LinkWeight;
  }

  lemma PieceWeight(f: seq<byte>, j: Job)
    requires j.left > 0 && Sendable(j.offset, j.hash, j.ident)
    ensures PacketWeight(Piece(f, j.offset, j.left, j.hash, j.ident)) + JobWeight(Advanced(j)) < JobWeight(j)
  {
    hide EncodeRes, ReadPadded;
  }

  lemma JobChangedWeight(s: State, l: Link, j: Job)
    requires l in s.channels && l in s.jobs
    ensures var s' := s.(jobs := s.jobs[l := j]);
            s'.channels == s.channels && LinkWeight(s', l) == LinkWeight(s, l) - JobWeight(s.jobs[l]) + JobWeight(j)
            && forall m :: m in s.channels && m != l ==> LinkWeight(s', m) == LinkWeight(s, m)
  {
    hide JobWeight, QueueWeight;
  }

  lemma JobDroppedWeight(s: State, l: Link)
    requires l in s.channels && l in s.jobs
    ensures var s' := s.(jobs := s.jobs - {l});
            s'.channels == s.channels && LinkWeight(s', l) == LinkWeight(s, l) - JobWeight(s.jobs[l])
            && forall m :: m in s.channels && m != l ==> LinkWeight(s', m) == LinkWeight(s, m)
  {
    hide QueueWeight;
  }

  lemma EmitFalls(p: Package, s: State, l: Link, s': State)
    requires Wired(p, s) && EmitStep(p, s, l, s')
    ensures Measure(s') < Measure(s)
  {
    EmissionCases(p, s, l, s');
    assert l.Back() in s.channels;
    var j, b := s.jobs[l], l.Back();
    hide *;
    BackIsOther(l);
    if j.left > 0 {
      var f := s.peers[l.from].file.value;
      var packet := Piece(f, j.offset, j.left, j.hash, j.ident);
      var sent := Sent(s, l, packet);
      SentWeight(s, l, packet);
      PieceWeight(f, j);
      JobChangedWeight(sent, l, Advanced(j));
      assert s' == sent.(jobs := sent.jobs[l := Advanced(j)]);
    } else {
      JobDroppedWeight(s, l);
      JobCounts(j);
    }
    OthersSame(s, s', l, b);
    MeasureFalls(s, s', l, b);
  }

  lemma JobCounts(j: Job)
    ensures JobWeight(j) > 0
  {
  }

  lemma OthersSame(s: State, s': State, a: Link, b: Link)
    requires s'.channels.Keys == s.channels.Keys
    requires forall m :: m in s.channels && m != a ==> LinkWeight(s', m) == LinkWeight(s, m)
    ensures SameBut(s, s', a, b)
  {
    hide LinkWeight;
  }

  /** Without commands a run is over after as many steps as the measure says, at most. */
  lemma PendingStepFalls(H: Digester, p: Package, s: State, ev: Event, s': State)
    requires p.FullTree() && Wired(p, s) && Step(H, p, s, ev, s') && Pending(ev)
    ensures Measure(s') < Measure(s)
  {
    hide Measure, DeliverStep, EmitStep, Wired, Package.FullTree;
    if ev.Deliver? {
      DeliverFalls(H, p, s, ev.link, s');
    } else {
      EmitFalls(p, s, ev.link, s');
    }
  }

  // Where something is on its way, a step can be taken.

  lemma CanAnswer(H: Digester, p: Package, s: State, l: Link) returns (s': State)
    requires p.FullTree() && Wired(p, s) && l in s.channels && s.channels[l] != [] && l.Back() !in s.jobs
    requires |s.channels[l][0].payload| == PAYLOAD_MAX && l.to < |s.peers| && CacheFits(p, s.peers[l.to])
    requires s.channels[l][0].code == PKT_MSG_REQ && !AnswerReq(H, p, s.peers[l.to], s.channels[l][0].payload).Crash?
    ensures DeliverStep(H, p, s, l, s')
  {
    assert l.Back() in s.channels;
    var packet, me := s.channels[l][0], s.peers[l.to];
    hide AnswerReq, AfterReq, ErrorRes, CacheFits, Wired;
    var checked := Popped(s, l).(peers := s.peers[l.to := AfterReq(H, p, me, packet.payload)]);
    match AnswerReq(H, p, me, packet.payload) {
      case Refuse => s' := Sent(checked, l.Back(), ErrorRes());
      case Serve(j) => s' := checked.(jobs := s.jobs[l.Back() := j]);
      case Crash =>
    }
  }

  lemma CanTakeOther(H: Digester, p: Package, s: State, l: Link) returns (s': State)
    requires p.FullTree() && Wired(p, s) && l in s.channels && s.channels[l] != [] && l.Back() !in s.jobs
    requires |s.channels[l][0].payload| == PAYLOAD_MAX && s.channels[l][0].code != PKT_MSG_REQ
    ensures DeliverStep(H, p, s, l, s')
  {
    assert l.Back() in s.channels && l.to < |s.peers|;
    var packet, rest, me := s.channels[l][0], Popped(s, l), s.peers[l.to];
    hide AfterRes, Plain, CacheFits, Wired;
    if packet.code == PKT_MSG_RES {
      s' := rest.(peers := s.peers[l.to := AfterRes(p, me, packet)]);
    } else if packet.code == PKT_MSG_PNG {
      s' := Sent(rest, l.Back(), Plain(PKT_MSG_POG));
    } else {
      s' := rest;
    }
  }

  /** In a safe state, the first packet of a connection can be taken unless its handler is busy sending. */
  lemma CanDeliver(H: Digester, p: Package, t: seq<byte>, s: State, l: Link) returns (s': State)
    requires p.FullTree() && Wired(p, s) && SafeState(H, p, t, s)
    requires l in s.channels && s.channels[l] != [] && l.Back() !in s.jobs
    ensures DeliverStep(H, p, s, l, s')
  {
    assert TruePacket(t, s.channels[l][0]);
    hide Wired, AnswerReq, TrueRes, CacheFits, DeliverStep;
    if s.channels[l][0].code == PKT_MSG_REQ {
      s' := CanAnswer(H, p, s, l);
    } else {
      s' := CanTakeOther(H, p, s, l);
    }
  }

  /** A send loop at work on a range that is right can send. */
  lemma GoodJobCanSend(t: seq<byte>, file: Option<seq<byte>>, j: Job)
    requires |t| < 0x8000_0000 && GoodJob(t, file, j) && j.left > 0
    ensures file.Some? && Sendable(j.offset, j.hash, j.ident)
  {
    RightRangeFits(t, file, Ask(j.hash, j.offset, j.left));
  }

  lemma CanEmit(p: Package, t: seq<byte>, s: State, l: Link) returns (s': State)
    requires p.FullTree() && |t| < 0x8000_0000 && Inv(p, t, s) && Wired(p, s) && l in s.jobs
    ensures EmitStep(p, s, l, s')
  {
    hide *;
    InvGivesJob(p, t, s, l);
    var j := s.jobs[l];
    if j.left <= 0 {
      EndsLoop(p, s, l);
      s' := s.(jobs := s.jobs - {l});
    } else {
      GoodJobCanSend(t, s.peers[l.from].file, j);
      var f := s.peers[l.from].file.value;
      SendsPiece(p, s, l, f);
      s' := Sent(s, l, Piece(f, j.offset, j.left, j.hash, j.ident)).(jobs := s.jobs[l := Advanced(j)]);
    }
  }

  /** Which of the four things on its way keeps a connection busy. */
  lemma BusyBecause(p: Package, s: State, l: Link)
    requires Wired(p, s) && l in s.channels && !Quiet(s, l)
    ensures l.Back() in s.channels && (l.Back() in s.jobs || s.channels[l] != [] || s.channels[l.Back()] != [])
    ensures l.Back() != l && l.Back().Back() == l
  {
    hide CacheFits;
  }

  /** In a reachable state, a connection that is not quiet has a delivery or a send that can happen. */
  lemma BusyCanMove(H: Digester, p: Package, t: seq<byte>, s: State, l: Link) returns (ev: Event, s': State)
    requires Setting(H, p, t) && p.FullTree() && Inv(p, t, s) && Wired(p, s) && GenuineState(H, p, t, s)
    requires l in s.channels && !Quiet(s, l)
    ensures Pending(ev) && (ev.link == l || ev.link == l.Back()) && Step(H, p, s, ev, s')
  {
    hide *;
    SettingSizes(H, p, t);
    InvIsSafe(H, p, t, s);
    BusyBecause(p, s, l);
    if l.Back() in s.jobs {
      ev := Emit(l.Back());
      s' := CanEmit(p, t, s, l.Back());
    } else if s.channels[l] != [] {
      ev := Deliver(l);
      s' := CanDeliver(H, p, t, s, l);
    } else if l in s.jobs {
      ev := Emit(l);
      s' := CanEmit(p, t, s, l);
    } else {
      ev := Deliver(l.Back());
      s' := CanDeliver(H, p, t, s, l.Back());
    }
    PendingStep(H, p, s, ev, s');
  }

  lemma PendingStep(H: Digester, p: Package, s: State, ev: Event, s': State)
    requires p.FullTree() && Wired(p, s)
    requires (ev.Deliver? && DeliverStep(H, p, s, ev.link, s')) || (ev.Emit? && EmitStep(p, s, ev.link, s'))
    ensures Pending(ev) && Step(H, p, s, ev, s')
  {
    hide DeliverStep, EmitStep, Wired;
  }

  // Continuing a run until everything sent has arrived.

  ghost predicate AllQuiet(s: State) {
    forall l {:trigger Quiet(s, l)} :: l in s.channels ==> Quiet(s, l)
  }

  /** The second run goes on from the first, without commands. */
  ghost predicate Continues(states: seq<State>, events: seq<Event>, states': seq<State>, events': seq<Event>) {
    states <= states' && events <= events' && forall k :: |events| <= k < |events'| ==> Pending(events'[k])
  }

  lemma ContinuesOn(states: seq<State>, events: seq<Event>, ev: Event, s': State, states': seq<State>,
                    events': seq<Event>)
    requires Pending(ev) && Continues(states + [s'], events + [ev], states', events')
    ensures Continues(states, events, states', events')
  {
    assert states <= states + [s'] && events <= events + [ev];
    forall k | |events| <= k < |events'| ensures Pending(events'[k]) {
      if k == |events| {
        assert events'[k] == (events + [ev])[k];
      }
    }
  }

  lemma SoundGrows(p: Package, t: seq<byte>, states: seq<State>, events: seq<Event>, ev: Event, s': State)
    requires p.FullTree() && SoundRun(p, t, states, events) && Pending(ev)
    ensures SoundRun(p, t, states + [s'], events + [ev])
  {
    hide SoundFetch;
    var more, evs := states + [s'], events + [ev];
    forall k | 0 <= k < |evs| ensures SoundEvent(p, t, more[k], evs[k]) {
      if k < |events| {
        assert SoundEvent(p, t, states[k], events[k]);
      }
    }
  }

  /**
   * Every run in which each FETCH is sound can be continued, by deliveries and sends alone, to one at whose end
   * every connection is quiet; or a file held by some peer on the way makes the hash collide.
   */
  lemma {:induction false} RunQuietens(H: Digester, p: Package, t: seq<byte>, states: seq<State>, events: seq<Event>)
    returns (states': seq<State>, events': seq<Event>, m: nat, q: nat)
    requires Setting(H, p, t) && p.FullTree() && Run(H, p, states, events) && |states| == |events| + 1
    requires SoundRun(p, t, states, events)
    ensures Run(H, p, states', events') && |states'| == |events'| + 1 && Continues(states, events, states', events')
    ensures SoundRun(p, t, states', events')
    ensures AllQuiet(states'[|events'|]) || ForgeryAt(H, p, t, states', |states'|, m, q)
    decreases Measure(states[|events|])
  {
    hide Setting, Run, Package.FullTree, GenuineUpTo, ForgeryAt, Inv, Wired, Step, Measure, Quiet, Continues, Pending,
         SoundRun;
    states', events' := states, events;
    m, q := FindForgery(H, p, t, states, |states|);
    RunContinuesItself(states, events);
    if GenuineUpTo(H, p, t, states, |states|) {
      var s := states[|events|];
      if l :| l in s.channels && !Quiet(s, l) {
        var ev, s' := NextStep(H, p, t, states, events, l);
        PendingStepFalls(H, p, s, ev, s');
        SoundGrows(p, t, states, events, ev, s');
        states', events', m, q := RunQuietens(H, p, t, states + [s'], events + [ev]);
        ContinuesOn(states, events, ev, s', states', events');
      }
    }
  }

  lemma RunContinuesItself(states: seq<State>, events: seq<Event>)
    ensures Continues(states, events, states, events)
  {
  }

  lemma NextStep(H: Digester, p: Package, t: seq<byte>, states: seq<State>, events: seq<Event>, l: Link)
    returns (ev: Event, s': State)
    requires Setting(H, p, t) && p.FullTree() && Run(H, p, states, events) && |states| == |events| + 1
    requires SoundRun(p, t, states, events) && GenuineUpTo(H, p, t, states, |states|)
    requires l in states[|events|].channels && !Quiet(states[|events|], l)
    ensures Pending(ev) && Wired(p, states[|events|]) && Step(H, p, states[|events|], ev, s')
    ensures Run(H, p, states + [s'], events + [ev])
  {
    hide Setting, Run, Package.FullTree, GenuineUpTo, Inv, Wired, Step, Quiet, Pending, SoundRun;
    GenuineAt(H, p, t, states, |states|, |events|);
    RunIsSafe(H, p, t, states, events, |events|);
    ev, s' := BusyCanMove(H, p, t, states[|events|], l);
    RunGrows(H, p, states, events, ev, s');
  }

  /** During the run n asked a holder for the chunk. */
  ghost predicate Fetched(p: Package, t: seq<byte>, states: seq<State>, events: seq<Event>, n: nat, i: nat)
    requires p.FullTree() && |states| == |events| + 1
  {
    exists k :: 0 <= k < |events| && FetchesFromHolder(p, t, states[k], events[k], n, i)
  }

  lemma {:induction false} RunKeepsLinks(H: Digester, p: Package, states: seq<State>, events: seq<Event>, j: nat,
                                         k: nat)
    requires p.FullTree() && Run(H, p, states, events) && j <= k < |states| == |events| + 1
    ensures states[k].channels.Keys == states[j].channels.Keys
    decreases k
  {
    hide Step, Wired, Initial, Package.FullTree;
    if j < k {
      RunKeepsLinks(H, p, states, events, j, k - 1);
      assert StepAt(H, p, states, events, k - 1);
      StepKeepsShape(H, p, states[k - 1], events[k - 1], states[k]);
    }
  }

  lemma FetchUsesLink(H: Digester, p: Package, states: seq<State>, events: seq<Event>, k: nat)
    requires p.FullTree() && Run(H, p, states, events) && k < |events| && events[k].Fetch?
    ensures events[k].link in states[k].channels
  {
    hide Wired, Initial, FirstChunk, Package.FullTree;
    assert StepAt(H, p, states, events, k);
  }

  lemma FetchedThenQuiet(H: Digester, p: Package, t: seq<byte>, states: seq<State>, events: seq<Event>,
                         states': seq<State>, events': seq<Event>, n: nat, i: nat)
    requires |states| == |events| + 1 && |states'| == |events'| + 1 && Continues(states, events, states', events')
    requires p.FullTree() && Run(H, p, states', events') && AllQuiet(states'[|events'|])
    requires Fetched(p, t, states, events, n, i)
    ensures FetchedAndQuiet(p, t, states', events', n, i)
  {
    hide Run, Quiet, FetchesFromHolder, Package.FullTree;
    var k :| 0 <= k < |events| && FetchesFromHolder(p, t, states[k], events[k], n, i);
    assert states'[k] == states[k] && events'[k] == events[k];
    FetchHasLink(p, t, states[k], events[k], n, i);
    FetchUsesLink(H, p, states', events', k);
    RunKeepsLinks(H, p, states', events', k, |events'|);
    assert Quiet(states'[|events'|], events'[k].link);
  }

  lemma FetchHasLink(p: Package, t: seq<byte>, s: State, ev: Event, n: nat, i: nat)
    requires p.FullTree() && FetchesFromHolder(p, t, s, ev, n, i)
    ensures ev.Fetch?
  {
  }

  /**
   * Completion can always be reached: once a peer has asked holders for every chunk it lacked at the start,
   * the run can be continued, by deliveries and sends alone, until the peer has the original and PACKAGES
   * reports it COMPLETED; or a file held by some peer on the way makes the hash collide. Every FETCH of the
   * run, anybody's, is to be sound.
   */
  lemma FetchesCanComplete(H: Digester, p: Package, t: seq<byte>, states: seq<State>, events: seq<Event>, n: nat)
    returns (states': seq<State>, events': seq<Event>, m: nat, q: nat)
    requires Setting(H, p, t) && p.FullTree() && |p.hashes| > 0
    requires Run(H, p, states, events) && |states| == |events| + 1 && SoundRun(p, t, states, events)
    requires n < |states[0].peers|
    requires forall i: nat :: i < |p.chunks| ==>
               CompleteAt(p, t, states[0].peers[n].file, i) || Fetched(p, t, states, events, n, i)
    ensures Run(H, p, states', events') && |states'| == |events'| + 1 && Continues(states, events, states', events')
    ensures (n < |states'[|events'|].peers| && HasOriginal(H, p, t, states'[|events'|].peers[n]))
            || ForgeryAt(H, p, t, states', |states'|, m, q)
  {
    hide Setting, Run, Package.FullTree, HasOriginal, ForgeryAt, CompleteAt, Fetched, FetchedAndQuiet, Continues, AllQuiet,
         SoundRun;
    states', events', m, q := RunQuietens(H, p, t, states, events);
    if AllQuiet(states'[|events'|]) {
      SameStart(states, events, states', events');
      forall i: nat | i < |p.chunks|
        ensures CompleteAt(p, t, states'[0].peers[n].file, i) || FetchedAndQuiet(p, t, states', events', n, i)
      {
        if !CompleteAt(p, t, states[0].peers[n].file, i) {
          FetchedThenQuiet(H, p, t, states, events, states', events', n, i);
        }
      }
      m, q := FetchesComplete(H, p, t, states', events', n);
      ForgeryLater(H, p, t, states', |events'|, m, q);
    }
  }

  lemma SameStart(states: seq<State>, events: seq<Event>, states': seq<State>, events': seq<Event>)
    requires |states| > 0 && Continues(states, events, states', events')
    ensures |states'| > 0 && states'[0] == states[0]
  {
  }

  lemma ForgeryLater(H: Digester, p: Package, t: seq<byte>, states: seq<State>, n: nat, m: nat, q: nat)
    requires p.FullTree()
    ensures ForgeryAt(H, p, t, states, n, m, q) && n < |states| ==> ForgeryAt(H, p, t, states, n + 1, m, q)
  {
    hide Genuine;
  }
}
