/**
 * What fetching can and cannot bring: a byte that no FETCH of a run asks for stays as it is at every peer, but
 * for the zeros that a file is filled with when it is created or written past its end. FETCH without an offset
 * takes the first chunk of the array with the hash, so it asks for no byte of a later chunk with the same hash;
 * FETCH with that chunk's offset does.
 */
module Copies {
  import opened Bytes
  import opened Digests
  import opened Merkle
  import opened Lookup
  import opened Verification
  import opened Packets
  import opened Splitting
  import opened Protocol
  import opened Requests
  import opened Safety
  import opened Pledges
  import opened Completion

  /** The packet neither brings the byte nor asks for it. */
  ghost predicate Spares(packet: Packet, x: nat) {
    |packet.payload| == PAYLOAD_MAX &&
    (packet.code == PKT_MSG_REQ ==> !AskOf(packet.payload).Has(x)) &&
    (packet.code == PKT_MSG_RES && packet.error == 0 ==> !Touches(packet, x))
  }

  predicate JobSpares(j: Job, x: nat) {
    !(j.left > 0 && j.offset <= x < j.offset + j.left)
  }

  ghost predicate QueueSpares(q: seq<Packet>, x: nat) {
    forall k :: 0 <= k < |q| ==> Spares(q[k], x)
  }

  /** Nothing that is on its way has to do with the byte. */
  ghost predicate NothingFor(s: State, x: nat) {
    (forall l :: l in s.channels ==> QueueSpares(s.channels[l], x)) &&
    (forall l :: l in s.jobs ==> JobSpares(s.jobs[l], x))
  }

  predicate HasByte(file: Option<seq<byte>>, x: nat) {
    file.Some? && x < |file.value|
  }

  /** A byte the file had is as it was, and one that it has gained is zero. */
  ghost predicate ByteKept(file: Option<seq<byte>>, file': Option<seq<byte>>, x: nat) {
    (HasByte(file, x) ==> HasByte(file', x) && file'.value[x] == file.value[x]) &&
    (!HasByte(file, x) && HasByte(file', x) ==> file'.value[x] == 0)
  }

  ghost predicate Untouched(s: State, s': State, x: nat) {
    |s'.peers| == |s.peers| && forall n :: 0 <= n < |s.peers| ==> ByteKept(s.peers[n].file, s'.peers[n].file, x)
  }

  /** If the event is a FETCH that finds a chunk, its range is without the byte. */
  predicate EventSpares(p: Package, ev: Event, x: nat) {
    ev.Fetch? && FirstChunk(p, ev.want.hash, 0).Some? ==> !FetchAsk(p, ev.want).Has(x)
  }

  /** No FETCH of the run asks for the byte. */
  ghost predicate Unasked(p: Package, events: seq<Event>, x: nat) {
    forall k :: 0 <= k < |events| ==> EventSpares(p, events[k], x)
  }

  // What each change of the state keeps.

  lemma SentSpares(s: State, l: Link, packet: Packet, x: nat)
    requires NothingFor(s, x) && l in s.channels && Spares(packet, x)
    ensures NothingFor(Sent(s, l, packet), x)
  {
    hide Spares, JobSpares;
    assert QueueSpares(s.channels[l], x);
  }

  lemma TakenSpares(s: State, l: Link, me: Peer, x: nat)
    requires NothingFor(s, x) && l in s.channels && s.channels[l] != [] && l.to < |s.peers|
    ensures NothingFor(Taken(s, l, me), x) && Spares(s.channels[l][0], x)
  {
    hide Spares, JobSpares;
    assert QueueSpares(s.channels[l], x);
  }

  lemma StartedSpares(s: State, l: Link, j: Job, x: nat)
    requires NothingFor(s, x) && JobSpares(j, x)
    ensures NothingFor(s.(jobs := s.jobs[l := j]), x)
  {
    hide QueueSpares, JobSpares;
  }

  lemma EndedSpares(s: State, l: Link, x: nat)
    requires NothingFor(s, x)
    ensures NothingFor(s.(jobs := s.jobs - {l}), x)
  {
    hide QueueSpares, JobSpares;
  }

  lemma PlainSpares(code: nat, x: nat)
    requires code != PKT_MSG_REQ && code != PKT_MSG_RES
    ensures Spares(Plain(code), x) && Spares(ErrorRes(), x)
  {
  }

  /** A job takes its range from the request as it is. */
  lemma ServedJobSpares(H: Digester, p: Package, peer: Peer, packet: Packet, x: nat)
    requires p.FullTree() && CacheFits(p, peer) && Spares(packet, x) && packet.code == PKT_MSG_REQ
    requires AnswerReq(H, p, peer, packet.payload).Serve?
    ensures JobSpares(AnswerReq(H, p, peer, packet.payload).job, x)
  {
    hide FindFrom, Checked, Package.Expected, SameIdent, ReqIdent, ReqHash, ReqLen, ReqOffset;
  }

  lemma FetchSpares(p: Package, s: State, l: Link, ident: seq<byte>, w: Want, s': State, x: nat)
    requires NothingFor(s, x) && FetchStep(p, s, l, ident, w, s') && !FetchAsk(p, w).Has(x)
    ensures NothingFor(s', x) && s'.peers == s.peers
  {
    RequestDecodes(ident, FetchAsk(p, w));
    hide Request, AskOf, FetchAsk, NothingFor, FirstChunk, Ask.Has;
    SentSpares(s, l, Request(ident, FetchAsk(p, w)), x);
  }

  lemma PieceSpares(f: seq<byte>, j: Job, x: nat)
    requires JobSpares(j, x) && j.left > 0 && Sendable(j.offset, j.hash, j.ident)
    ensures Spares(Piece(f, j.offset, j.left, j.hash, j.ident), x) && JobSpares(Advanced(j), x)
  {
    ResRoundTrip(j.offset, ReadPadded(f, j.offset, PieceLen(j.left)), j.hash, j.ident);
    hide EncodeRes, ResOffset, ResData;
  }

  // The files.

  lemma SameByteKept(file: Option<seq<byte>>, x: nat)
    ensures ByteKept(file, file, x)
  {
  }

  lemma ResTouchesNot(p: Package, peer: Peer, packet: Packet, x: nat)
    requires Spares(packet, x) && packet.code == PKT_MSG_RES
    ensures ByteKept(peer.file, AfterRes(p, peer, packet).file, x)
  {
    hide Manages, ResOffset, ResData;
  }

  lemma OnePeerUntouched(s: State, s': State, n: nat, me: Peer, x: nat)
    requires n < |s.peers| && s'.peers == s.peers[n := me] && ByteKept(s.peers[n].file, me.file, x)
    ensures Untouched(s, s', x)
  {
    hide ByteKept;
    forall k | 0 <= k < |s.peers| ensures ByteKept(s.peers[k].file, s'.peers[k].file, x) {
      if k != n {
        SameByteKept(s.peers[k].file, x);
      }
    }
  }

  lemma NoPeerTouched(s: State, s': State, x: nat)
    requires s'.peers == s.peers
    ensures Untouched(s, s', x)
  {
  }

  lemma PeerSpares(s: State, n: nat, me: Peer, x: nat)
    requires n < |s.peers| && NothingFor(s, x) && me.file == s.peers[n].file
    ensures var s' := s.(peers := s.peers[n := me]); NothingFor(s', x) && Untouched(s, s', x)
  {
    hide QueueSpares, JobSpares, Untouched, ByteKept;
    SameByteKept(me.file, x);
    OnePeerUntouched(s, s.(peers := s.peers[n := me]), n, me, x);
  }

  // The steps.

  lemma DeliverSpares(H: Digester, p: Package, s: State, l: Link, s': State, x: nat)
    requires p.FullTree() && Wired(p, s) && DeliverStep(H, p, s, l, s') && NothingFor(s, x)
    ensures NothingFor(s', x) && Untouched(s, s', x)
  {
    DeliveryCases(H, p, s, l, s');
    assert CacheFits(p, s.peers[l.to]);
    var packet, me, b := s.channels[l][0], s.peers[l.to], l.Back();
    hide *;
    SameByteKept(me.file, x);
    if packet.code == PKT_MSG_REQ {
      var me' := AfterReq(H, p, me, packet.payload);
      var after := Taken(s, l, me');
      TakenSpares(s, l, me', x);
      TakenLinks(s, l, me');
      TakenPeers(s, l, me');
      if AnswerReq(H, p, me, packet.payload).Refuse? {
        PlainSpares(0, x);
        SentSpares(after, b, ErrorRes(), x);
        SentElsewhere(after, b, ErrorRes());
      } else {
        ServedJobSpares(H, p, me, packet, x);
        StartedSpares(after, b, AnswerReq(H, p, me, packet.payload).job, x);
      }
      OnePeerUntouched(s, s', l.to, me', x);
    } else if packet.code == PKT_MSG_RES {
      var me' := AfterRes(p, me, packet);
      TakenSpares(s, l, me', x);
      TakenPeers(s, l, me');
      ResTouchesNot(p, me, packet, x);
      OnePeerUntouched(s, s', l.to, me', x);
    } else {
      TakenSpares(s, l, me, x);
      TakenLinks(s, l, me);
      TakenPeers(s, l, me);
      if packet.code == PKT_MSG_PNG {
        PlainSpares(PKT_MSG_POG, x);
        SentSpares(Taken(s, l, me), b, Plain(PKT_MSG_POG), x);
        SentElsewhere(Taken(s, l, me), b, Plain(PKT_MSG_POG));
      }
      OnePeerUntouched(s, s', l.to, me, x);
    }
  }

  lemma TakenPeers(s: State, l: Link, me: Peer)
    requires l in s.channels && s.channels[l] != [] && l.to < |s.peers|
    ensures Taken(s, l, me).peers == s.peers[l.to := me]
  {
  }

  lemma EmitSpares(p: Package, s: State, l: Link, s': State, x: nat)
    requires Wired(p, s) && EmitStep(p, s, l, s') && NothingFor(s, x)
    ensures NothingFor(s', x) && s'.peers == s.peers
  {
    EmissionCases(p, s, l, s');
    assert JobSpares(s.jobs[l], x);
    var j := s.jobs[l];
    hide *;
    if j.left > 0 {
      var f := s.peers[l.from].file.value;
      var packet := Piece(f, j.offset, j.left, j.hash, j.ident);
      PieceSpares(f, j, x);
      SentSpares(s, l, packet, x);
      SentElsewhere(s, l, packet);
      StartedSpares(Sent(s, l, packet), l, Advanced(j), x);
    } else {
      EndedSpares(s, l, x);
    }
  }

  lemma SparedFetch(p: Package, s: State, ev: Event, s': State, x: nat)
    requires ev.Fetch? && FetchStep(p, s, ev.link, ev.ident, ev.want, s') && EventSpares(p, ev, x)
    ensures FirstChunk(p, ev.want.hash, 0).Some? && !FetchAsk(p, ev.want).Has(x)
  {
    hide FirstChunk, FetchAsk, Request;
  }

  lemma StepSpares(H: Digester, p: Package, s: State, ev: Event, s': State, x: nat)
    requires p.FullTree() && Wired(p, s) && Step(H, p, s, ev, s') && EventSpares(p, ev, x) && NothingFor(s, x)
    ensures NothingFor(s', x) && Untouched(s, s', x)
  {
    hide *;
    StepCases(H, p, s, ev, s');
    match ev
    case Fetch(l, ident, w) =>
      SparedFetch(p, s, ev, s', x);
      FetchSpares(p, s, l, ident, w, s', x);
      NoPeerTouched(s, s', x);
    case Deliver(l) =>
      DeliverSpares(H, p, s, l, s', x);
    case Emit(l) =>
      EmitSpares(p, s, l, s', x);
      NoPeerTouched(s, s', x);
    case Ping(l) =>
      PingSpares(s, l, x);
      SentElsewhere(s, l, Plain(PKT_MSG_PNG));
      NoPeerTouched(s, s', x);
    case Check(n) =>
      PeerSpares(s, n, Checked(H, p, s.peers[n]), x);
    case AddPackage(n, c) =>
      PeerSpares(s, n, s.peers[n].(cache := Some(c)), x);
  }

  lemma PingSpares(s: State, l: Link, x: nat)
    requires NothingFor(s, x) && l in s.channels
    ensures NothingFor(Sent(s, l, Plain(PKT_MSG_PNG)), x)
  {
    PlainSpares(PKT_MSG_PNG, x);
    hide NothingFor, Plain, Spares;
    SentSpares(s, l, Plain(PKT_MSG_PNG), x);
  }

  lemma UntouchedTwice(a: State, b: State, c: State, x: nat)
    requires Untouched(a, b, x) && Untouched(b, c, x)
    ensures Untouched(a, c, x)
  {
    forall n | 0 <= n < |a.peers| ensures ByteKept(a.peers[n].file, c.peers[n].file, x) {
      assert ByteKept(a.peers[n].file, b.peers[n].file, x);
      assert ByteKept(b.peers[n].file, c.peers[n].file, x);
    }
  }

  lemma NothingAtStart(H: Digester, p: Package, states: seq<State>, events: seq<Event>, x: nat)
    requires p.FullTree() && Run(H, p, states, events)
    ensures |states| > 0 && NothingFor(states[0], x)
  {
    hide Wired, Step, Unverified;
  }

  lemma RunSteps(H: Digester, p: Package, states: seq<State>, events: seq<Event>, k: nat)
    requires p.FullTree() && Run(H, p, states, events) && k < |events|
    ensures |states| == |events| + 1 && Wired(p, states[k]) && Step(H, p, states[k], events[k], states[k + 1])
  {
    hide Wired, Step, Initial;
    assert StepAt(H, p, states, events, k);
  }

  lemma UnaskedAt(p: Package, events: seq<Event>, x: nat, k: nat)
    requires Unasked(p, events, x) && k < |events|
    ensures EventSpares(p, events[k], x)
  {
    hide EventSpares;
  }

  lemma RunStepSpares(H: Digester, p: Package, states: seq<State>, events: seq<Event>, k: nat, x: nat)
    requires p.FullTree() && Run(H, p, states, events) && Unasked(p, events, x) && k < |events|
    requires |states| == |events| + 1
    requires NothingFor(states[k], x) && Untouched(states[0], states[k], x)
    ensures NothingFor(states[k + 1], x) && Untouched(states[0], states[k + 1], x)
  {
    hide *;
    RunSteps(H, p, states, events, k);
    UnaskedAt(p, events, x, k);
    StepSpares(H, p, states[k], events[k], states[k + 1], x);
    UntouchedTwice(states[0], states[k], states[k + 1], x);
  }

  /** In every run, a byte that no FETCH asks for does not change at any peer, and is zero where a file gains it. */
  lemma {:induction false} UnaskedStays(H: Digester, p: Package, states: seq<State>, events: seq<Event>, k: nat, x: nat)
    requires p.FullTree() && Run(H, p, states, events) && Unasked(p, events, x) && k < |states| == |events| + 1
    ensures NothingFor(states[k], x) && Untouched(states[0], states[k], x)
    decreases k
  {
    hide *;
    if k == 0 {
      NothingAtStart(H, p, states, events, x);
      NoPeerTouched(states[0], states[0], x);
    } else {
      UnaskedStays(H, p, states, events, k - 1, x);
      RunStepSpares(H, p, states, events, k - 1, x);
    }
  }

  // What this means for chunks.

  ghost predicate ChunkUnasked(p: Package, events: seq<Event>, i: nat) {
    i < |p.chunks| && forall x: nat :: InChunk(p.chunks[i], x) ==> Unasked(p, events, x)
  }

  /** The byte was right at the start, or was missing then, is zero in the original, and has been filled in since. */
  ghost predicate RightOrFilled(t: seq<byte>, file: Option<seq<byte>>, file': Option<seq<byte>>, x: nat) {
    Right(t, file, x) || (!HasByte(file, x) && HasByte(file', x) && x < |t| && t[x] == 0)
  }

  lemma KeptByteRight(t: seq<byte>, file: Option<seq<byte>>, file': Option<seq<byte>>, x: nat)
    requires ByteKept(file, file', x)
    ensures Right(t, file', x) <==> RightOrFilled(t, file, file', x)
  {
  }

  lemma PeerByteKept(s: State, s': State, x: nat, n: nat)
    requires Untouched(s, s', x) && n < |s.peers|
    ensures n < |s'.peers| && ByteKept(s.peers[n].file, s'.peers[n].file, x)
  {
    hide ByteKept;
  }

  lemma RunKeepsPeers(H: Digester, p: Package, states: seq<State>, events: seq<Event>, k: nat)
    requires p.FullTree() && Run(H, p, states, events) && k < |states| == |events| + 1
    ensures |states[k].peers| == |states[0].peers|
  {
    hide Step, Wired, Initial, Package.FullTree;
    if k > 0 {
      RunKeepsPeers(H, p, states, events, k - 1);
      assert StepAt(H, p, states, events, k - 1);
      StepKeepsShape(H, p, states[k - 1], events[k - 1], states[k]);
    }
  }

  /** A chunk no FETCH asks for is complete at a peer exactly when it was so from the start, but for zeros filled in. */
  lemma UnaskedIsCompleteIff(H: Digester, p: Package, t: seq<byte>, states: seq<State>, events: seq<Event>, k: nat,
                             n: nat,
                             i: nat)
    requires p.FullTree() && ChunkUnasked(p, events, i)
    requires Run(H, p, states, events) && k < |states| == |events| + 1 && n < |states[0].peers|
    ensures n < |states[k].peers|
    ensures CompleteAt(p, t, states[k].peers[n].file, i) <==>
            forall x: nat :: InChunk(p.chunks[i], x) ==> RightOrFilled(t, states[0].peers[n].file, states[k].peers[n].file, x)
  {
    hide Run, Package.FullTree, Unasked, NothingFor, ByteKept, RightOrFilled, Right, InChunk, Untouched;
    RunKeepsPeers(H, p, states, events, k);
    var file, file' := states[0].peers[n].file, states[k].peers[n].file;
    forall x: nat | InChunk(p.chunks[i], x) ensures Right(t, file', x) <==> RightOrFilled(t, file, file', x) {
      UnaskedStays(H, p, states, events, k, x);
      PeerByteKept(states[0], states[k], x, n);
      KeptByteRight(t, file, file', x);
    }
  }

  lemma OriginalIsComplete(H: Digester, p: Package, t: seq<byte>, peer: Peer, i: nat)
    requires p.FullTree() && |p.hashes| > 0 && p.Tiled() && |t| == p.size && HasOriginal(H, p, t, peer)
    requires i < |p.chunks|
    ensures CompleteAt(p, t, peer.file, i)
  {
    ChunkWithin(p, i);
    hide ReportsCompleted, Package.Tiled;
    forall x: nat | InChunk(p.chunks[i], x) ensures Right(t, peer.file, x) {
      assert peer.file.value[..p.size][x] == t[x];
    }
  }

  lemma TheRestMakesTheFile(H: Digester, p: Package, t: seq<byte>, states: seq<State>, events: seq<Event>, n: nat)
    requires Setting(H, p, t) && p.FullTree() && |p.hashes| > 0
    requires Run(H, p, states, events) && |states| == |events| + 1
    requires SoundRun(p, t, states, events) && GenuineUpTo(H, p, t, states, |events|)
    requires n < |states[0].peers| && n < |states[|events|].peers|
    requires forall i: nat :: i < |p.chunks| ==>
               ChunkUnasked(p, events, i) || CompleteAt(p, t, states[0].peers[n].file, i)
               || FetchedAndQuiet(p, t, states, events, n, i)
    requires forall i: nat :: ChunkUnasked(p, events, i) ==> CompleteAt(p, t, states[|events|].peers[n].file, i)
    ensures HasOriginal(H, p, t, states[|events|].peers[n])
  {
    var end := |events|;
    assert p.WellFormed(H) && Original(H, p, t);
    hide Package.WellFormed, Original, Setting, Run, Inv, NothingLost, CompleteAt, Wired, FetchedAndQuiet, Package.FullTree,
         ReportsCompleted, GenuineUpTo, SoundRun, ChunkUnasked;
    RunLosesNothing(H, p, t, states, events, 0, end);
    forall i: nat | i < |p.chunks| ensures CompleteAt(p, t, states[end].peers[n].file, i) {
      if ChunkUnasked(p, events, i) {
      } else if CompleteAt(p, t, states[0].peers[n].file, i) {
        LostNothing(p, t, states[0].peers[n].file, states[end].peers[n].file, i);
      } else {
        FetchedChunkArrives(H, p, t, states, events, n, i);
      }
    }
    AllChunksMakeTheFile(H, p, t, states[end].peers[n].file);
  }

  /**
   * What fetching can achieve: a peer that had or has fetched, from holders and with its connections quiet
   * again, every chunk but those nobody asks for, has the original exactly when each byte of the chunks nobody
   * asks for was right from the start or is a zero that was filled in; or a file held by some peer on the way
   * makes the hash collide. Every FETCH of the run is to be sound.
   */
  lemma FetchOutcome(H: Digester, p: Package, t: seq<byte>, states: seq<State>, events: seq<Event>, n: nat)
    returns (m: nat, q: nat)
    requires Setting(H, p, t) && p.FullTree() && |p.hashes| > 0
    requires Run(H, p, states, events) && |states| == |events| + 1 && SoundRun(p, t, states, events)
    requires n < |states[0].peers| && n < |states[|events|].peers|
    requires forall i: nat :: i < |p.chunks| ==>
               ChunkUnasked(p, events, i) || CompleteAt(p, t, states[0].peers[n].file, i)
               || FetchedAndQuiet(p, t, states, events, n, i)
    ensures (HasOriginal(H, p, t, states[|events|].peers[n]) <==>
             forall i: nat, x: nat :: ChunkUnasked(p, events, i) && InChunk(p.chunks[i], x) ==>
               RightOrFilled(t, states[0].peers[n].file, states[|events|].peers[n].file, x))
            || ForgeryAt(H, p, t, states, |events|, m, q)
  {
    var end := |events|;
    SettingSizes(H, p, t);
    ChunkUnaskedIndex(p, events);
    hide Setting, Package.Tiled, Run, HasOriginal, FetchedAndQuiet, CompleteAt, GenuineUpTo, SoundRun, ForgeryAt,
         Package.FullTree, RightOrFilled, InChunk, ChunkUnasked;
    m, q := FindForgery(H, p, t, states, end);
    if GenuineUpTo(H, p, t, states, end) {
      forall i: nat | ChunkUnasked(p, events, i)
        ensures CompleteAt(p, t, states[end].peers[n].file, i) <==>
                forall x: nat :: InChunk(p.chunks[i], x) ==>
                  RightOrFilled(t, states[0].peers[n].file, states[end].peers[n].file, x)
        ensures HasOriginal(H, p, t, states[end].peers[n]) ==> CompleteAt(p, t, states[end].peers[n].file, i)
      {
        UnaskedIsCompleteIff(H, p, t, states, events, end, n, i);
        if HasOriginal(H, p, t, states[end].peers[n]) {
          OriginalIsComplete(H, p, t, states[end].peers[n], i);
        }
      }
      if forall i: nat :: ChunkUnasked(p, events, i) ==> CompleteAt(p, t, states[end].peers[n].file, i) {
        TheRestMakesTheFile(H, p, t, states, events, n);
      }
    }
  }

  lemma ChunkUnaskedIndex(p: Package, events: seq<Event>)
    ensures forall i: nat :: ChunkUnasked(p, events, i) ==> i < |p.chunks|
  {
  }

  // Chunks with the same hash.

  /** An earlier chunk has the same hash. */
  predicate LaterCopy(p: Package, i: nat) {
    i < |p.chunks| && FirstChunk(p, p.chunks[i].hash, 0) != Some(i)
  }

  lemma DefaultSparesCopy(p: Package, ev: Event, i: nat, x: nat)
    requires p.Tiled() && LaterCopy(p, i) && InChunk(p.chunks[i], x) && (ev.Fetch? ==> ev.want.offset.None?)
    ensures EventSpares(p, ev, x)
  {
    hide Package.Tiled, FirstChunk, InChunk;
    if ev.Fetch? && FirstChunk(p, ev.want.hash, 0).Some? {
      var j := FirstChunk(p, ev.want.hash, 0).value;
      DefaultFetchAsk(p, ev.want);
      FirstIsItsFirst(p, ev.want.hash);
      OtherChunk(p, i, j, x);
      ChunkAskHas(p, j, x);
    }
  }

  lemma ChunkAskHas(p: Package, j: nat, x: nat)
    requires j < |p.chunks|
    ensures ChunkAsk(p, j).Has(x) <==> InChunk(p.chunks[j], x)
  {
  }

  /** FETCH without an offset asks for no byte of a chunk that has the hash of an earlier one. */
  lemma DefaultSkipsCopies(p: Package, events: seq<Event>, i: nat)
    requires p.Tiled() && LaterCopy(p, i) && DefaultFetches(events)
    ensures ChunkUnasked(p, events, i)
  {
    hide Package.Tiled, EventSpares, LaterCopy, InChunk;
    assert i < |p.chunks| by {
      CopyIndex(p, i);
    }
    forall x: nat | InChunk(p.chunks[i], x) ensures Unasked(p, events, x) {
      forall k | 0 <= k < |events| ensures EventSpares(p, events[k], x) {
        DefaultSparesCopy(p, events[k], i, x);
      }
    }
  }

  lemma CopyIndex(p: Package, i: nat)
    requires LaterCopy(p, i)
    ensures i < |p.chunks|
  {
  }

  /**
   * FETCH with the copy's own offset asks for the copy: the server checks the first chunk with the hash and
   * sends the range asked for, so from a peer that has both it is as good as any fetch.
   */
  lemma CopyIsFetchedByOffset(p: Package, t: seq<byte>, s: State, ev: Event, n: nat, i: nat, j: nat)
    requires p.FullTree() && p.Tiled() && Aligned(p) && p.size < 0x8000_0000 && |t| == p.size
    requires LaterCopy(p, i) && FirstChunk(p, p.chunks[i].hash, 0) == Some(j) && p.chunks[j].size == p.chunks[i].size
    requires ev.Fetch? && ev.want == Want(p.chunks[i].hash, Some(p.chunks[i].offset)) && ev.link.from == n
    requires ev.link.to < |s.peers| && s.peers[ev.link.to].cache.Some?
    requires CompleteAt(p, t, s.peers[ev.link.to].file, i) && CompleteAt(p, t, s.peers[ev.link.to].file, j)
    ensures FetchesFromHolder(p, t, s, ev, n, i) && SoundEvent(p, t, s, ev)
  {
    var file := s.peers[ev.link.to].file;
    ChunkWithin(p, i);
    CompleteIsRange(p, t, file, i);
    hide Package.Tiled, Aligned, CompleteAt, RangeRight, FirstChunk, FindFrom, BelowComplete, RangeCovered;
    assert FetchAsk(p, ev.want) == Ask(p.chunks[i].hash, p.chunks[i].offset, p.chunks[i].size);
    AlignedHolds(p, t, file, j, ev.want);
  }
}
