/**
 * Runs of the transfer: safety at every point of every run, and completion of a peer's file once every
 * chunk it lacked has been fetched from a peer that has it and everything sent has arrived.
 */
module Completion {
  import opened Bytes
  import opened Digests
  import opened Merkle
  import opened Lookup
  import opened Verification
  import opened Packets
  import opened Splitting
  import opened Protocol
  import opened Requests
  import opened Safety
  import opened Pledges

  /** The states and events of a run, whatever the interleaving. */
  ghost predicate Run(H: Digester, p: Package, states: seq<State>, events: seq<Event>)
    requires p.FullTree()
  {
    |states| == |events| + 1 && Initial(p, states[0]) &&
    forall k :: 0 <= k < |events| ==> StepAt(H, p, states, events, k)
  }

  ghost predicate StepAt(H: Digester, p: Package, states: seq<State>, events: seq<Event>, k: nat)
    requires p.FullTree() && |states| == |events| + 1 && k < |events|
  {
    Wired(p, states[k]) && Step(H, p, states[k], events[k], states[k + 1])
  }

  /** No check of any file in the first n states would meet a collision. */
  ghost predicate GenuineUpTo(H: Digester, p: Package, t: seq<byte>, states: seq<State>, n: nat)
    requires p.FullTree()
  {
    n <= |states| && forall k :: 0 <= k < n ==> GenuineState(H, p, t, states[k])
  }

  lemma GenuineAt(H: Digester, p: Package, t: seq<byte>, states: seq<State>, n: nat, k: nat)
    requires p.FullTree() && GenuineUpTo(H, p, t, states, n) && k < n
    ensures GenuineState(H, p, t, states[k])
    ensures GenuineUpTo(H, p, t, states, k)
  {
    hide GenuineState;
  }

  /** Every FETCH of the run is sound when it is made: what it asks for is checked, or its peer has it right. */
  ghost predicate SoundRun(p: Package, t: seq<byte>, states: seq<State>, events: seq<Event>)
    requires p.FullTree()
  {
    |states| == |events| + 1 && forall k :: 0 <= k < |events| ==> SoundEvent(p, t, states[k], events[k])
  }

  lemma SoundAt(p: Package, t: seq<byte>, states: seq<State>, events: seq<Event>, k: nat)
    requires p.FullTree() && SoundRun(p, t, states, events) && k < |events|
    ensures |states| == |events| + 1 && SoundEvent(p, t, states[k], events[k])
  {
    hide SoundEvent;
  }

  lemma {:induction false} RunIsSafe(H: Digester, p: Package, t: seq<byte>, states: seq<State>, events: seq<Event>,
                                     k: nat)
    requires Setting(H, p, t) && p.FullTree() && Run(H, p, states, events) && k < |states|
    requires SoundRun(p, t, states, events) && GenuineUpTo(H, p, t, states, k)
    ensures Inv(p, t, states[k]) && Wired(p, states[k]) && |states[k].peers| == |states[0].peers|
  {
    hide Setting, Step, Inv, Wired, Initial, GenuineUpTo, SoundRun, SoundEvent;
    if k == 0 {
      InitialIsSafe(p, t, states[0]);
      InvWired(p, t, states[0]);
    } else {
      GenuineAt(H, p, t, states, k, k - 1);
      SoundAt(p, t, states, events, k - 1);
      RunIsSafe(H, p, t, states, events, k - 1);
      assert StepAt(H, p, states, events, k - 1);
      StepIsSafe(H, p, t, states[k - 1], events[k - 1], states[k]);
      InvWired(p, t, states[k]);
    }
  }

  /** The steps that need no command: a delivery, or a packet of a send loop. */
  predicate Pending(ev: Event) {
    ev.Deliver? || ev.Emit?
  }

  lemma RunGrows(H: Digester, p: Package, states: seq<State>, events: seq<Event>, ev: Event, s': State)
    requires p.FullTree() && Run(H, p, states, events) && |states| == |events| + 1
    requires Wired(p, states[|events|]) && Step(H, p, states[|events|], ev, s')
    ensures Run(H, p, states + [s'], events + [ev])
  {
    hide Wired, Step, Initial, Package.FullTree;
    var more, evs := states + [s'], events + [ev];
    forall k | 0 <= k < |evs| ensures StepAt(H, p, more, evs, k) {
      if k < |events| {
        assert StepAt(H, p, states, events, k);
      }
    }
  }

  lemma InvWired(p: Package, t: seq<byte>, s: State)
    requires p.FullTree() && Inv(p, t, s)
    ensures Wired(p, s)
  {
  }

  lemma RunStep(H: Digester, p: Package, t: seq<byte>, states: seq<State>, events: seq<Event>, k: nat)
    requires Setting(H, p, t) && p.FullTree() && Run(H, p, states, events) && k < |events|
    requires SoundRun(p, t, states, events) && GenuineUpTo(H, p, t, states, k + 1)
    ensures FilesKept(t, states[k], states[k + 1])
  {
    hide Setting, Inv, Wired, Step, Initial, GenuineUpTo, GenuineState, SoundRun, SoundEvent;
    GenuineAt(H, p, t, states, k + 1, k);
    SoundAt(p, t, states, events, k);
    RunIsSafe(H, p, t, states, events, k);
    assert StepAt(H, p, states, events, k);
    StepIsSafe(H, p, t, states[k], events[k], states[k + 1]);
  }

  /** From any point of a run to any later one, no byte that was right at a peer becomes wrong. */
  lemma {:induction false} RunLosesNothing(H: Digester, p: Package, t: seq<byte>, states: seq<State>,
                                           events: seq<Event>, j: nat, k: nat)
    requires Setting(H, p, t) && p.FullTree() && Run(H, p, states, events)
    requires j <= k < |states| == |events| + 1 && SoundRun(p, t, states, events) && GenuineUpTo(H, p, t, states, k)
    ensures FilesKept(t, states[j], states[k])
    decreases k
  {
    hide Setting, Run, FilesKept, Package.FullTree, GenuineUpTo, SoundRun;
    if j == k {
      FilesUnchanged(t, states[k]);
    } else {
      GenuineAt(H, p, t, states, k, k - 1);
      RunLosesNothing(H, p, t, states, events, j, k - 1);
      RunStep(H, p, t, states, events, k - 1);
      KeptTwice(t, states[j], states[k - 1], states[k]);
    }
  }

  lemma FilesUnchanged(t: seq<byte>, s: State)
    ensures FilesKept(t, s, s)
  {
    forall i | 0 <= i < |s.peers| ensures NothingLost(t, s.peers[i].file, s.peers[i].file) {
      NothingChanges(t, s.peers[i].file);
    }
  }

  lemma KeptTwice(t: seq<byte>, a: State, b: State, c: State)
    requires FilesKept(t, a, b) && FilesKept(t, b, c)
    ensures FilesKept(t, a, c)
  {
  }

  /** A RES that is no error report carries the true bytes of the range it names. */
  ghost predicate TruePacket(t: seq<byte>, packet: Packet) {
    |packet.payload| == PAYLOAD_MAX &&
    (packet.code == PKT_MSG_RES && packet.error == 0 ==> TrueRes(t, packet.payload))
  }

  /** The request leads this peer to no null pointer, and to no range that an int cannot hold. */
  ghost predicate Answerable(H: Digester, p: Package, peer: Peer, packet: Packet)
    requires p.FullTree()
  {
    |packet.payload| == PAYLOAD_MAX && CacheFits(p, peer) && !AnswerReq(H, p, peer, packet.payload).Crash?
  }

  ghost predicate SafeState(H: Digester, p: Package, t: seq<byte>, s: State)
    requires p.FullTree()
  {
    (forall l, n :: l in s.channels && 0 <= n < |s.channels[l]| ==> TruePacket(t, s.channels[l][n])) &&
    (forall l :: l in s.channels && s.channels[l] != [] && s.channels[l][0].code == PKT_MSG_REQ ==>
       l.to < |s.peers| && Answerable(H, p, s.peers[l.to], s.channels[l][0]))
  }

  /** Every chunk that is complete at a peer in one state is complete there in the other. */
  ghost predicate ChunksKept(p: Package, t: seq<byte>, s: State, s': State) {
    |s'.peers| == |s.peers| &&
    forall n, i: nat :: 0 <= n < |s.peers| && CompleteAt(p, t, s.peers[n].file, i) ==> CompleteAt(p, t, s'.peers[n].file, i)
  }

  lemma InvGivesTruePacket(p: Package, t: seq<byte>, s: State, l: Link, n: nat)
    requires p.FullTree() && Inv(p, t, s) && l in s.channels && n < |s.channels[l]|
    ensures l.to < |s.peers| && GoodPacket(p, t, s.peers[l.to].file, s.channels[l][n])
    ensures TruePacket(t, s.channels[l][n])
  {
    hide HonestCache, GoodJob, CacheFits, TrueRes, GoodAsk;
    assert GoodChannel(p, t, s.peers[l.to].file, s.channels[l]);
  }

  lemma InvGivesAnswerable(H: Digester, p: Package, t: seq<byte>, s: State, l: Link)
    requires Setting(H, p, t) && p.FullTree() && Inv(p, t, s) && GenuineState(H, p, t, s)
    requires l in s.channels && s.channels[l] != [] && s.channels[l][0].code == PKT_MSG_REQ
    ensures l.to < |s.peers| && Answerable(H, p, s.peers[l.to], s.channels[l][0])
  {
    hide Setting, Inv, AnswerReq, CacheFits, GenuineState, Genuine, GoodPacket, TruePacket, HonestCache,
         Package.FullTree;
    InvGives(p, t, s, l);
    InvGivesTruePacket(p, t, s, l, 0);
    GenuinePeer(H, p, t, s, l.to);
    AnswerIsSafe(H, p, t, s.peers[l.to], s.channels[l][0]);
    assert |s.channels[l][0].payload| == PAYLOAD_MAX by {
      PacketIsSized(t, s.channels[l][0]);
    }
  }

  lemma PacketIsSized(t: seq<byte>, packet: Packet)
    requires TruePacket(t, packet)
    ensures |packet.payload| == PAYLOAD_MAX
  {
  }

  lemma InvIsSafe(H: Digester, p: Package, t: seq<byte>, s: State)
    requires Setting(H, p, t) && p.FullTree() && Inv(p, t, s) && GenuineState(H, p, t, s)
    ensures SafeState(H, p, t, s)
  {
    hide Setting, Inv, Answerable, TruePacket, GoodPacket, GenuineState, Package.FullTree;
    forall l, n | l in s.channels && 0 <= n < |s.channels[l]| ensures TruePacket(t, s.channels[l][n]) {
      InvGivesTruePacket(p, t, s, l, n);
    }
    forall l | l in s.channels && s.channels[l] != [] && s.channels[l][0].code == PKT_MSG_REQ
      ensures l.to < |s.peers| && Answerable(H, p, s.peers[l.to], s.channels[l][0])
    {
      InvGivesAnswerable(H, p, t, s, l);
    }
  }

  lemma KeptFilesKeepChunks(p: Package, t: seq<byte>, s: State, s': State)
    requires FilesKept(t, s, s')
    ensures ChunksKept(p, t, s, s')
  {
    hide NothingLost, CompleteAt;
    forall n, i: nat | 0 <= n < |s.peers| && CompleteAt(p, t, s.peers[n].file, i)
      ensures CompleteAt(p, t, s'.peers[n].file, i)
    {
      LostNothing(p, t, s.peers[n].file, s'.peers[n].file, i);
    }
  }

  /** The first n states are genuine, or here is a peer of one of them whose file is not. */
  lemma FindForgery(H: Digester, p: Package, t: seq<byte>, states: seq<State>, n: nat) returns (m: nat, q: nat)
    requires p.FullTree() && n <= |states|
    ensures GenuineUpTo(H, p, t, states, n) || ForgeryAt(H, p, t, states, n, m, q)
  {
    m, q := 0, 0;
    hide Genuine;
    if !GenuineUpTo(H, p, t, states, n) {
      m :| 0 <= m < n && !GenuineState(H, p, t, states[m]);
      q :| 0 <= q < |states[m].peers| && !Genuine(H, p, t, states[m].peers[q].file);
    }
  }

  /** Before the n-th state of the run, in the m-th, the file of peer q makes the hash collide. */
  ghost predicate ForgeryAt(H: Digester, p: Package, t: seq<byte>, states: seq<State>, n: nat, m: nat, q: nat)
    requires p.FullTree()
  {
    m < n <= |states| && q < |states[m].peers| && !Genuine(H, p, t, states[m].peers[q].file)
  }

  /**
   * Safety over every run in which each FETCH is sound: every RES in flight that is no error report carries the true bytes of the range
   * it names, no request leads a peer to a null pointer, and a chunk once complete at a peer stays
   * complete; or a file held by some peer so far makes the hash collide.
   */
  lemma TransferIsSafe(H: Digester, p: Package, t: seq<byte>, states: seq<State>, events: seq<Event>, j: nat, k: nat)
    returns (m: nat, q: nat)
    requires Setting(H, p, t) && p.FullTree() && Run(H, p, states, events) && j <= k < |states|
    requires SoundRun(p, t, states, events)
    ensures (SafeState(H, p, t, states[k]) && ChunksKept(p, t, states[j], states[k]))
            || ForgeryAt(H, p, t, states, k + 1, m, q)
  {
    hide Setting, Run, Inv, SafeState, ChunksKept, FilesKept, GenuineUpTo, ForgeryAt, SoundRun;
    assert |states| == |events| + 1 by {
      RunLength(H, p, states, events);
    }
    m, q := FindForgery(H, p, t, states, k + 1);
    if GenuineUpTo(H, p, t, states, k + 1) {
      GenuineAt(H, p, t, states, k + 1, k);
      RunIsSafe(H, p, t, states, events, k);
      InvIsSafe(H, p, t, states[k]);
      RunLosesNothing(H, p, t, states, events, j, k);
      KeptFilesKeepChunks(p, t, states[j], states[k]);
    }
  }

  lemma RunLength(H: Digester, p: Package, states: seq<State>, events: seq<Event>)
    requires p.FullTree() && Run(H, p, states, events)
    ensures |states| == |events| + 1
  {
  }

  lemma {:induction false} PledgeHoldsOn(H: Digester, p: Package, t: seq<byte>, states: seq<State>, events: seq<Event>,
                                         j: nat, k: nat, l: Link, a: Ask)
    requires Setting(H, p, t) && p.FullTree()
    requires Run(H, p, states, events) && SoundRun(p, t, states, events) && GenuineUpTo(H, p, t, states, k)
    requires j <= k < |states| == |events| + 1 && Pledged(p, t, states[j], l, a)
    ensures Pledged(p, t, states[k], l, a)
    decreases k
  {
    hide Setting, Run, Pledged, Package.FullTree, GenuineUpTo, SoundRun;
    if j < k {
      GenuineAt(H, p, t, states, k, k - 1);
      SoundAt(p, t, states, events, k - 1);
      PledgeHoldsOn(H, p, t, states, events, j, k - 1, l, a);
      RunGivesStep(H, p, t, states, events, k - 1);
      PledgedAfterStep(H, p, t, states[k - 1], events[k - 1], states[k], l, a);
    }
  }

  lemma RunGivesStep(H: Digester, p: Package, t: seq<byte>, states: seq<State>, events: seq<Event>, k: nat)
    requires Setting(H, p, t) && p.FullTree() && Run(H, p, states, events) && k < |events|
    requires SoundRun(p, t, states, events) && GenuineUpTo(H, p, t, states, k)
    ensures Inv(p, t, states[k]) && Wired(p, states[k]) && Step(H, p, states[k], events[k], states[k + 1])
  {
    hide Setting, Inv, Wired, Initial, GenuineUpTo, SoundRun;
    RunIsSafe(H, p, t, states, events, k);
    assert StepAt(H, p, states, events, k);
  }

  /** The chunk lies in the range asked for. */
  predicate Wants(c: Chunk, a: Ask) {
    a.offset <= c.offset && c.offset + c.size <= a.offset + a.len
  }

  /**
   * The event asks for the i-th chunk, among other bytes perhaps, on behalf of n, of a peer that holds what
   * is asked.
   */
  ghost predicate FetchesFromHolder(p: Package, t: seq<byte>, s: State, ev: Event, n: nat, i: nat)
    requires p.FullTree()
  {
    ev.Fetch? && ev.link.from == n && i < |p.chunks| && FirstChunk(p, ev.want.hash, 0).Some? &&
    var a := FetchAsk(p, ev.want);
    Wants(p.chunks[i], a) && ev.link.to < |s.peers| && s.peers[ev.link.to].cache.Some? &&
    Holds(p, t, s.peers[ev.link.to].file, a)
  }

  /** During the run n fetched the chunk from a holder, and at the end its connection to that holder is quiet. */
  ghost predicate FetchedAndQuiet(p: Package, t: seq<byte>, states: seq<State>, events: seq<Event>, n: nat, i: nat)
    requires p.FullTree() && |states| == |events| + 1
  {
    exists k :: 0 <= k < |events| && FetchesFromHolder(p, t, states[k], events[k], n, i)
                && Quiet(states[|events|], events[k].link)
  }

  lemma FetchHappens(H: Digester, p: Package, s: State, ev: Event, s': State)
    requires p.FullTree() && Wired(p, s) && Step(H, p, s, ev, s') && ev.Fetch?
    ensures FetchStep(p, s, ev.link, ev.ident, ev.want, s')
  {
    hide FetchStep, Wired;
  }

  lemma RangeGivesChunk(p: Package, t: seq<byte>, file: Option<seq<byte>>, a: Ask, i: nat)
    requires i < |p.chunks| && Wants(p.chunks[i], a) && RangeRight(t, file, a.offset, a.len)
    ensures CompleteAt(p, t, file, i)
  {
    hide Right;
  }

  lemma FetchedChunkArrives(H: Digester, p: Package, t: seq<byte>, states: seq<State>, events: seq<Event>, n: nat,
                            i: nat)
    requires Setting(H, p, t) && p.FullTree()
    requires Run(H, p, states, events) && |states| == |events| + 1
    requires SoundRun(p, t, states, events) && GenuineUpTo(H, p, t, states, |events|)
    requires FetchedAndQuiet(p, t, states, events, n, i)
    ensures n < |states[|events|].peers| && CompleteAt(p, t, states[|events|].peers[n].file, i)
  {
    hide Setting, Run, Package.FullTree, Wired, Step, CompleteAt, Quiet, Pledged, GenuineUpTo, SoundRun, Holds, FetchAsk,
         FirstChunk, Wants, RangeRight;
    var end := |events|;
    var k :| 0 <= k < end && FetchesFromHolder(p, t, states[k], events[k], n, i) && Quiet(states[end], events[k].link);
    var ev := events[k];
    var a := FetchAsk(p, ev.want);
    GenuineAt(H, p, t, states, end, k);
    RunGivesStep(H, p, t, states, events, k);
    FetchHappens(H, p, states[k], ev, states[k + 1]);
    FetchPledges(p, t, states[k], ev.link, ev.ident, ev.want, states[k + 1]);
    PledgeHoldsOn(H, p, t, states, events, k + 1, end, ev.link, a);
    PledgeLink(p, t, states[end], ev.link, a);
    QuietRedeems(p, t, states[end], ev.link, a);
    RangeGivesChunk(p, t, states[end].peers[n].file, a, i);
  }

  lemma PledgeLink(p: Package, t: seq<byte>, s: State, l: Link, a: Ask)
    requires p.FullTree() && Pledged(p, t, s, l, a)
    ensures l.from < |s.peers|
  {
  }

  /** A file that is complete at every chunk is the original, and is reported so. */
  lemma AllChunksMakeTheFile(H: Digester, p: Package, t: seq<byte>, file: Option<seq<byte>>)
    requires p.WellFormed(H) && Original(H, p, t) && p.FullTree()
    requires forall i: nat :: i < |p.chunks| ==> CompleteAt(p, t, file, i)
    ensures file.Some? && |file.value| >= p.size && file.value[..p.size] == t
    ensures AllReadable(p, file.value)
    ensures Recomputed(H, |p.hashes|, LeafHashes(H, p, file.value), 0) == p.Expected()[0]
    ensures ReportsCompleted(H, p, file)
  {
    var last := |p.chunks| - 1;
    hide CompleteAt, SealedTree;
    CompleteHasFile(p, t, file, last);
    var f := file.value;
    forall i {:trigger p.chunks[i]} | 0 <= i < |p.chunks| ensures SameChunk(f, t, p.chunks[i]) {
      CompleteIsSameChunk(p, t, f, i);
    }
    TilesCover(p, f, t);
    TrueFileReportsCompleted(H, p, t, f);
  }

  /** The peer holds the file the package was made from, and PACKAGES says so. */
  ghost predicate HasOriginal(H: Digester, p: Package, t: seq<byte>, peer: Peer)
    requires p.FullTree() && |p.hashes| > 0
  {
    peer.file.Some? && |peer.file.value| >= p.size && peer.file.value[..p.size] == t && ReportsCompleted(H, p, peer.file)
  }

  lemma AllFetchedMakesTheFile(H: Digester, p: Package, t: seq<byte>, states: seq<State>, events: seq<Event>, n: nat)
    requires Setting(H, p, t) && p.FullTree() && |p.hashes| > 0
    requires Run(H, p, states, events) && |states| == |events| + 1
    requires SoundRun(p, t, states, events) && GenuineUpTo(H, p, t, states, |events|)
    requires n < |states[0].peers|
    requires forall i: nat :: i < |p.chunks| ==>
               CompleteAt(p, t, states[0].peers[n].file, i) || FetchedAndQuiet(p, t, states, events, n, i)
    ensures n < |states[|events|].peers| && HasOriginal(H, p, t, states[|events|].peers[n])
  {
    var end := |events|;
    assert p.WellFormed(H) && Original(H, p, t);
    hide Package.WellFormed, Original, Setting, Run, Inv, NothingLost, CompleteAt, Wired, FetchedAndQuiet, Package.FullTree,
         ReportsCompleted, GenuineUpTo, SoundRun;
    RunIsSafe(H, p, t, states, events, end);
    RunLosesNothing(H, p, t, states, events, 0, end);
    forall i: nat | i < |p.chunks| ensures CompleteAt(p, t, states[end].peers[n].file, i) {
      if CompleteAt(p, t, states[0].peers[n].file, i) {
        LostNothing(p, t, states[0].peers[n].file, states[end].peers[n].file, i);
      } else {
        FetchedChunkArrives(H, p, t, states, events, n, i);
      }
    }
    AllChunksMakeTheFile(H, p, t, states[end].peers[n].file);
  }

  /**
   * Completion: if in the course of a run a peer fetches every chunk it lacked at the start from some peer
   * that holds what is asked, and at the end those connections are quiet, then whatever the interleaving, and
   * whatever file it started from, it ends with the original and PACKAGES reports it COMPLETED; or a file held
   * by some peer on the way makes the hash collide. Every FETCH of the run, anybody's, is to be sound.
   */
  lemma FetchesComplete(H: Digester, p: Package, t: seq<byte>, states: seq<State>, events: seq<Event>, n: nat)
    returns (m: nat, q: nat)
    requires Setting(H, p, t) && p.FullTree() && |p.hashes| > 0
    requires Run(H, p, states, events) && |states| == |events| + 1 && SoundRun(p, t, states, events)
    requires n < |states[0].peers|
    requires forall i: nat :: i < |p.chunks| ==>
               CompleteAt(p, t, states[0].peers[n].file, i) || FetchedAndQuiet(p, t, states, events, n, i)
    ensures (n < |states[|events|].peers| && HasOriginal(H, p, t, states[|events|].peers[n]))
            || ForgeryAt(H, p, t, states, |events|, m, q)
  {
    hide Setting, Run, HasOriginal, FetchedAndQuiet, CompleteAt, GenuineUpTo, SoundRun, ForgeryAt, Package.FullTree;
    m, q := FindForgery(H, p, t, states, |events|);
    if GenuineUpTo(H, p, t, states, |events|) {
      AllFetchedMakesTheFile(H, p, t, states, events, n);
    }
  }

  // Without offsets.

  /** No FETCH of the run gives an offset. */
  predicate DefaultFetches(events: seq<Event>) {
    forall k :: 0 <= k < |events| && events[k].Fetch? ==> events[k].want.offset.None?
  }

  lemma DefaultIsSound(H: Digester, p: Package, t: seq<byte>, s: State, ev: Event, s': State)
    requires p.FullTree() && p.Tiled() && Covered(p) && Wired(p, s) && Step(H, p, s, ev, s')
    requires ev.Fetch? && ev.want.offset.None?
    ensures SoundEvent(p, t, s, ev)
  {
    FetchHappens(H, p, s, ev, s');
    FetchReaches(p, s, ev.link, ev.ident, ev.want, s');
    hide Wired, Step, FetchStep, RangeCovered, RangeRight, CoveredAt, FirstChunk, Package.Tiled, FetchAsk;
    var i := FirstChunk(p, ev.want.hash, 0).value;
    FirstIsItsFirst(p, ev.want.hash);
    DefaultFetchAsk(p, ev.want);
    OwnRangeCoveredIff(p, i);
  }

  lemma FetchReaches(p: Package, s: State, l: Link, ident: seq<byte>, w: Want, s': State)
    requires Wired(p, s) && FetchStep(p, s, l, ident, w, s')
    ensures FirstChunk(p, w.hash, 0).Some? && l.to < |s.peers|
  {
    hide CacheFits, FirstChunk;
  }

  /** In a covered package every run without offsets is sound. */
  lemma DefaultRunIsSound(H: Digester, p: Package, t: seq<byte>, states: seq<State>, events: seq<Event>)
    requires p.FullTree() && p.Tiled() && Covered(p) && Run(H, p, states, events) && DefaultFetches(events)
    ensures SoundRun(p, t, states, events)
  {
    hide Wired, Step, Initial, Covered, Package.Tiled, Package.FullTree, SoundFetch;
    forall k | 0 <= k < |events| ensures SoundEvent(p, t, states[k], events[k]) {
      if events[k].Fetch? {
        assert StepAt(H, p, states, events, k);
        DefaultIsSound(H, p, t, states[k], events[k], states[k + 1]);
      }
    }
  }
}
