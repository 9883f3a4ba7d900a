/**
 * Which requests are safe: exactly those that ask for what lies below the node their hash is looked up at. Any
 * other lets a run put a false RES in flight, or reach a range that no int holds.
 */
module Misdirection {
  import opened Bytes
  import opened Digests
  import opened Merkle
  import opened Queries
  import opened Lookup
  import opened Verification
  import opened Packets
  import opened Splitting
  import opened Protocol
  import opened Requests
  import opened Safety
  import opened Pledges
  import opened Completion
  import opened Gate

  /** From the peer that asks, which has no file, to the one that serves. */
  const ASK: Link := Link(0, 1, 0, true)

  /** Computed hashes before any check. */
  function Blank(p: Package): (c: seq<Hash>)
    ensures |c| == |p.Expected()| && forall k :: 0 <= k < |c| ==> c[k] == []
  {
    seq(|p.Expected()|, k => [])
  }

  /** Two peers and one connection; the second has a file and the first has none. */
  function Start(p: Package, f: seq<byte>): State {
    State([Peer(Some(Blank(p)), None), Peer(Some(Blank(p)), Some(f))], map[ASK := [], ASK.Back() := []], map[])
  }

  lemma StartIsInitial(H: Digester, p: Package, f: seq<byte>)
    requires p.WellFormed(H) && p.FullTree()
    ensures Initial(p, Start(p, f))
  {
    hide Package.Expected;
    assert Unverified(p, Blank(p));
    forall l {:trigger l.Back()} | l in Start(p, f).channels ensures l.Back() in Start(p, f).channels {
      assert l == ASK || l == ASK.Back();
    }
  }

  lemma {:induction false} SameIdentAsItself(a: seq<byte>, n: nat)
    ensures SameIdent(a, a, n)
    decreases n
  {
    if n > 0 {
      SameIdentAsItself(Rest(a), n - 1);
    }
  }

  /** A FETCH the user can type: by the hash of a chunk, with an offset of 32 bits or none. */
  predicate Issuable(p: Package, w: Want) {
    FirstChunk(p, w.hash, 0).Some? && (w.offset.Some? ==> w.offset.value < 0x1_0000_0000)
  }

  lemma FetchFields(H: Digester, p: Package, w: Want)
    requires p.WellFormed(H) && |p.ident| <= IDENT_LEN && Issuable(p, w)
    ensures var a := FetchAsk(p, w); ReqFields(p.ident, a.hash, a.len, a.offset) && 0 < a.len < 0x8000_0000
  {
    var i := FirstChunk(p, w.hash, 0).value;
    ChunkWithin(p, i);
    SizePositive(p, i);
    assert p.FullTree();
    LeafExpects(p, i);
    assert |p.Expected()[|p.hashes| + i]| == 64;
  }

  /** What the serving peer decodes from the request. */
  lemma OwnRequestDecodes(p: Package, a: Ask)
    requires ReqFields(p.ident, a.hash, a.len, a.offset)
    ensures AskOf(Request(p.ident, a).payload) == a && SameIdent(p.ident, ReqIdent(Request(p.ident, a).payload), 20)
  {
    RequestDecodes(p.ident, a);
    SameIdentAsItself(p.ident, 20);
    PaddedIdent(p.ident, p.ident, IDENT_LEN - |p.ident|, 20);
    hide Request, AskOf, ReqIdent, SameIdent;
  }

  /** The job that serving the request starts. */
  function JobFor(p: Package, a: Ask): (j: Job)
    requires ReqFields(p.ident, a.hash, a.len, a.offset)
    ensures |j.ident| == IDENT_LEN
  {
    Job(a.offset, a.len, a.hash, ReqIdent(Request(p.ident, a).payload))
  }

  lemma BlankFits(H: Digester, p: Package, f: seq<byte>)
    requires p.FullTree()
    ensures CacheFits(p, Peer(Some(Blank(p)), Some(f))) && |Blank(p)| == 2 * |p.hashes| + 1
  {
  }

  /** A file that passes the check is served from, or leads to a range that no int holds. */
  lemma PassingIsServed(H: Digester, p: Package, f: seq<byte>, a: Ask)
    requires p.FullTree() && ReqFields(p.ident, a.hash, a.len, a.offset) && 0 < a.len < 0x8000_0000
    requires CacheFits(p, Peer(Some(Blank(p)), Some(f))) && |Blank(p)| == 2 * |p.hashes| + 1
    requires FindFrom(|p.hashes|, p.Expected(), a.hash, 0).Some? && Passes(H, p, f, Blank(p), a.hash)
    ensures AnswerReq(H, p, Peer(Some(Blank(p)), Some(f)), Request(p.ident, a).payload)
            == if IntRange(a.offset, a.len) then Serve(JobFor(p, a)) else Crash
  {
    var me := Peer(Some(Blank(p)), Some(f));
    var k := FindFrom(|p.hashes|, p.Expected(), a.hash, 0).value;
    OwnRequestDecodes(p, a);
    FoundNode(p, a.hash);
    AskFields(Request(p.ident, a).payload);
    assert Checked(H, p, me).cache == Some(AfterVerify(H, p, Some(f), Blank(p)));
    assert Manages(p, me, ReqIdent(Request(p.ident, a).payload));
    assert Marked(p, Checked(H, p, me).cache.value, k);
    hide Request, AskOf, ReqIdent, ReqHash, ReqOffset, ReqLen, SameIdent, FindFrom, Package.Expected, Blank, AfterVerify, Checked,
         Marked, Manages, AnswerReq;
    AnswerOnceFound(H, p, me, Request(p.ident, a).payload, k);
  }

  // The steps of the run.

  function Asked(p: Package, f: seq<byte>, a: Ask): State
    requires ReqFields(p.ident, a.hash, a.len, a.offset)
  {
    Sent(Start(p, f), ASK, Request(p.ident, a))
  }

  lemma AskStep(p: Package, f: seq<byte>, w: Want)
    requires FirstChunk(p, w.hash, 0).Some?
    requires var a := FetchAsk(p, w); ReqFields(p.ident, a.hash, a.len, a.offset)
    ensures FetchStep(p, Start(p, f), ASK, p.ident, w, Asked(p, f, FetchAsk(p, w)))
  {
    SameIdentAsItself(p.ident, 20);
    hide SameIdent, Request, FirstChunk, FetchAsk, Blank;
  }

  /** The serving peer after its check, with its send loop about to start. */
  function Serving(H: Digester, p: Package, f: seq<byte>, a: Ask): (s: State)
    requires p.FullTree() && ReqFields(p.ident, a.hash, a.len, a.offset)
    requires CacheFits(p, Start(p, f).peers[1])
  {
    Taken(Asked(p, f, a), ASK, AfterReq(H, p, Start(p, f).peers[1], Request(p.ident, a).payload))
      .(jobs := map[ASK.Back() := JobFor(p, a)])
  }

  lemma ServeStep(H: Digester, p: Package, f: seq<byte>, a: Ask)
    requires p.FullTree() && ReqFields(p.ident, a.hash, a.len, a.offset)
    requires CacheFits(p, Start(p, f).peers[1]) && Wired(p, Asked(p, f, a))
    requires AnswerReq(H, p, Start(p, f).peers[1], Request(p.ident, a).payload) == Serve(JobFor(p, a))
    ensures DeliverStep(H, p, Asked(p, f, a), ASK, Serving(H, p, f, a))
  {
    hide AnswerReq, AfterReq, Request, JobFor, CacheFits, Blank, Wired;
    assert map[][ASK.Back() := JobFor(p, a)] == map[ASK.Back() := JobFor(p, a)];
  }

  lemma StaysWired(p: Package, s: State, s': State)
    requires Wired(p, s) && s'.channels.Keys == s.channels.Keys && |s'.peers| == |s.peers|
    requires forall l :: l in s'.jobs ==> l in s.channels
    requires forall n :: 0 <= n < |s.peers| ==> CacheFits(p, s'.peers[n])
    ensures Wired(p, s')
  {
    hide CacheFits;
  }

  lemma SameCacheFits(p: Package, a: Peer, b: Peer)
    requires a.cache == b.cache && CacheFits(p, b)
    ensures CacheFits(p, a)
  {
  }

  /** In every state of the run the one file there is is this one. */
  predicate OnlyFile(s: State, f: seq<byte>) {
    |s.peers| == 2 && s.peers[0].file == None && s.peers[1].file == Some(f)
  }

  lemma BeforeSending(H: Digester, p: Package, f: seq<byte>, a: Ask)
    requires p.WellFormed(H) && p.FullTree() && ReqFields(p.ident, a.hash, a.len, a.offset)
    requires CacheFits(p, Start(p, f).peers[1])
    ensures Initial(p, Start(p, f)) && Wired(p, Start(p, f)) && OnlyFile(Start(p, f), f)
    ensures Wired(p, Asked(p, f, a)) && OnlyFile(Asked(p, f, a), f)
    ensures Wired(p, Serving(H, p, f, a)) && OnlyFile(Serving(H, p, f, a), f)
    ensures ASK in Asked(p, f, a).channels && Asked(p, f, a).channels[ASK] == [Request(p.ident, a)]
    ensures Asked(p, f, a).peers == Start(p, f).peers && ASK.to == 1
    ensures ASK.Back() in Serving(H, p, f, a).channels && Serving(H, p, f, a).jobs == map[ASK.Back() := JobFor(p, a)]
  {
    StartIsInitial(H, p, f);
    hide Request, CacheFits, Blank, JobFor, AfterReq, Wired, Initial, Package.WellFormed, Package.FullTree;
    assert Wired(p, Start(p, f)) by {
      InitialIsWired(p, Start(p, f));
    }
    SameCacheFits(p, Start(p, f).peers[0], Start(p, f).peers[1]);
    StaysWired(p, Start(p, f), Asked(p, f, a));
    StaysWired(p, Start(p, f), Serving(H, p, f, a));
  }

  lemma InitialIsWired(p: Package, s: State)
    requires p.FullTree() && Initial(p, s)
    ensures Wired(p, s)
  {
    hide Wired, Unverified;
  }

  // Sending until the wrong byte is on its way.

  /** A packet in flight that is no error report does not carry the bytes of the original. */
  ghost predicate FalseInFlight(t: seq<byte>, s: State) {
    exists l, n :: l in s.channels && 0 <= n < |s.channels[l]| && !TruePacket(t, s.channels[l][n])
  }

  lemma FalseIsUnsafe(H: Digester, p: Package, t: seq<byte>, s: State)
    requires p.FullTree() && FalseInFlight(t, s)
    ensures !SafeState(H, p, t, s)
  {
    hide TruePacket, Answerable;
  }

  lemma PieceWithWrongByte(t: seq<byte>, f: seq<byte>, j: Job, x: nat)
    requires |f| == |t| && !Right(t, Some(f), x)
    requires j.left > 0 && j.offset <= x < j.offset + PieceLen(j.left) && Sendable(j.offset, j.hash, j.ident)
    ensures !TruePacket(t, Piece(f, j.offset, j.left, j.hash, j.ident))
  {
    hide *;
    var pl, d := PieceFields(f, j.offset, j.left, j.hash, j.ident);
    DataWithWrongByte(t, f, pl, j.offset, d, x);
  }

  lemma DataWithWrongByte(t: seq<byte>, f: seq<byte>, pl: seq<byte>, offset: nat, d: seq<byte>, x: nat)
    requires |f| == |t| && !Right(t, Some(f), x) && |pl| == PAYLOAD_MAX && ResOffset(pl) == offset && ResData(pl) == d
    requires offset <= x < offset + |d| && d[x - offset] == ByteAt(f, x)
    ensures !TruePacket(t, Packet(PKT_MSG_RES, 0, pl))
  {
    hide ResOffset, ResData;
  }

  /** The send loop has this byte still to send. */
  predicate Spans(j: Job, x: nat) {
    j.left > 0 && j.offset <= x < j.offset + j.left && j.offset + j.left < 0x8000_0000 &&
    |j.hash| == HASH_LEN && |j.ident| == IDENT_LEN
  }

  function PieceSent(s: State, f: seq<byte>): State
    requires ASK.Back() in s.channels && ASK.Back() in s.jobs && s.jobs[ASK.Back()].left > 0
    requires var j := s.jobs[ASK.Back()]; Sendable(j.offset, j.hash, j.ident)
  {
    var b := ASK.Back();
    var j := s.jobs[b];
    Sent(s, b, Piece(f, j.offset, j.left, j.hash, j.ident)).(jobs := s.jobs[b := Advanced(j)])
  }

  lemma PieceSentFacts(p: Package, s: State, f: seq<byte>, x: nat)
    requires Wired(p, s) && OnlyFile(s, f) && ASK.Back() in s.channels && ASK.Back() in s.jobs
    requires Spans(s.jobs[ASK.Back()], x)
    ensures var j, s' := s.jobs[ASK.Back()], PieceSent(s, f);
            EmitStep(p, s, ASK.Back(), s') && Wired(p, s') && OnlyFile(s', f)
            && ASK.Back() in s'.channels && ASK.Back() in s'.jobs && s'.jobs[ASK.Back()] == Advanced(j)
            && |s'.channels[ASK.Back()]| > 0
            && s'.channels[ASK.Back()][|s'.channels[ASK.Back()]| - 1] == Piece(f, j.offset, j.left, j.hash, j.ident)
  {
    var s' := PieceSent(s, f);
    SendsPiece(p, s, ASK.Back(), f);
    assert forall n :: 0 <= n < |s.peers| ==> CacheFits(p, s'.peers[n]);
    assert forall l :: l in s'.jobs ==> l in s.channels;
    hide Piece, CacheFits, Wired, EmitStep, Advanced;
    StaysWired(p, s, s');
  }

  lemma RestSpans(j: Job, x: nat)
    requires Spans(j, x) && x >= j.offset + PieceLen(j.left)
    ensures Spans(Advanced(j), x) && Advanced(j).left < j.left
  {
  }

  /** What all states and events of the run after the FETCH have in common. */
  ghost predicate Onward(states: seq<State>, events: seq<Event>, f: seq<byte>) {
    |states| == |events| + 1 && |events| > 0 &&
    (forall k :: 0 <= k < |states| ==> OnlyFile(states[k], f)) && forall k :: 0 < k < |events| ==> Pending(events[k])
  }

  lemma OnwardGrows(states: seq<State>, events: seq<Event>, f: seq<byte>, ev: Event, s': State)
    requires Onward(states, events, f) && Pending(ev) && OnlyFile(s', f)
    ensures Onward(states + [s'], events + [ev], f) && (events + [ev])[0] == events[0]
    ensures |states + [s']| == |states| + 1 && (states + [s'])[|states|] == s' && |events + [ev]| == |events| + 1
  {
    hide OnlyFile, Pending;
  }

  lemma EmitIsStep(H: Digester, p: Package, s: State, l: Link, s': State)
    requires p.FullTree() && Wired(p, s) && EmitStep(p, s, l, s')
    ensures Step(H, p, s, Emit(l), s') && Pending(Emit(l))
  {
    hide EmitStep, Wired;
  }

  /** The send loop goes on until the packet with the wrong byte has been sent. */
  lemma {:induction false} SendUntilWrong(H: Digester, p: Package, t: seq<byte>, f: seq<byte>, x: nat,
                                          states: seq<State>, events: seq<Event>)
    returns (states': seq<State>, events': seq<Event>)
    requires p.FullTree() && |f| == |t| && !Right(t, Some(f), x)
    requires Run(H, p, states, events) && Onward(states, events, f) && |states| == |events| + 1
    requires var s := states[|events|];
             Wired(p, s) && ASK.Back() in s.channels && ASK.Back() in s.jobs && Spans(s.jobs[ASK.Back()], x)
    ensures Run(H, p, states', events') && Onward(states', events', f) && |events| > 0 && |events'| > 0
    ensures events'[0] == events[0] && |states'| == |events'| + 1 && FalseInFlight(t, states'[|events'|])
    decreases states[|events|].jobs[ASK.Back()].left
  {
    var s, b := states[|events|], ASK.Back();
    OnwardGives(states, events, f, |events|);
    hide Run, Onward, Wired, Right, Piece, EmitStep, Step, PieceSent, OnlyFile, Pending, Spans, Advanced, Package.FullTree,
         TruePacket, PieceLen, Sendable;
    SpansSendable(s.jobs[b], x);
    PieceSentFacts(p, s, f, x);
    var s' := PieceSent(s, f);
    EmitIsStep(H, p, s, b, s');
    RunGrows(H, p, states, events, Emit(b), s');
    OnwardGrows(states, events, f, Emit(b), s');
    states', events' := states + [s'], events + [Emit(b)];
    if x < s.jobs[b].offset + PieceLen(s.jobs[b].left) {
      PieceWithWrongByte(t, f, s.jobs[b], x);
    } else {
      RestSpans(s.jobs[b], x);
      states', events' := SendUntilWrong(H, p, t, f, x, states', events');
    }
  }

  lemma OnwardGives(states: seq<State>, events: seq<Event>, f: seq<byte>, k: nat)
    requires Onward(states, events, f) && k < |states|
    ensures OnlyFile(states[k], f) && |events| > 0 && |states| == |events| + 1
  {
    hide OnlyFile;
  }

  lemma SpansSendable(j: Job, x: nat)
    requires Spans(j, x)
    ensures j.left > 0 && Sendable(j.offset, j.hash, j.ident) && j.offset <= x
  {
  }

  /** A run of a FETCH alone, at whose end the peer asked would leave the range of int. */
  lemma OneStep(H: Digester, p: Package, f: seq<byte>, w: Want) returns (states: seq<State>, events: seq<Event>)
    requires p.WellFormed(H) && p.FullTree() && FirstChunk(p, w.hash, 0).Some?
    requires var a := FetchAsk(p, w); ReqFields(p.ident, a.hash, a.len, a.offset)
    requires CacheFits(p, Start(p, f).peers[1])
    ensures Run(H, p, states, events) && Onward(states, events, f) && |states| == |events| + 1 == 2
    ensures events[0] == Fetch(ASK, p.ident, w) && states[1] == Asked(p, f, FetchAsk(p, w))
  {
    hide *;
    var a := FetchAsk(p, w);
    BeforeSending(H, p, f, a);
    AskStep(p, f, w);
    states, events := [Start(p, f), Asked(p, f, a)], [Fetch(ASK, p.ident, w)];
    RunOfOne(H, p, states, events);
    OnwardFromOne(states, events, f);
  }

  lemma RunOfOne(H: Digester, p: Package, states: seq<State>, events: seq<Event>)
    requires p.FullTree() && |states| == 2 && |events| == 1 && Initial(p, states[0]) && Wired(p, states[0])
    requires events[0].Fetch? && FetchStep(p, states[0], events[0].link, events[0].ident, events[0].want, states[1])
    ensures Run(H, p, states, events)
  {
    hide Wired, Initial, FetchStep, Package.FullTree;
    assert StepAt(H, p, states, events, 0);
  }

  lemma OnwardFromOne(states: seq<State>, events: seq<Event>, f: seq<byte>)
    requires |states| == 2 && |events| == 1 && OnlyFile(states[0], f) && OnlyFile(states[1], f)
    ensures Onward(states, events, f)
  {
    hide OnlyFile;
  }

  lemma DeliverIsStep(H: Digester, p: Package, s: State, l: Link, s': State)
    requires p.FullTree() && Wired(p, s) && DeliverStep(H, p, s, l, s')
    ensures Step(H, p, s, Deliver(l), s') && Pending(Deliver(l))
  {
    hide DeliverStep, Wired;
  }

  /** A run of a FETCH and its delivery, at whose end the send loop is about to start. */
  lemma TwoSteps(H: Digester, p: Package, f: seq<byte>, w: Want) returns (states: seq<State>, events: seq<Event>)
    requires p.WellFormed(H) && p.FullTree() && FirstChunk(p, w.hash, 0).Some?
    requires var a := FetchAsk(p, w); ReqFields(p.ident, a.hash, a.len, a.offset)
    requires CacheFits(p, Start(p, f).peers[1])
    requires AnswerReq(H, p, Start(p, f).peers[1], Request(p.ident, FetchAsk(p, w)).payload) == Serve(JobFor(p, FetchAsk(p, w)))
    ensures Run(H, p, states, events) && Onward(states, events, f) && |states| == |events| + 1 == 3
    ensures events[0] == Fetch(ASK, p.ident, w) && states[2] == Serving(H, p, f, FetchAsk(p, w))
  {
    hide *;
    var a := FetchAsk(p, w);
    BeforeSending(H, p, f, a);
    states, events := OneStep(H, p, f, w);
    ServeStep(H, p, f, a);
    DeliverIsStep(H, p, Asked(p, f, a), ASK, Serving(H, p, f, a));
    RunGrows(H, p, states, events, Deliver(ASK), Serving(H, p, f, a));
    OnwardGrows(states, events, f, Deliver(ASK), Serving(H, p, f, a));
    states, events := states + [Serving(H, p, f, a)], events + [Deliver(ASK)];
  }

  lemma StartsWith(p: Package, f: seq<byte>)
    ensures |Start(p, f).peers| == 2 && Start(p, f).peers[1] == Peer(Some(Blank(p)), Some(f))
  {
    hide Blank;
  }

  lemma HeadCrashes(H: Digester, p: Package, t: seq<byte>, s: State, l: Link, packet: Packet)
    requires p.FullTree() && l in s.channels && s.channels[l] == [packet] && l.to < |s.peers|
    requires packet.code == PKT_MSG_REQ && |packet.payload| == PAYLOAD_MAX && CacheFits(p, s.peers[l.to])
    requires AnswerReq(H, p, s.peers[l.to], packet.payload).Crash?
    ensures !SafeState(H, p, t, s)
  {
    hide TruePacket, AnswerReq, CacheFits;
    assert !Answerable(H, p, s.peers[l.to], s.channels[l][0]);
  }

  lemma JobForSpans(p: Package, a: Ask, x: nat)
    requires ReqFields(p.ident, a.hash, a.len, a.offset) && 0 < a.len < 0x8000_0000 && IntRange(a.offset, a.len)
    requires a.Has(x)
    ensures Spans(JobFor(p, a), x)
  {
    hide Request, ReqIdent;
  }

  /**
   * A FETCH whose range is not below the node its hash is looked up at has a bad run: a peer whose file is the
   * original with the one byte x spoiled, or the original if x is past its end, is asked, passes its own check,
   * and sends until that byte is in flight; or, for a range that no int holds, it is asked what it cannot
   * answer. Nothing is asked of the hash function.
   */
  lemma MisdirectedRun(H: Digester, p: Package, t: seq<byte>, w: Want)
    returns (states: seq<State>, events: seq<Event>, x: nat)
    requires Setting(H, p, t) && p.FullTree() && |p.ident| <= IDENT_LEN
    requires Issuable(p, w) && FirstChunk(p, w.hash, 0).Some? && !RangeCovered(p, FetchAsk(p, w))
    ensures Run(H, p, states, events) && Onward(states, events, Spoiled(t, x)) && |events| > 0
    ensures |states| == |events| + 1
    ensures events[0] == Fetch(ASK, p.ident, w) && !SafeState(H, p, t, states[|events|])
    ensures IntRange(FetchAsk(p, w).offset, FetchAsk(p, w).len) ==> FalseInFlight(t, states[|events|])
  {
    hide *;
    var a := FetchAsk(p, w);
    SettingGives(H, p, t);
    FetchFields(H, p, w);
    FetchedHashIsFound(p, w.hash);
    FetchAskHash(p, w);
    BlankFits(H, p, t);
    x := UncoveredIsMissed(H, p, t, a, Blank(p));
    var f := Spoiled(t, x);
    StartsWith(p, f);
    BlankFits(H, p, f);
    PassingIsServed(H, p, f, a);
    BeforeSending(H, p, f, a);
    if IntRange(a.offset, a.len) {
      states, events := TwoSteps(H, p, f, w);
      JobForSpans(p, a, x);
      states, events := SendUntilWrong(H, p, t, f, x, states, events);
      FalseIsUnsafe(H, p, t, states[|events|]);
    } else {
      states, events := OneStep(H, p, f, w);
      HeadCrashes(H, p, t, Asked(p, f, a), ASK, Request(p.ident, a));
    }
  }

  lemma FetchAskHash(p: Package, w: Want)
    requires FirstChunk(p, w.hash, 0).Some?
    ensures FetchAsk(p, w).hash == w.hash
  {
  }

  // Exactly which requests are safe.

  /** Every state of the run is safe, and no chunk once complete at a peer is lost later. */
  ghost predicate SafeRun(H: Digester, p: Package, t: seq<byte>, states: seq<State>)
    requires p.FullTree()
  {
    (forall k :: 0 <= k < |states| ==> SafeState(H, p, t, states[k])) &&
    forall j, k :: 0 <= j <= k < |states| ==> ChunksKept(p, t, states[j], states[k])
  }

  /** Every FETCH of the run is one of those allowed. */
  ghost predicate FetchesIn(allowed: iset<Want>, events: seq<Event>) {
    forall k :: 0 <= k < |events| && events[k].Fetch? ==> events[k].want in allowed
  }

  /** Every run that fetches only what is allowed, and in which the hash does not collide on a file held, is safe. */
  ghost predicate AlwaysSafe(H: Digester, p: Package, t: seq<byte>, allowed: iset<Want>)
    requires p.FullTree()
  {
    forall states, events ::
      Run(H, p, states, events) && FetchesIn(allowed, events) && GenuineUpTo(H, p, t, states, |states|) ==>
        SafeRun(H, p, t, states)
  }

  /** Whatever is allowed asks only for what lies below the node its hash is looked up at. */
  ghost predicate AllCovered(p: Package, allowed: iset<Want>)
    requires p.FullTree()
  {
    forall w :: w in allowed && Issuable(p, w) ==> RangeCovered(p, FetchAsk(p, w))
  }

  lemma NoForgery(H: Digester, p: Package, t: seq<byte>, states: seq<State>, n: nat, m: nat, q: nat)
    requires p.FullTree() && GenuineUpTo(H, p, t, states, |states|)
    ensures !ForgeryAt(H, p, t, states, n, m, q)
  {
    hide Genuine;
    if m < |states| && q < |states[m].peers| {
      GenuineAt(H, p, t, states, |states|, m);
      GenuinePeer(H, p, t, states[m], q);
    }
  }

  lemma OnlyFileGenuine(H: Digester, p: Package, t: seq<byte>, states: seq<State>, events: seq<Event>,
                        f: seq<byte>)
    requires p.FullTree() && Genuine(H, p, t, Some(f))
    requires Onward(states, events, f)
    ensures GenuineUpTo(H, p, t, states, |states|)
  {
    assert Genuine(H, p, t, None);
    hide Genuine;
  }

  lemma SoundRunIsSafe(H: Digester, p: Package, t: seq<byte>, states: seq<State>, events: seq<Event>)
    requires Setting(H, p, t) && p.FullTree() && Run(H, p, states, events) && SoundRun(p, t, states, events)
    requires GenuineUpTo(H, p, t, states, |states|)
    ensures SafeRun(H, p, t, states)
  {
    hide Setting, Package.FullTree, Run, SoundRun, GenuineUpTo, SafeState, ChunksKept, ForgeryAt;
    forall j, k | 0 <= j <= k < |states| ensures SafeState(H, p, t, states[k]) && ChunksKept(p, t, states[j], states[k]) {
      var m, q := TransferIsSafe(H, p, t, states, events, j, k);
      NoForgery(H, p, t, states, k + 1, m, q);
    }
  }

  lemma FetchIsIssuable(p: Package, s: State, l: Link, ident: seq<byte>, w: Want, s': State)
    requires Wired(p, s) && FetchStep(p, s, l, ident, w, s')
    ensures Issuable(p, w) && l.to < |s.peers|
  {
    hide CacheFits, FirstChunk;
  }

  lemma CoveredFetchesAreSound(H: Digester, p: Package, t: seq<byte>, states: seq<State>, events: seq<Event>,
                               allowed: iset<Want>)
    requires p.FullTree() && Run(H, p, states, events) && FetchesIn(allowed, events) && AllCovered(p, allowed)
    ensures SoundRun(p, t, states, events)
  {
    hide Wired, Step, Initial, Package.FullTree, RangeCovered, RangeRight, Issuable, FirstChunk, FetchAsk;
    forall k | 0 <= k < |events| ensures SoundEvent(p, t, states[k], events[k]) {
      var s, ev := states[k], events[k];
      if ev.Fetch? {
        assert StepAt(H, p, states, events, k);
        FetchHappens(H, p, s, ev, states[k + 1]);
        FetchIsIssuable(p, s, ev.link, ev.ident, ev.want, states[k + 1]);
      }
    }
  }

  lemma CoveredIsSafe(H: Digester, p: Package, t: seq<byte>, allowed: iset<Want>)
    requires Setting(H, p, t) && p.FullTree() && AllCovered(p, allowed)
    ensures AlwaysSafe(H, p, t, allowed)
  {
    hide Setting, Package.FullTree, Run, GenuineUpTo, SafeRun, FetchesIn, AllCovered;
    forall states, events |
      Run(H, p, states, events) && FetchesIn(allowed, events) && GenuineUpTo(H, p, t, states, |states|)
      ensures SafeRun(H, p, t, states)
    {
      CoveredFetchesAreSound(H, p, t, states, events, allowed);
      SoundRunIsSafe(H, p, t, states, events);
    }
  }

  lemma UnsafeRun(H: Digester, p: Package, t: seq<byte>, allowed: iset<Want>, states: seq<State>, events: seq<Event>)
    requires p.FullTree() && Run(H, p, states, events) && FetchesIn(allowed, events)
    requires GenuineUpTo(H, p, t, states, |states|) && |states| == |events| + 1 && !SafeState(H, p, t, states[|events|])
    ensures !AlwaysSafe(H, p, t, allowed)
  {
    hide Run, FetchesIn, GenuineUpTo, SafeState, ChunksKept;
    assert !SafeRun(H, p, t, states);
  }

  lemma OneFetch(allowed: iset<Want>, states: seq<State>, events: seq<Event>, f: seq<byte>)
    requires Onward(states, events, f) && events[0].Fetch? && events[0].want in allowed
    ensures FetchesIn(allowed, events)
  {
    hide OnlyFile;
  }

  /**
   * Which requests are safe: every run that fetches only what is allowed is safe if and only if all that is
   * allowed asks only for what lies below the node its hash is looked up at; or the original with the one byte
   * x spoiled makes the hash collide.
   */
  lemma SafetyIsExact(H: Digester, p: Package, t: seq<byte>, allowed: iset<Want>) returns (x: nat)
    requires Setting(H, p, t) && p.FullTree() && |p.ident| <= IDENT_LEN
    ensures (AlwaysSafe(H, p, t, allowed) <==> AllCovered(p, allowed)) || (x < |t| && !Genuine(H, p, t, Some(Spoiled(t, x))))
  {
    x := 0;
    hide Setting, Package.FullTree, Run, GenuineUpTo, SafeState, AlwaysSafe, Genuine, Issuable, FetchAsk, RangeCovered, Spoiled,
         Onward;
    if AllCovered(p, allowed) {
      CoveredIsSafe(H, p, t, allowed);
    } else {
      var w :| w in allowed && Issuable(p, w) && !RangeCovered(p, FetchAsk(p, w));
      IssuableHasChunk(p, w);
      var states, events, y := MisdirectedRun(H, p, t, w);
      x := y;
      SpoiledOrOriginal(t, x);
      OriginalIsGenuine(H, p, t);
      if Genuine(H, p, t, Some(Spoiled(t, x))) {
        OnlyFileGenuine(H, p, t, states, events, Spoiled(t, x));
        OneFetch(allowed, states, events, Spoiled(t, x));
        UnsafeRun(H, p, t, allowed, states, events);
      }
    }
  }

  lemma IssuableHasChunk(p: Package, w: Want)
    requires Issuable(p, w)
    ensures FirstChunk(p, w.hash, 0).Some?
  {
  }

  // The two policies a user is likely to keep to.

  /** FETCH without an offset. */
  ghost function NoOffsets(): iset<Want> {
    iset w: Want | w.offset.None?
  }

  lemma NoOffsetsCoveredIff(p: Package)
    requires p.FullTree() && p.Tiled()
    ensures AllCovered(p, NoOffsets()) <==> Covered(p)
  {
    hide FindFrom, Package.Tiled, RangeCovered, CoveredAt, FirstChunk;
    forall w: Want | w.offset.None? && Issuable(p, w)
      ensures RangeCovered(p, FetchAsk(p, w)) <==> CoveredAt(p, FirstChunk(p, w.hash, 0).value)
    {
      DefaultFetchAsk(p, w);
      OwnRangeCoveredIff(p, FirstChunk(p, w.hash, 0).value);
    }
    if Covered(p) {
      forall w | w in NoOffsets() && Issuable(p, w) ensures RangeCovered(p, FetchAsk(p, w)) {
        FirstIsItsFirst(p, w.hash);
      }
    }
    if AllCovered(p, NoOffsets()) {
      forall i | 0 <= i < |p.chunks| && FirstChunk(p, p.chunks[i].hash, 0) == Some(i) ensures CoveredAt(p, i) {
        var w := Want(p.chunks[i].hash, None);
        assert w in NoOffsets() && Issuable(p, w);
      }
    }
  }

  /** Without offsets, every run is safe if and only if the package is covered. */
  lemma DefaultSafetyIsExact(H: Digester, p: Package, t: seq<byte>) returns (x: nat)
    requires Setting(H, p, t) && p.FullTree() && |p.ident| <= IDENT_LEN
    ensures (AlwaysSafe(H, p, t, NoOffsets()) <==> Covered(p)) || (x < |t| && !Genuine(H, p, t, Some(Spoiled(t, x))))
  {
    hide AlwaysSafe, AllCovered, Covered, Genuine, Package.Tiled;
    SettingGives(H, p, t);
    x := SafetyIsExact(H, p, t, NoOffsets());
    NoOffsetsCoveredIff(p);
  }

  /**
   * In an aligned package, every run that fetches only what is allowed is safe if and only if nothing allowed
   * asks for another place than that of the first chunk with its hash.
   */
  lemma AlignedSafetyIsExact(H: Digester, p: Package, t: seq<byte>, allowed: iset<Want>) returns (x: nat)
    requires Setting(H, p, t) && p.FullTree() && Aligned(p) && |p.ident| <= IDENT_LEN
    ensures (AlwaysSafe(H, p, t, allowed) <==>
             forall w :: w in allowed && Issuable(p, w) ==>
               FetchAsk(p, w).offset == p.chunks[FirstChunk(p, w.hash, 0).value].offset)
            || (x < |t| && !Genuine(H, p, t, Some(Spoiled(t, x))))
  {
    hide AlwaysSafe, Setting, Aligned, Genuine, Package.Tiled, Package.FullTree, FirstChunk, RangeCovered, FetchAsk;
    SettingGives(H, p, t);
    x := SafetyIsExact(H, p, t, allowed);
    forall w | w in allowed && Issuable(p, w)
      ensures RangeCovered(p, FetchAsk(p, w)) <==>
              FetchAsk(p, w).offset == p.chunks[FirstChunk(p, w.hash, 0).value].offset
    {
      AlignedCoversOwnOffset(p, w);
    }
  }
}
