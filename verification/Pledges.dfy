/**
 * When a request is served, and what keeps a fetch alive: each byte asked for is right at the asking peer, or
 * on its way to it, or still to be sent, or the request itself is still to be read.
 */
module Pledges {
  import opened Bytes
  import opened Digests
  import opened HeapTree
  import opened Merkle
  import opened Queries
  import opened Lookup
  import opened Verification
  import opened Packets
  import opened Splitting
  import opened Protocol
  import opened Requests
  import opened Safety

  ghost predicate IsRequest(p: Package, packet: Packet, a: Ask) {
    packet.code == PKT_MSG_REQ && |packet.payload| == PAYLOAD_MAX &&
    AskOf(packet.payload) == a && SameIdent(p.ident, ReqIdent(packet.payload), 20)
  }

  ghost predicate IsComing(p: Package, packet: Packet, x: nat) {
    packet.code == PKT_MSG_RES && packet.error == 0 && |packet.payload| == PAYLOAD_MAX &&
    Touches(packet, x) && SameIdent(p.ident, ResIdent(packet.payload), 20)
  }

  ghost predicate Requested(p: Package, q: seq<Packet>, a: Ask) {
    exists k :: 0 <= k < |q| && IsRequest(p, q[k], a)
  }

  ghost predicate Coming(p: Package, q: seq<Packet>, x: nat) {
    exists k :: 0 <= k < |q| && IsComing(p, q[k], x)
  }

  ghost predicate JobHolds(p: Package, j: Job, x: nat) {
    j.left > 0 && j.offset <= x < j.offset + j.left && SameIdent(p.ident, j.ident, 20)
  }

  ghost predicate Owed(p: Package, t: seq<byte>, s: State, l: Link, a: Ask, x: nat) {
    l in s.channels && l.Back() in s.channels && l.from < |s.peers| &&
    (Right(t, s.peers[l.from].file, x)
     || Requested(p, s.channels[l], a)
     || (l.Back() in s.jobs && JobHolds(p, s.jobs[l.Back()], x))
     || Coming(p, s.channels[l.Back()], x))
  }

  /** Every chunk below the k-th node is complete. */
  ghost predicate BelowComplete(p: Package, t: seq<byte>, file: Option<seq<byte>>, k: nat) {
    forall j :: 0 <= j < |p.chunks| && Above(p, k, j) ==> CompleteAt(p, t, file, j)
  }

  /**
   * A peer that serves this request with true bytes: it has the range, and all that is below the node checked.
   * If that node is internal it must be recomputed, so the file must reach to the end of the last chunk.
   */
  ghost predicate Holds(p: Package, t: seq<byte>, file: Option<seq<byte>>, a: Ask)
    requires p.FullTree()
  {
    var k := FindFrom(|p.hashes|, p.Expected(), a.hash, 0);
    a.len > 0 && k.Some? && RangeRight(t, file, a.offset, a.len) && BelowComplete(p, t, file, k.value) &&
    (k.value < |p.hashes| ==> CompleteAt(p, t, file, |p.chunks| - 1))
  }

  /** A request over l, to a peer that holds what it asks for, has every byte of the range still accounted for. */
  ghost predicate Pledged(p: Package, t: seq<byte>, s: State, l: Link, a: Ask)
    requires p.FullTree()
  {
    l in s.channels && l.Back() in s.channels && l.from < |s.peers| && l.to < |s.peers| &&
    s.peers[l.from].cache.Some? && s.peers[l.to].cache.Some? && Holds(p, t, s.peers[l.to].file, a) &&
    forall x: nat :: a.Has(x) ==> Owed(p, t, s, l, a, x)
  }

  // Queues.

  lemma QueueGrows(p: Package, q: seq<Packet>, packet: Packet, a: Ask, x: nat)
    ensures Requested(p, q, a) ==> Requested(p, q + [packet], a)
    ensures Coming(p, q, x) ==> Coming(p, q + [packet], x)
    ensures IsComing(p, packet, x) ==> Coming(p, q + [packet], x)
    ensures IsRequest(p, packet, a) ==> Requested(p, q + [packet], a)
  {
    hide IsRequest, IsComing;
    if k :| 0 <= k < |q| && IsRequest(p, q[k], a) {
      assert IsRequest(p, (q + [packet])[k], a);
    }
    if k :| 0 <= k < |q| && IsComing(p, q[k], x) {
      assert IsComing(p, (q + [packet])[k], x);
    }
    assert (q + [packet])[|q|] == packet;
  }

  lemma QueueShrinks(p: Package, q: seq<Packet>, a: Ask, x: nat)
    requires q != []
    ensures Requested(p, q, a) ==> Requested(p, q[1..], a) || IsRequest(p, q[0], a)
    ensures Coming(p, q, x) ==> Coming(p, q[1..], x) || IsComing(p, q[0], x)
  {
    hide IsRequest, IsComing;
    if k :| 0 < k < |q| && IsRequest(p, q[k], a) {
      assert q[1..][k - 1] == q[k];
    }
    if k :| 0 < k < |q| && IsComing(p, q[k], x) {
      assert q[1..][k - 1] == q[k];
    }
  }

  // What is owed stays accounted for under each change of the state.

  lemma OwedAfterSend(p: Package, t: seq<byte>, s: State, l: Link, a: Ask, x: nat, m: Link, packet: Packet)
    requires m in s.channels && Owed(p, t, s, l, a, x)
    ensures Owed(p, t, Sent(s, m, packet), l, a, x)
  {
    hide Requested, Coming, JobHolds, Right;
    QueueGrows(p, s.channels[m], packet, a, x);
  }

  lemma OwedAfterPeer(p: Package, t: seq<byte>, s: State, l: Link, a: Ask, x: nat, n: nat, me: Peer)
    requires n < |s.peers| && NothingLost(t, s.peers[n].file, me.file) && Owed(p, t, s, l, a, x)
    ensures Owed(p, t, s.(peers := s.peers[n := me]), l, a, x)
  {
    hide Requested, Coming, JobHolds, Right;
  }

  lemma OwedAfterPop(p: Package, t: seq<byte>, s: State, l: Link, a: Ask, x: nat, m: Link)
    requires m in s.channels && s.channels[m] != [] && Owed(p, t, s, l, a, x)
    ensures Owed(p, t, Popped(s, m), l, a, x)
            || (m == l && IsRequest(p, s.channels[m][0], a))
            || (m == l.Back() && IsComing(p, s.channels[m][0], x))
  {
    hide Requested, Coming, JobHolds, Right, IsRequest, IsComing;
    QueueShrinks(p, s.channels[m], a, x);
  }

  lemma OwedAfterTake(p: Package, t: seq<byte>, s: State, l: Link, a: Ask, x: nat, m: Link, me: Peer)
    requires m in s.channels && s.channels[m] != [] && m.to < |s.peers| && Owed(p, t, s, l, a, x)
    requires NothingLost(t, s.peers[m.to].file, me.file)
    ensures Owed(p, t, Taken(s, m, me), l, a, x)
            || (m == l && IsRequest(p, s.channels[m][0], a))
            || (m == l.Back() && IsComing(p, s.channels[m][0], x))
  {
    hide Owed, NothingLost, IsRequest, IsComing;
    OwedAfterPop(p, t, s, l, a, x, m);
    if Owed(p, t, Popped(s, m), l, a, x) {
      OwedAfterPeer(p, t, Popped(s, m), l, a, x, m.to, me);
    }
  }

  lemma OwedAfterJob(p: Package, t: seq<byte>, s: State, l: Link, a: Ask, x: nat, m: Link, j: Job)
    requires m !in s.jobs && Owed(p, t, s, l, a, x)
    ensures Owed(p, t, s.(jobs := s.jobs[m := j]), l, a, x)
  {
    hide Requested, Coming, JobHolds, Right;
  }

  lemma OwedAfterEnd(p: Package, t: seq<byte>, s: State, l: Link, a: Ask, x: nat, m: Link)
    requires m in s.jobs && s.jobs[m].left <= 0 && Owed(p, t, s, l, a, x)
    ensures Owed(p, t, s.(jobs := s.jobs - {m}), l, a, x)
  {
    hide Requested, Coming, Right, SameIdent;
  }

  /** A byte a job holds is in the piece it sends next or in the rest of the job. */
  lemma PieceOrRest(p: Package, f: seq<byte>, j: Job, x: nat)
    requires JobHolds(p, j, x) && Sendable(j.offset, j.hash, j.ident)
    ensures IsComing(p, Piece(f, j.offset, j.left, j.hash, j.ident), x) || JobHolds(p, Advanced(j), x)
  {
    var d := ReadPadded(f, j.offset, PieceLen(j.left));
    ResRoundTrip(j.offset, d, j.hash, j.ident);
    hide EncodeRes, ResOffset, ResData, ResIdent, SameIdent;
  }

  lemma OwedAfterPiece(p: Package, t: seq<byte>, s: State, l: Link, a: Ask, x: nat, m: Link, f: seq<byte>)
    requires m in s.channels && m in s.jobs && s.jobs[m].left > 0
    requires Sendable(s.jobs[m].offset, s.jobs[m].hash, s.jobs[m].ident)
    requires Owed(p, t, s, l, a, x)
    ensures var j := s.jobs[m];
            Owed(p, t, Sent(s, m, Piece(f, j.offset, j.left, j.hash, j.ident)).(jobs := s.jobs[m := Advanced(j)]), l, a, x)
  {
    var j := s.jobs[m];
    hide Requested, Coming, JobHolds, Right, IsComing, IsRequest, Piece, Sendable;
    if JobHolds(p, j, x) {
      PieceOrRest(p, f, j, x);
    }
    QueueGrows(p, s.channels[m], Piece(f, j.offset, j.left, j.hash, j.ident), a, x);
  }

  // When a request is served.

  lemma {:induction false} EarlierEndsBefore(p: Package, j: nat, i: nat)
    requires p.Tiled() && j <= i < |p.chunks|
    ensures p.chunks[j].offset + p.chunks[j].size <= p.chunks[i].offset + p.chunks[i].size
    decreases i - j
  {
    if j < i {
      EarlierEndsBefore(p, j + 1, i);
    }
  }

  /** Where a chunk can be read, so can all before it, and the check gets that far. */
  lemma CheckReaches(p: Package, f: seq<byte>, i: nat)
    requires p.Tiled() && i < |p.chunks| && Readable(f, p.chunks[i])
    ensures i < FirstUnreadable(p, f, 0)
  {
    var m := FirstUnreadable(p, f, 0);
    if m <= i {
      EarlierEndsBefore(p, m, i);
    }
  }

  lemma CheckHashesLeaf(H: Digester, p: Package, f: seq<byte>, c: seq<Hash>, i: nat)
    requires p.FullTree() && |c| == 2 * |p.hashes| + 1 && i < FirstUnreadable(p, f, 0)
    ensures Readable(f, p.chunks[i])
    ensures AfterVerify(H, p, Some(f), c)[|p.hashes| + i] == H(ChunkData(f, p.chunks[i]))
  {
    if FirstUnreadable(p, f, 0) == |p.chunks| {
      LeafIsRecomputed(H, p, f, i);
    }
  }

  /** A complete chunk is found complete by a check, with no assumption on the hash. */
  lemma CompleteIsVerified(H: Digester, p: Package, t: seq<byte>, file: Option<seq<byte>>, c: seq<Hash>, i: nat)
    requires p.Tiled() && p.FullTree() && Original(H, p, t)
    requires |c| == 2 * |p.hashes| + 1 && i < |p.chunks| && CompleteAt(p, t, file, i)
    ensures file.Some? && Marked(p, AfterVerify(H, p, file, c), |p.hashes| + i)
  {
    hide AfterVerify, CompleteAt, Package.Tiled;
    CompleteHasFile(p, t, file, i);
    CheckReaches(p, file.value, i);
    CheckHashesLeaf(H, p, file.value, c, i);
    CompleteIsSameChunk(p, t, file.value, i);
    LeafExpects(p, i);
  }

  lemma FullWhenLastComplete(p: Package, t: seq<byte>, file: Option<seq<byte>>)
    requires p.Tiled() && |t| == p.size && CompleteAt(p, t, file, |p.chunks| - 1)
    ensures file.Some? && AllReadable(p, file.value)
  {
    var last := |p.chunks| - 1;
    CompleteHasFile(p, t, file, last);
    hide Package.Tiled;
    CheckReaches(p, file.value, last);
  }

  lemma CompleteLeafMatches(H: Digester, p: Package, t: seq<byte>, f: seq<byte>, i: nat)
    requires p.Tiled() && p.FullTree() && Original(H, p, t) && AllReadable(p, f)
    requires i < |p.chunks| && CompleteAt(p, t, Some(f), i)
    ensures LeafHashes(H, p, f)[i] == p.Expected()[|p.hashes| + i]
  {
    LeafExpects(p, i);
    hide CompleteAt, Package.Tiled, Package.Expected;
    CompleteIsSameChunk(p, t, f, i);
  }

  lemma BelowCompleteMatches(H: Digester, p: Package, t: seq<byte>, f: seq<byte>, k: nat)
    requires p.Tiled() && p.FullTree() && Original(H, p, t) && AllReadable(p, f)
    requires k <= 2 * |p.hashes| && BelowComplete(p, t, Some(f), k)
    ensures LeavesMatch(|p.hashes|, p.Expected(), LeafHashes(H, p, f), k)
  {
    var nh := |p.hashes|;
    hide Package.Tiled, Original, Package.Expected, LeafHashes, CompleteAt;
    forall x: nat | nh <= x <= 2 * nh && Under(k, x) ensures LeafHashes(H, p, f)[x - nh] == p.Expected()[x] {
      assert Above(p, k, x - nh);
      CompleteLeafMatches(H, p, t, f, x - nh);
    }
  }

  /** A node of a file that is read in full is marked when the chunks below it are complete, for any hash. */
  lemma NodeIsVerified(H: Digester, p: Package, t: seq<byte>, f: seq<byte>, c: seq<Hash>, k: nat)
    requires p.Sealed(H) && p.Tiled() && p.FullTree() && Original(H, p, t) && AllReadable(p, f)
    requires |c| == 2 * |p.hashes| + 1 && k <= 2 * |p.hashes| && BelowComplete(p, t, Some(f), k)
    ensures Marked(p, AfterVerify(H, p, Some(f), c), k)
  {
    hide SealedTree, Package.Tiled, Original, AfterVerify, Package.Expected, LeafHashes, BelowComplete, AllReadable, LeavesMatch,
         Recomputed;
    FullCheck(H, p, f, c);
    BelowCompleteMatches(H, p, t, f, k);
    LeavesForceNode(H, |p.hashes|, p.Expected(), LeafHashes(H, p, f), k);
  }

  lemma LeafIsVerified(H: Digester, p: Package, t: seq<byte>, file: Option<seq<byte>>, c: seq<Hash>, k: nat)
    requires p.Tiled() && p.FullTree() && Original(H, p, t)
    requires |c| == 2 * |p.hashes| + 1 && |p.hashes| <= k <= 2 * |p.hashes| && BelowComplete(p, t, file, k)
    ensures file.Some? && Marked(p, AfterVerify(H, p, file, c), k)
  {
    var i := k - |p.hashes|;
    assert Above(p, k, i);
    hide Package.Tiled, Original, AfterVerify, CompleteAt, Marked, Above;
    CompleteIsVerified(H, p, t, file, c, i);
  }

  /** What a peer holds passes its check, with no assumption on the hash. */
  lemma HeldIsVerified(H: Digester, p: Package, t: seq<byte>, file: Option<seq<byte>>, c: seq<Hash>, k: nat)
    requires p.Sealed(H) && p.Tiled() && p.FullTree() && Original(H, p, t)
    requires |c| == 2 * |p.hashes| + 1 && k <= 2 * |p.hashes| && BelowComplete(p, t, file, k)
    requires k < |p.hashes| ==> file.Some? && AllReadable(p, file.value)
    ensures file.Some? && Marked(p, AfterVerify(H, p, file, c), k)
  {
    hide SealedTree, Package.Tiled, Original, AfterVerify, BelowComplete, Marked, AllReadable;
    if k < |p.hashes| {
      NodeIsVerified(H, p, t, file.value, c, k);
    } else {
      LeafIsVerified(H, p, t, file, c, k);
    }
  }

  lemma SettingGives(H: Digester, p: Package, t: seq<byte>)
    requires Setting(H, p, t)
    ensures p.WellFormed(H) && Original(H, p, t) && p.Sealed(H) && p.Tiled() && p.FullTree()
    ensures p.size < 0x8000_0000 && |t| == p.size
  {
    hide SealedTree, Package.Tiled;
  }

  lemma HoldsGives(p: Package, t: seq<byte>, file: Option<seq<byte>>, a: Ask)
    requires p.FullTree() && Holds(p, t, file, a)
    ensures FindFrom(|p.hashes|, p.Expected(), a.hash, 0).Some? && a.len > 0 && RangeRight(t, file, a.offset, a.len)
    ensures var k := FindFrom(|p.hashes|, p.Expected(), a.hash, 0).value;
            k <= 2 * |p.hashes| && k < |p.Expected()| && BelowComplete(p, t, file, k)
            && (k < |p.hashes| ==> CompleteAt(p, t, file, |p.chunks| - 1))
  {
    hide RangeRight, BelowComplete, CompleteAt;
  }

  /** A peer serves every request for what it holds, with no assumption on the hash. */
  lemma HeldIsServed(H: Digester, p: Package, t: seq<byte>, me: Peer, packet: Packet, a: Ask)
    requires Setting(H, p, t) && p.FullTree() && CacheFits(p, me) && me.cache.Some?
    requires Holds(p, t, me.file, a) && IsRequest(p, packet, a)
    ensures AnswerReq(H, p, me, packet.payload) == Serve(Job(a.offset, a.len, a.hash, ReqIdent(packet.payload)))
  {
    hide *;
    SettingGives(H, p, t);
    RequestParts(p, me, packet, a);
    HoldsGives(p, t, me.file, a);
    ExpectedLength(p);
    var k := FindFrom(|p.hashes|, p.Expected(), a.hash, 0).value;
    CheckedCache(H, p, me);
    if k < |p.hashes| {
      FullWhenLastComplete(p, t, me.file);
    }
    HeldIsVerified(H, p, t, me.file, me.cache.value, k);
    RightRangeFits(t, me.file, a);
    AnswerOnceFound(H, p, me, packet.payload, k);
  }

  lemma RequestParts(p: Package, me: Peer, packet: Packet, a: Ask)
    requires IsRequest(p, packet, a) && me.cache.Some?
    ensures packet.code == PKT_MSG_REQ && |packet.payload| == PAYLOAD_MAX && Manages(p, me, ReqIdent(packet.payload))
    ensures AskOf(packet.payload) == a
    ensures a.hash == ReqHash(packet.payload) && a.offset == ReqOffset(packet.payload)
    ensures a.len == ReqLen(packet.payload)
  {
    hide SameIdent;
  }

  /**
   * When a request is served: only if every chunk below the node found is complete, and exactly then if that
   * node is a leaf or the file is long enough to be checked in full. Otherwise it is refused, even if the
   * peer has the chunk asked for.
   */
  lemma ServedIffBelowComplete(H: Digester, p: Package, t: seq<byte>, me: Peer, packet: Packet, a: Ask)
    requires Setting(H, p, t) && p.FullTree() && Genuine(H, p, t, me.file)
    requires CacheFits(p, me) && me.cache.Some? && HonestCache(p, t, me)
    requires IsRequest(p, packet, a) && GoodAsk(p, t, me.file, a)
    ensures |packet.payload| == PAYLOAD_MAX && FindFrom(|p.hashes|, p.Expected(), a.hash, 0).Some?
    ensures var k, answer := FindFrom(|p.hashes|, p.Expected(), a.hash, 0).value, AnswerReq(H, p, me, packet.payload);
            (answer.Serve? ==> BelowComplete(p, t, me.file, k)) &&
            (!BelowComplete(p, t, me.file, k) ==> answer == Refuse) &&
            (k >= |p.hashes| || (me.file.Some? && AllReadable(p, me.file.value)) ==>
               (answer.Serve? <==> BelowComplete(p, t, me.file, k)))
  {
    hide *;
    SettingGives(H, p, t);
    RequestParts(p, me, packet, a);
    GoodAskGives(p, t, me.file, a);
    FoundNode(p, a.hash);
    ExpectedLength(p);
    var k := FindFrom(|p.hashes|, p.Expected(), a.hash, 0).value;
    AnswerOnceFound(H, p, me, packet.payload, k);
    GateIsSound(H, p, t, me, packet.payload);
    if Marked(p, Checked(H, p, me).cache.value, k) {
      MarkedIsBelowComplete(H, p, t, me, k);
    }
    if BelowComplete(p, t, me.file, k) && (k >= |p.hashes| || (me.file.Some? && AllReadable(p, me.file.value))) {
      CheckedCache(H, p, me);
      HeldIsVerified(H, p, t, me.file, me.cache.value, k);
    }
  }

  lemma ExpectedLength(p: Package)
    requires p.FullTree()
    ensures |p.Expected()| == 2 * |p.hashes| + 1
  {
  }

  lemma MarkedIsBelowComplete(H: Digester, p: Package, t: seq<byte>, peer: Peer, k: nat)
    requires Setting(H, p, t) && p.FullTree() && Genuine(H, p, t, peer.file)
    requires CacheFits(p, peer) && HonestCache(p, t, peer)
    requires peer.cache.Some? && Marked(p, Checked(H, p, peer).cache.value, k)
    ensures BelowComplete(p, t, peer.file, k)
  {
    hide Setting, Package.FullTree, Genuine, CacheFits, HonestCache, Marked, Checked, CompleteAt, Above;
    forall j | 0 <= j < |p.chunks| && Above(p, k, j) ensures CompleteAt(p, t, peer.file, j) {
      VerifiedNodeVouches(H, p, t, peer, k, j);
    }
  }

  lemma CheckedCache(H: Digester, p: Package, me: Peer)
    requires p.FullTree() && CacheFits(p, me) && me.cache.Some?
    ensures |me.cache.value| == 2 * |p.hashes| + 1
    ensures Checked(H, p, me) == me.(cache := Some(AfterVerify(H, p, me.file, me.cache.value)))
  {
    hide AfterVerify;
  }

  /** The job a request sets going holds every byte asked for. */
  lemma NewJobHoldsRange(p: Package, packet: Packet, a: Ask, j: Job, x: nat)
    requires IsRequest(p, packet, a) && a.Has(x)
    requires j == Job(a.offset, a.len, a.hash, ReqIdent(packet.payload))
    ensures JobHolds(p, j, x)
  {
    hide SameIdent;
  }

  /** A RES that arrives makes every byte it touches right. */
  lemma ArrivalIsRight(p: Package, t: seq<byte>, me: Peer, packet: Packet, x: nat)
    requires p.FullTree() && GoodPacket(p, t, me.file, packet) && IsComing(p, packet, x) && me.cache.Some?
    ensures Right(t, AfterRes(p, me, packet).file, x)
  {
    hide SameIdent, ResOffset, ResData, ResIdent;
  }

  // Every step keeps every owed byte accounted for.

  lemma OwedOnServing(p: Package, t: seq<byte>, s: State, l: Link, a: Ask, x: nat, j: Job)
    requires l in s.channels && l.Back() in s.channels && l.from < |s.peers| && JobHolds(p, j, x)
    ensures Owed(p, t, s.(jobs := s.jobs[l.Back() := j]), l, a, x)
  {
    hide JobHolds, Requested, Coming, Right;
  }

  lemma OwedAfterRequest(H: Digester, p: Package, t: seq<byte>, s: State, s': State, l: Link, a: Ask, x: nat, m: Link)
    requires Setting(H, p, t) && p.FullTree() && Inv(p, t, s) && Wired(p, s)
    requires DeliverStep(H, p, s, m, s')
    requires s.channels[m][0].code == PKT_MSG_REQ
    requires Pledged(p, t, s, l, a) && a.Has(x)
    ensures Owed(p, t, s', l, a, x)
  {
    DeliveryCases(H, p, s, m, s');
    PledgeGives(p, t, s, l, a, x);
    InvGives(p, t, s, m);
    hide *;
    var packet, me := s.channels[m][0], s.peers[m.to];
    var me' := AfterReq(H, p, me, packet.payload);
    var after := Taken(s, m, me');
    NothingChanges(t, me.file);
    OwedAfterTake(p, t, s, l, a, x, m, me');
    TakenLinks(s, m, me');
    if m == l && IsRequest(p, packet, a) {
      HeldIsServed(H, p, t, me, packet, a);
      var j := AnswerReq(H, p, me, packet.payload).job;
      NewJobHoldsRange(p, packet, a, j, x);
      OwedOnServing(p, t, after, l, a, x, j);
    } else {
      NotComing(p, packet, x);
      if AnswerReq(H, p, me, packet.payload).Refuse? {
        OwedAfterSend(p, t, after, l, a, x, m.Back(), ErrorRes());
      } else {
        OwedAfterJob(p, t, after, l, a, x, m.Back(), AnswerReq(H, p, me, packet.payload).job);
      }
    }
  }

  lemma TakenLinks(s: State, m: Link, me: Peer)
    requires m in s.channels && s.channels[m] != [] && m.to < |s.peers|
    ensures Taken(s, m, me).channels.Keys == s.channels.Keys
    ensures Taken(s, m, me).jobs == s.jobs && |Taken(s, m, me).peers| == |s.peers|
  {
  }

  lemma NotComing(p: Package, packet: Packet, x: nat)
    requires packet.code != PKT_MSG_RES
    ensures !IsComing(p, packet, x)
  {
  }

  lemma NotRequest(p: Package, packet: Packet, a: Ask)
    requires packet.code != PKT_MSG_REQ
    ensures !IsRequest(p, packet, a)
  {
  }

  lemma PledgeGives(p: Package, t: seq<byte>, s: State, l: Link, a: Ask, x: nat)
    requires p.FullTree() && Pledged(p, t, s, l, a) && a.Has(x)
    ensures Owed(p, t, s, l, a, x) && l in s.channels && l.Back() in s.channels && l.from < |s.peers|
    ensures l.to < |s.peers|
    ensures s.peers[l.to].cache.Some? && s.peers[l.from].cache.Some? && Holds(p, t, s.peers[l.to].file, a)
    ensures l.Back().to == l.from && l.Back().from == l.to && l.Back().Back() == l
  {
    hide Owed, Holds;
  }

  lemma OwedAfterResponse(H: Digester, p: Package, t: seq<byte>, s: State, s': State, l: Link, a: Ask, x: nat, m: Link)
    requires p.FullTree() && Inv(p, t, s) && Wired(p, s) && DeliverStep(H, p, s, m, s')
    requires s.channels[m][0].code == PKT_MSG_RES
    requires Pledged(p, t, s, l, a) && a.Has(x)
    ensures Owed(p, t, s', l, a, x)
  {
    DeliveryCases(H, p, s, m, s');
    PledgeGives(p, t, s, l, a, x);
    PopKeeps(p, t, s, m);
    hide *;
    var packet, me := s.channels[m][0], s.peers[m.to];
    var me' := AfterRes(p, me, packet);
    ResLosesNothing(p, t, me, packet);
    OwedAfterTake(p, t, s, l, a, x, m, me');
    NotRequest(p, packet, a);
    if m == l.Back() && IsComing(p, packet, x) {
      ArrivalIsRight(p, t, me, packet, x);
      RightIsOwed(p, t, s, m, me', l, a, x);
    }
  }

  lemma RightIsOwed(p: Package, t: seq<byte>, s: State, m: Link, me: Peer, l: Link, a: Ask, x: nat)
    requires m in s.channels && s.channels[m] != [] && m.to < |s.peers|
    requires m.to == l.from && l in s.channels && l.Back() in s.channels && Right(t, me.file, x)
    ensures Owed(p, t, Taken(s, m, me), l, a, x)
  {
    hide Requested, Coming, JobHolds, Right;
  }

  lemma OwedAfterOther(H: Digester, p: Package, t: seq<byte>, s: State, s': State, l: Link, a: Ask, x: nat, m: Link)
    requires p.FullTree() && Inv(p, t, s) && Wired(p, s) && DeliverStep(H, p, s, m, s')
    requires s.channels[m][0].code != PKT_MSG_REQ && s.channels[m][0].code != PKT_MSG_RES
    requires Pledged(p, t, s, l, a) && a.Has(x)
    ensures Owed(p, t, s', l, a, x)
  {
    DeliveryCases(H, p, s, m, s');
    PledgeGives(p, t, s, l, a, x);
    hide *;
    var packet, me := s.channels[m][0], s.peers[m.to];
    NothingChanges(t, me.file);
    OwedAfterTake(p, t, s, l, a, x, m, me);
    NotRequest(p, packet, a);
    NotComing(p, packet, x);
    if packet.code == PKT_MSG_PNG {
      TakenLinks(s, m, me);
      OwedAfterSend(p, t, Taken(s, m, me), l, a, x, m.Back(), Plain(PKT_MSG_POG));
    }
  }

  lemma OwedAfterEmit(p: Package, t: seq<byte>, s: State, s': State, l: Link, a: Ask, x: nat, m: Link)
    requires p.FullTree() && Inv(p, t, s) && Wired(p, s) && EmitStep(p, s, m, s')
    requires Owed(p, t, s, l, a, x)
    ensures Owed(p, t, s', l, a, x)
  {
    EmissionCases(p, s, m, s');
    hide *;
    if s.jobs[m].left > 0 {
      OwedAfterPiece(p, t, s, l, a, x, m, s.peers[m.from].file.value);
    } else {
      OwedAfterEnd(p, t, s, l, a, x, m);
    }
  }

  lemma OwedAfterStep(H: Digester, p: Package, t: seq<byte>, s: State, ev: Event, s': State, l: Link, a: Ask, x: nat)
    requires Setting(H, p, t) && p.FullTree() && Inv(p, t, s) && Wired(p, s)
    requires Step(H, p, s, ev, s')
    requires Pledged(p, t, s, l, a) && a.Has(x)
    ensures Owed(p, t, s', l, a, x)
  {
    hide *;
    PledgeGives(p, t, s, l, a, x);
    StepCases(H, p, s, ev, s');
    match ev
    case Fetch(m, ident, w) =>
      var packet := FetchSends(p, s, m, ident, w, s');
      OwedAfterSend(p, t, s, l, a, x, m, packet);
    case Deliver(m) =>
      OwedAfterDelivery(H, p, t, s, s', l, a, x, m);
    case Emit(m) =>
      OwedAfterEmit(p, t, s, s', l, a, x, m);
    case Ping(m) =>
      OwedAfterSend(p, t, s, l, a, x, m, Plain(PKT_MSG_PNG));
    case Check(n) =>
      NothingChanges(t, s.peers[n].file);
      OwedAfterPeer(p, t, s, l, a, x, n, Checked(H, p, s.peers[n]));
    case AddPackage(n, c) =>
      NothingChanges(t, s.peers[n].file);
      OwedAfterPeer(p, t, s, l, a, x, n, s.peers[n].(cache := Some(c)));
  }

  lemma FetchSends(p: Package, s: State, m: Link, ident: seq<byte>, w: Want, s': State) returns (packet: Packet)
    requires FetchStep(p, s, m, ident, w, s')
    ensures m in s.channels && s' == Sent(s, m, packet)
  {
    packet := Request(ident, FetchAsk(p, w));
  }

  lemma OwedAfterDelivery(H: Digester, p: Package, t: seq<byte>, s: State, s': State, l: Link, a: Ask, x: nat, m: Link)
    requires Setting(H, p, t) && p.FullTree() && Inv(p, t, s) && Wired(p, s)
    requires DeliverStep(H, p, s, m, s')
    requires Pledged(p, t, s, l, a) && a.Has(x)
    ensures Owed(p, t, s', l, a, x)
  {
    hide *;
    DeliveryCases(H, p, s, m, s');
    if s.channels[m][0].code == PKT_MSG_REQ {
      OwedAfterRequest(H, p, t, s, s', l, a, x, m);
    } else if s.channels[m][0].code == PKT_MSG_RES {
      OwedAfterResponse(H, p, t, s, s', l, a, x, m);
    } else {
      OwedAfterOther(H, p, t, s, s', l, a, x, m);
    }
  }

  // What no step takes away.

  /** Connections stay, and a package once managed stays managed. */
  ghost predicate ShapeKept(s: State, s': State) {
    s'.channels.Keys == s.channels.Keys && |s'.peers| == |s.peers| &&
    forall n :: 0 <= n < |s.peers| && s.peers[n].cache.Some? ==> s'.peers[n].cache.Some?
  }

  lemma TakenShape(s: State, m: Link, me: Peer)
    requires m in s.channels && s.channels[m] != [] && m.to < |s.peers|
    requires s.peers[m.to].cache.Some? ==> me.cache.Some?
    ensures ShapeKept(s, Taken(s, m, me))
  {
  }

  lemma SentShape(s: State, s1: State, m: Link, packet: Packet)
    requires ShapeKept(s, s1) && m in s1.channels
    ensures ShapeKept(s, Sent(s1, m, packet))
  {
  }

  lemma DeliverKeepsShape(H: Digester, p: Package, s: State, m: Link, s': State)
    requires p.FullTree() && Wired(p, s) && DeliverStep(H, p, s, m, s')
    ensures ShapeKept(s, s')
  {
    DeliveryCases(H, p, s, m, s');
    var packet, me := s.channels[m][0], s.peers[m.to];
    assert CacheFits(p, me);
    var pl := packet.payload;
    hide DeliverStep, Wired, AnswerReq, CacheFits, Checked, Manages, FileCheck, Receive, Taken, Sent, ShapeKept;
    if packet.code == PKT_MSG_REQ {
      var after := Taken(s, m, AfterReq(H, p, me, pl));
      TakenShape(s, m, AfterReq(H, p, me, pl));
      TakenLinks(s, m, AfterReq(H, p, me, pl));
      if AnswerReq(H, p, me, pl).Refuse? {
        SentShape(s, after, m.Back(), ErrorRes());
      } else {
        JobShape(s, after, after.jobs[m.Back() := AnswerReq(H, p, me, pl).job]);
      }
    } else if packet.code == PKT_MSG_RES {
      TakenShape(s, m, AfterRes(p, me, packet));
    } else {
      TakenShape(s, m, me);
      TakenLinks(s, m, me);
      if packet.code == PKT_MSG_PNG {
        SentShape(s, Taken(s, m, me), m.Back(), Plain(PKT_MSG_POG));
      }
    }
  }

  lemma JobShape(s: State, s1: State, jobs: map<Link, Job>)
    requires ShapeKept(s, s1)
    ensures ShapeKept(s, s1.(jobs := jobs))
  {
  }

  lemma SameShape(s: State)
    ensures ShapeKept(s, s)
  {
  }

  lemma EmitKeepsShape(p: Package, s: State, m: Link, s': State)
    requires Wired(p, s) && EmitStep(p, s, m, s')
    ensures ShapeKept(s, s')
  {
    EmissionCases(p, s, m, s');
    SameShape(s);
    hide EmitStep, Wired, ShapeKept, Sent, Piece;
    if s.jobs[m].left > 0 {
      var j := s.jobs[m];
      var packet := Piece(s.peers[m.from].file.value, j.offset, j.left, j.hash, j.ident);
      SentShape(s, s, m, packet);
      JobShape(s, Sent(s, m, packet), s.jobs[m := Advanced(j)]);
    } else {
      JobShape(s, s, s.jobs - {m});
    }
  }

  lemma PeerShape(s: State, n: nat, me: Peer)
    requires n < |s.peers| && (s.peers[n].cache.Some? ==> me.cache.Some?)
    ensures ShapeKept(s, s.(peers := s.peers[n := me]))
  {
  }

  lemma StepKeepsShape(H: Digester, p: Package, s: State, ev: Event, s': State)
    requires p.FullTree() && Wired(p, s) && Step(H, p, s, ev, s')
    ensures ShapeKept(s, s')
  {
    hide *;
    SameShape(s);
    StepCases(H, p, s, ev, s');
    match ev
    case Fetch(m, ident, w) =>
      var packet := FetchSends(p, s, m, ident, w, s');
      SentShape(s, s, m, packet);
    case Deliver(m) =>
      DeliverKeepsShape(H, p, s, m, s');
    case Emit(m) =>
      EmitKeepsShape(p, s, m, s');
    case Ping(m) =>
      SentShape(s, s, m, Plain(PKT_MSG_PNG));
    case Check(n) =>
      PeerShape(s, n, Checked(H, p, s.peers[n]));
    case AddPackage(n, c) =>
      PeerShape(s, n, s.peers[n].(cache := Some(c)));
  }

  lemma HoldsKept(p: Package, t: seq<byte>, file: Option<seq<byte>>, file': Option<seq<byte>>, a: Ask)
    requires p.FullTree() && Holds(p, t, file, a) && NothingLost(t, file, file')
    ensures Holds(p, t, file', a)
  {
    hide CompleteAt, NothingLost, RangeRight, Above, FindFrom;
    RangeKept(t, file, file', a.offset, a.len);
    forall j: nat | CompleteAt(p, t, file, j) ensures CompleteAt(p, t, file', j) {
      LostNothing(p, t, file, file', j);
    }
  }

  lemma PeerLosesNothing(t: seq<byte>, s: State, s': State, n: nat)
    requires FilesKept(t, s, s') && n < |s.peers|
    ensures n < |s'.peers| && NothingLost(t, s.peers[n].file, s'.peers[n].file)
  {
    hide NothingLost;
  }

  /** A pledge holds after every step until it is redeemed, and after. */
  lemma PledgedAfterStep(H: Digester, p: Package, t: seq<byte>, s: State, ev: Event, s': State, l: Link, a: Ask)
    requires Setting(H, p, t) && p.FullTree() && GenuineState(H, p, t, s) && SoundEvent(p, t, s, ev)
    requires Inv(p, t, s) && Wired(p, s) && Step(H, p, s, ev, s')
    requires Pledged(p, t, s, l, a)
    ensures Pledged(p, t, s', l, a)
  {
    StepKeepsShape(H, p, s, ev, s');
    hide Owed, Setting, GenuineState, SoundEvent, Step, Inv, Wired, NothingLost, Holds, FilesKept, Ask.Has;
    StepIsSafe(H, p, t, s, ev, s');
    PeerLosesNothing(t, s, s', l.to);
    HoldsKept(p, t, s.peers[l.to].file, s'.peers[l.to].file, a);
    forall x: nat | a.Has(x) ensures Owed(p, t, s', l, a, x) {
      OwedAfterStep(H, p, t, s, ev, s', l, a, x);
    }
  }

  // Identifiers survive the padding of the wire.

  lemma {:induction false} PaddedIdent(a: seq<byte>, b: seq<byte>, z: nat, n: nat)
    ensures SameIdent(a, b + Zeros(z), n) == SameIdent(a, b, n)
    decreases n
  {
    if n > 0 && ByteAt(a, 0) != 0 {
      assert ByteAt(b + Zeros(z), 0) == ByteAt(b, 0);
      if b != [] {
        assert Rest(b + Zeros(z)) == Rest(b) + Zeros(z);
        PaddedIdent(Rest(a), Rest(b), z, n - 1);
      }
    }
  }

  lemma FetchedRequest(p: Package, ident: seq<byte>, a: Ask)
    requires ReqFields(ident, a.hash, a.len, a.offset) && SameIdent(p.ident, ident, 20)
    ensures IsRequest(p, Request(ident, a), a)
  {
    RequestDecodes(ident, a);
    PaddedIdent(p.ident, ident, IDENT_LEN - |ident|, 20);
    hide Request, AskOf, ReqIdent, SameIdent;
  }

  lemma RequestPledges(p: Package, t: seq<byte>, s: State, l: Link, a: Ask, packet: Packet)
    requires p.FullTree() && l in s.channels && l.Back() in s.channels && l.from < |s.peers| && l.to < |s.peers|
    requires s.peers[l.from].cache.Some? && s.peers[l.to].cache.Some? && Holds(p, t, s.peers[l.to].file, a)
    requires IsRequest(p, packet, a)
    ensures Pledged(p, t, Sent(s, l, packet), l, a)
  {
    hide IsRequest, Holds, Coming, JobHolds, Right, Requested, Ask.Has;
    QueueGrows(p, s.channels[l], packet, a, 0);
  }

  /** A FETCH sent to a peer that manages the package and holds what it asks for makes the pledge. */
  lemma FetchPledges(p: Package, t: seq<byte>, s: State, l: Link, ident: seq<byte>, w: Want, s': State)
    requires p.FullTree() && Wired(p, s) && FetchStep(p, s, l, ident, w, s')
    requires l.to < |s.peers| && s.peers[l.to].cache.Some? && Holds(p, t, s.peers[l.to].file, FetchAsk(p, w))
    ensures Pledged(p, t, s', l, FetchAsk(p, w))
  {
    assert l.Back() in s.channels;
    var a := FetchAsk(p, w);
    hide Holds, Wired, FirstChunk, Request, FetchAsk, Pledged, SameIdent;
    FetchedRequest(p, ident, a);
    RequestPledges(p, t, s, l, a, Request(ident, a));
  }

  /** Nothing on its way on a connection, in either direction. */
  predicate Quiet(s: State, l: Link) {
    l in s.channels && l.Back() in s.channels &&
    s.channels[l] == [] && s.channels[l.Back()] == [] && l.Back() !in s.jobs
  }

  /** When nothing is on its way any more, the asking peer has all it asked for right. */
  lemma QuietRedeems(p: Package, t: seq<byte>, s: State, l: Link, a: Ask)
    requires p.FullTree() && Pledged(p, t, s, l, a) && Quiet(s, l)
    ensures RangeRight(t, s.peers[l.from].file, a.offset, a.len)
  {
    HoldsGives(p, t, s.peers[l.to].file, a);
    hide Right, IsRequest, IsComing, JobHolds, Holds;
    forall x: nat | a.offset <= x < a.offset + a.len ensures Right(t, s.peers[l.from].file, x) {
      assert a.Has(x);
      assert Owed(p, t, s, l, a, x);
    }
    RangeRightFrom(t, s.peers[l.from].file, a.offset, a.len);
  }

  // Who holds a chunk.

  lemma CompleteIsRange(p: Package, t: seq<byte>, file: Option<seq<byte>>, i: nat)
    requires p.Tiled() && |t| == p.size && i < |p.chunks|
    ensures CompleteAt(p, t, file, i) <==> RangeRight(t, file, p.chunks[i].offset, p.chunks[i].size)
  {
    ChunkWithin(p, i);
    hide Right, Package.Tiled;
  }

  lemma OnlyLeafBelow(p: Package, t: seq<byte>, file: Option<seq<byte>>, i: nat)
    requires p.FullTree() && i < |p.chunks| && CompleteAt(p, t, file, i)
    ensures BelowComplete(p, t, file, |p.hashes| + i)
  {
    hide CompleteAt, Above;
    var k := |p.hashes| + i;
    forall j | 0 <= j < |p.chunks| && Above(p, k, j) ensures j == i {
      LeafAboveItself(p, k, j);
    }
  }

  /**
   * Where both searches mean the same chunk, a peer that has the first chunk with a hash holds what any FETCH by
   * that hash asks for if it has the range right: the chunk itself, or, with an offset, any other range as long.
   */
  lemma AlignedHolds(p: Package, t: seq<byte>, file: Option<seq<byte>>, i: nat, w: Want)
    requires p.FullTree() && p.Tiled() && Aligned(p)
    requires FirstChunk(p, w.hash, 0) == Some(i) && CompleteAt(p, t, file, i)
    requires RangeRight(t, file, FetchAsk(p, w).offset, FetchAsk(p, w).len)
    ensures Holds(p, t, file, FetchAsk(p, w))
  {
    hide *;
    FirstIsItsFirst(p, w.hash);
    AlignedTarget(p, i);
    OnlyLeafBelow(p, t, file, i);
    FetchAskLen(p, w, i);
    HoldsAtLeaf(p, t, file, FetchAsk(p, w), i);
  }

  lemma FetchAskLen(p: Package, w: Want, i: nat)
    requires p.Tiled() && FirstChunk(p, w.hash, 0) == Some(i)
    ensures i < |p.chunks| && FetchAsk(p, w).hash == w.hash && FetchAsk(p, w).len == p.chunks[i].size > 0
  {
    hide FirstChunk;
  }

  lemma HoldsAtLeaf(p: Package, t: seq<byte>, file: Option<seq<byte>>, a: Ask, i: nat)
    requires p.FullTree() && FindFrom(|p.hashes|, p.Expected(), a.hash, 0) == Some(|p.hashes| + i)
    requires a.len > 0 && RangeRight(t, file, a.offset, a.len) && BelowComplete(p, t, file, |p.hashes| + i)
    ensures Holds(p, t, file, a)
  {
    hide FindFrom, RangeRight, BelowComplete, CompleteAt, Package.Expected;
  }
}
