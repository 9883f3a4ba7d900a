/**
 * Safety of the transfer over every interleaving: what travels is true, and a chunk once complete at a
 * peer stays complete.
 */
module Safety {
  import opened Bytes
  import opened Digests
  import opened HeapTree
  import opened Merkle
  import opened Queries
  import opened Lookup
  import opened Verification
  import opened Packets
  import opened Splitting
  import opened Protocol
  import opened Requests

  /** The setting: a package made from the file t. */
  ghost predicate Setting(H: Digester, p: Package, t: seq<byte>) {
    p.WellFormed(H) && Original(H, p, t)
  }

  /** A file that holds, in place of the i-th chunk, other bytes with the same hash. */
  ghost predicate Forged(H: Digester, p: Package, t: seq<byte>, f: seq<byte>, i: nat) {
    i < |p.chunks| && Readable(f, p.chunks[i]) && Readable(t, p.chunks[i]) &&
    H(ChunkData(f, p.chunks[i])) == p.chunks[i].hash && ChunkData(f, p.chunks[i]) != ChunkData(t, p.chunks[i])
  }

  /**
   * A check of this file meets no collision: neither a chunk of it nor a pair of hashes recomputed from it
   * has the hash of other bytes that the package was made from.
   */
  ghost predicate Genuine(H: Digester, p: Package, t: seq<byte>, file: Option<seq<byte>>)
    requires p.FullTree()
  {
    file.Some? ==>
      (forall i :: !Forged(H, p, t, file.value, i)) &&
      (AllReadable(p, file.value) ==> NoPairCollision(H, |p.hashes|, p.Expected(), LeafHashes(H, p, file.value)))
  }

  /** A file that is not genuine shows two strings on which the hash collides. */
  lemma NotGenuineCollides(H: Digester, p: Package, t: seq<byte>, file: Option<seq<byte>>)
    returns (x: seq<byte>, y: seq<byte>)
    requires p.WellFormed(H) && Original(H, p, t) && p.FullTree() && !Genuine(H, p, t, file)
    ensures Collision(H, x, y)
  {
    var f := file.value;
    if i: nat :| Forged(H, p, t, f, i) {
      x, y := ChunkData(f, p.chunks[i]), ChunkData(t, p.chunks[i]);
    } else {
      var nh, e, leaf := |p.hashes|, p.Expected(), LeafHashes(H, p, f);
      var k :| 0 <= k < nh && PairCollides(H, nh, e, leaf, k);
      x := Recomputed(H, nh, leaf, 2 * k + 1) + Recomputed(H, nh, leaf, 2 * k + 2);
      y := e[2 * k + 1] + e[2 * k + 2];
    }
  }

  // Which bytes of a file are right.

  ghost predicate Right(t: seq<byte>, file: Option<seq<byte>>, x: nat) {
    file.Some? && x < |file.value| && x < |t| && file.value[x] == t[x]
  }

  ghost predicate CompleteAt(p: Package, t: seq<byte>, file: Option<seq<byte>>, i: nat) {
    i < |p.chunks| && forall x: nat :: InChunk(p.chunks[i], x) ==> Right(t, file, x)
  }

  /** The whole range is in the original, and every byte of it is right. */
  ghost predicate RangeRight(t: seq<byte>, file: Option<seq<byte>>, offset: nat, len: nat) {
    offset + len <= |t| && forall x: nat :: offset <= x < offset + len ==> Right(t, file, x)
  }

  /** No byte that was right becomes wrong. */
  ghost predicate NothingLost(t: seq<byte>, file: Option<seq<byte>>, file': Option<seq<byte>>) {
    forall x: nat :: Right(t, file, x) ==> Right(t, file', x)
  }

  lemma CompleteReadsSame(t: seq<byte>, f: seq<byte>, c: Chunk)
    requires c.size > 0 && Readable(t, c) && forall x: nat :: InChunk(c, x) ==> Right(t, Some(f), x)
    ensures SameChunk(f, t, c)
  {
    assert InChunk(c, c.offset + c.size - 1);
    forall k | 0 <= k < c.size ensures ChunkData(f, c)[k] == ChunkData(t, c)[k] {
      assert InChunk(c, c.offset + k);
    }
  }

  lemma SameReadsRight(t: seq<byte>, f: seq<byte>, c: Chunk, x: nat)
    requires SameChunk(f, t, c) && InChunk(c, x)
    ensures Right(t, Some(f), x)
  {
    assert ChunkData(f, c)[x - c.offset] == f[x];
    assert ChunkData(t, c)[x - c.offset] == t[x];
  }

  lemma CompleteIsSameChunk(p: Package, t: seq<byte>, f: seq<byte>, i: nat)
    requires p.Tiled() && |t| == p.size && i < |p.chunks|
    ensures CompleteAt(p, t, Some(f), i) <==> SameChunk(f, t, p.chunks[i])
  {
    var c := p.chunks[i];
    ChunkWithin(p, i);
    assert Readable(t, c) && c.size > 0;
    hide Right, SameChunk, InChunk, Package.Tiled;
    if CompleteAt(p, t, Some(f), i) {
      CompleteReadsSame(t, f, c);
    }
    if SameChunk(f, t, c) {
      forall x: nat | InChunk(c, x) ensures Right(t, Some(f), x) {
        SameReadsRight(t, f, c, x);
      }
    }
  }

  /** In a genuine file, the hash of a chunk's data is the expected one exactly when the chunk is complete. */
  lemma HashTellsComplete(H: Digester, p: Package, t: seq<byte>, f: seq<byte>, i: nat)
    requires p.Tiled() && Original(H, p, t) && i < |p.chunks| && Readable(f, p.chunks[i])
    requires !Forged(H, p, t, f, i)
    ensures H(ChunkData(f, p.chunks[i])) == p.chunks[i].hash <==> CompleteAt(p, t, Some(f), i)
  {
    hide CompleteAt;
    CompleteIsSameChunk(p, t, f, i);
  }

  // The invariant.

  /** The computed hash of the k-th node is the expected one. */
  predicate Marked(p: Package, c: seq<Hash>, k: nat) {
    k < |c| == |p.Expected()| && c[k] == p.Expected()[k]
  }

  /** A node is marked as verified only when every chunk below it is complete. */
  ghost predicate HonestCache(p: Package, t: seq<byte>, peer: Peer) {
    peer.cache.Some? ==>
      forall k: nat, i: nat :: Marked(p, peer.cache.value, k) && i < |p.chunks| && Above(p, k, i) ==>
        CompleteAt(p, t, peer.file, i)
  }

  /**
   * A request that can do no harm at the peer with this file: either what it asks for is below the node that
   * the peer checks, or the peer has all of it right.
   */
  ghost predicate SoundAsk(p: Package, t: seq<byte>, file: Option<seq<byte>>, a: Ask)
    requires p.FullTree()
  {
    RangeCovered(p, a) || RangeRight(t, file, a.offset, a.len)
  }

  /** A request on its way: for some bytes, by a hash that some node has. */
  ghost predicate GoodAsk(p: Package, t: seq<byte>, file: Option<seq<byte>>, a: Ask)
    requires p.FullTree()
  {
    a.len > 0 && FindFrom(|p.hashes|, p.Expected(), a.hash, 0).Some? && SoundAsk(p, t, file, a)
  }

  /** A RES carries the bytes of the original for the range it names. */
  ghost predicate TrueRes(t: seq<byte>, pl: seq<byte>)
    requires |pl| == PAYLOAD_MAX
  {
    ResOffset(pl) + |ResData(pl)| <= |t| && ResData(pl) == t[ResOffset(pl)..ResOffset(pl) + |ResData(pl)|]
  }

  /** A packet on its way to the peer with this file. */
  ghost predicate GoodPacket(p: Package, t: seq<byte>, file: Option<seq<byte>>, packet: Packet)
    requires p.FullTree()
  {
    |packet.payload| == PAYLOAD_MAX &&
    (packet.code == PKT_MSG_REQ ==> GoodAsk(p, t, file, AskOf(packet.payload))) &&
    (packet.code == PKT_MSG_RES && packet.error == 0 ==> TrueRes(t, packet.payload))
  }

  ghost predicate GoodChannel(p: Package, t: seq<byte>, file: Option<seq<byte>>, q: seq<Packet>)
    requires p.FullTree()
  {
    forall k :: 0 <= k < |q| ==> GoodPacket(p, t, file, q[k])
  }

  /** A send loop is at work on a range that its peer has right. */
  ghost predicate GoodJob(t: seq<byte>, file: Option<seq<byte>>, j: Job) {
    |j.hash| == HASH_LEN && |j.ident| == IDENT_LEN && (j.left > 0 ==> RangeRight(t, file, j.offset, j.left))
  }

  ghost predicate Inv(p: Package, t: seq<byte>, s: State)
    requires p.FullTree()
  {
    Wired(p, s) &&
    (forall i :: 0 <= i < |s.peers| ==> HonestCache(p, t, s.peers[i])) &&
    (forall l :: l in s.channels ==> GoodChannel(p, t, s.peers[l.to].file, s.channels[l])) &&
    (forall l :: l in s.jobs ==> GoodJob(t, s.peers[l.from].file, s.jobs[l]))
  }

  lemma UnverifiedMarksNothing(p: Package, c: seq<Hash>, k: nat)
    requires Unverified(p, c)
    ensures !Marked(p, c, k)
  {
  }

  lemma InitialIsSafe(p: Package, t: seq<byte>, s: State)
    requires p.FullTree() && Initial(p, s)
    ensures Inv(p, t, s)
  {
    hide Marked, Unverified;
    forall i, k: nat | 0 <= i < |s.peers| && s.peers[i].cache.Some? ensures !Marked(p, s.peers[i].cache.value, k) {
      UnverifiedMarksNothing(p, s.peers[i].cache.value, k);
    }
  }

  // What the pieces of a step keep.

  lemma LostNothing(p: Package, t: seq<byte>, file: Option<seq<byte>>, file': Option<seq<byte>>, i: nat)
    requires NothingLost(t, file, file') && CompleteAt(p, t, file, i)
    ensures CompleteAt(p, t, file', i)
  {
  }

  lemma LeafMarkIsHonest(H: Digester, p: Package, t: seq<byte>, file: Option<seq<byte>>, c: seq<Hash>, i: nat)
    requires p.Tiled() && p.FullTree() && Original(H, p, t) && Genuine(H, p, t, file)
    requires |c| == 2 * |p.hashes| + 1 && i < |p.chunks|
    requires c[|p.hashes| + i] == p.chunks[i].hash ==> CompleteAt(p, t, file, i)
    requires AfterVerify(H, p, file, c)[|p.hashes| + i] == p.chunks[i].hash
    ensures CompleteAt(p, t, file, i)
  {
    hide AfterVerify, Original, CompleteAt, Package.Tiled, Forged, FirstUnreadable;
    LeafAfterVerify(H, p, file, c, i);
    if file.Some? && i < FirstUnreadable(p, file.value, 0) {
      HashTellsComplete(H, p, t, file.value, i);
    }
  }

  lemma MatchingNodeGivesLeaf(H: Digester, nh: nat, e: seq<Hash>, leaf: seq<Hash>, k: nat, x: nat)
    requires SealedTree(H, nh, e) && |leaf| == nh + 1 && HashLengths(leaf) && NoPairCollision(H, nh, e, leaf)
    requires k <= 2 * nh && AllRecomputed(H, nh, leaf)[k] == e[k] && nh <= x <= 2 * nh && Under(k, x)
    ensures leaf[x - nh] == e[x]
  {
    hide SealedTree, NoPairCollision, Recomputed;
    NodeMatchesIffLeavesDo(H, nh, e, leaf, k);
  }

  lemma GenuineGives(H: Digester, p: Package, t: seq<byte>, f: seq<byte>, i: nat)
    requires p.FullTree() && Genuine(H, p, t, Some(f)) && AllReadable(p, f) && i < |p.chunks|
    ensures Readable(f, p.chunks[i]) && !Forged(H, p, t, f, i)
    ensures NoPairCollision(H, |p.hashes|, p.Expected(), LeafHashes(H, p, f)) && HashLengths(LeafHashes(H, p, f))
    ensures LeafHashes(H, p, f)[i] == H(ChunkData(f, p.chunks[i]))
  {
    hide NoPairCollision, Forged;
  }

  /** A node recomputed from a genuine file matches only when the chunks below it are complete. */
  lemma NodeMarkIsHonest(H: Digester, p: Package, t: seq<byte>, f: seq<byte>, k: nat, i: nat)
    requires p.WellFormed(H) && p.FullTree() && Original(H, p, t) && Genuine(H, p, t, Some(f)) && AllReadable(p, f)
    requires Marked(p, AllRecomputed(H, |p.hashes|, LeafHashes(H, p, f)), k) && i < |p.chunks| && Above(p, k, i)
    ensures CompleteAt(p, t, Some(f), i)
  {
    var nh, e, leaf := |p.hashes|, p.Expected(), LeafHashes(H, p, f);
    GenuineGives(H, p, t, f, i);
    LeafExpects(p, i);
    hide SealedTree, Genuine, NoPairCollision, HashLengths, CompleteAt, Original, AllRecomputed, LeafHashes, Package.Tiled,
         Forged, Package.Expected, AllReadable;
    MatchingNodeGivesLeaf(H, nh, e, leaf, k, nh + i);
    HashTellsComplete(H, p, t, f, i);
  }

  /** What a check leaves in a node: nothing new in an internal one if the file was too short. */
  lemma InternalAfterShortCheck(H: Digester, p: Package, file: Option<seq<byte>>, c: seq<Hash>, k: nat)
    requires p.FullTree() && |c| == 2 * |p.hashes| + 1 && k < |p.hashes|
    requires file.None? || !AllReadable(p, file.value)
    ensures AfterVerify(H, p, file, c)[k] == c[k]
  {
  }

  lemma FullCheck(H: Digester, p: Package, f: seq<byte>, c: seq<Hash>)
    requires p.FullTree() && |c| == 2 * |p.hashes| + 1 && AllReadable(p, f)
    ensures AfterVerify(H, p, Some(f), c) == AllRecomputed(H, |p.hashes|, LeafHashes(H, p, f))
  {
    hide AllRecomputed, LeafHashes;
  }

  lemma CheckedNodeIsHonest(H: Digester, p: Package, t: seq<byte>, file: Option<seq<byte>>, c: seq<Hash>, k: nat,
                            i: nat)
    requires p.WellFormed(H) && p.FullTree() && Original(H, p, t) && Genuine(H, p, t, file)
    requires |c| == 2 * |p.hashes| + 1 && i < |p.chunks| && Above(p, k, i)
    requires Marked(p, c, k) ==> CompleteAt(p, t, file, i)
    requires Marked(p, AfterVerify(H, p, file, c), k)
    ensures CompleteAt(p, t, file, i)
  {
    hide AfterVerify, SealedTree, Genuine, Original, CompleteAt, Package.Tiled, Above, AllRecomputed, LeafHashes,
         AllReadable;
    if file.Some? && AllReadable(p, file.value) {
      FullCheck(H, p, file.value, c);
      NodeMarkIsHonest(H, p, t, file.value, k, i);
    } else if k < |p.hashes| {
      InternalAfterShortCheck(H, p, file, c, k);
    } else {
      LeafAboveItself(p, k, i);
      LeafExpects(p, i);
      LeafMarkIsHonest(H, p, t, file, c, i);
    }
  }

  /** A check marks only what is complete: what it hashes it hashes now, and what it leaves was honest before. */
  lemma CheckIsHonest(H: Digester, p: Package, t: seq<byte>, peer: Peer)
    requires p.WellFormed(H) && Original(H, p, t) && Genuine(H, p, t, peer.file) && p.FullTree()
    requires CacheFits(p, peer) && HonestCache(p, t, peer)
    ensures HonestCache(p, t, Checked(H, p, peer))
  {
    hide AfterVerify, Package.WellFormed, Genuine, Original, CompleteAt, Marked, Above, Package.Expected;
    if peer.cache.Some? {
      var c := Checked(H, p, peer).cache.value;
      forall k: nat, i: nat | Marked(p, c, k) && i < |p.chunks| && Above(p, k, i) ensures CompleteAt(p, t, peer.file, i) {
        CheckedNodeIsHonest(H, p, t, peer.file, peer.cache.value, k, i);
      }
    }
  }

  /** A true RES makes no right byte wrong. */
  lemma ResLosesNothing(p: Package, t: seq<byte>, peer: Peer, packet: Packet)
    requires p.FullTree() && GoodPacket(p, t, peer.file, packet) && packet.code == PKT_MSG_RES
    ensures NothingLost(t, peer.file, AfterRes(p, peer, packet).file)
  {
    hide Manages, ResOffset, ResData;
  }

  lemma CompleteHasFile(p: Package, t: seq<byte>, file: Option<seq<byte>>, i: nat)
    requires p.Tiled() && |t| == p.size && CompleteAt(p, t, file, i)
    ensures file.Some? && Readable(file.value, p.chunks[i])
  {
    assert InChunk(p.chunks[i], p.chunks[i].offset);
    CompleteIsSameChunk(p, t, file.value, i);
  }

  lemma LeafExpects(p: Package, i: nat)
    requires p.FullTree() && i < |p.chunks|
    ensures p.Expected()[|p.hashes| + i] == p.chunks[i].hash
  {
  }

  lemma VerifiedNodeVouches(H: Digester, p: Package, t: seq<byte>, peer: Peer, k: nat, i: nat)
    requires Setting(H, p, t) && p.FullTree() && Genuine(H, p, t, peer.file)
    requires CacheFits(p, peer) && HonestCache(p, t, peer)
    requires i < |p.chunks| && Above(p, k, i)
    requires peer.cache.Some? && Marked(p, Checked(H, p, peer).cache.value, k)
    ensures CompleteAt(p, t, peer.file, i)
  {
    hide SealedTree, Original, Genuine, Checked, CompleteAt, Marked, Above, CacheFits;
    CheckIsHonest(H, p, t, peer);
  }

  /** If the node found is marked after the check, a covered range is right. */
  lemma MarkedRangeIsRight(H: Digester, p: Package, t: seq<byte>, peer: Peer, a: Ask)
    requires Setting(H, p, t) && p.FullTree() && Genuine(H, p, t, peer.file)
    requires CacheFits(p, peer) && HonestCache(p, t, peer) && RangeCovered(p, a)
    requires var k := FindFrom(|p.hashes|, p.Expected(), a.hash, 0);
             k.Some? && peer.cache.Some? && Marked(p, Checked(H, p, peer).cache.value, k.value)
    ensures RangeRight(t, peer.file, a.offset, a.len)
  {
    SettingSizes(H, p, t);
    CoveredInFile(p, a);
    hide *;
    var k := FindFrom(|p.hashes|, p.Expected(), a.hash, 0).value;
    forall x: nat | a.offset <= x < a.offset + a.len ensures Right(t, peer.file, x) {
      HasByRange(a, x);
      var j := CoveredByte(p, a, x);
      VerifiedNodeVouches(H, p, t, peer, k, j);
      CompleteGivesByte(p, t, peer.file, j, x);
    }
    RangeRightFrom(t, peer.file, a.offset, a.len);
  }

  lemma HasByRange(a: Ask, x: nat)
    requires a.offset <= x < a.offset + a.len
    ensures a.Has(x)
  {
  }

  lemma CoveredInFile(p: Package, a: Ask)
    requires p.FullTree() && RangeCovered(p, a)
    ensures a.offset + a.len <= p.size
  {
  }

  lemma CompleteGivesByte(p: Package, t: seq<byte>, file: Option<seq<byte>>, i: nat, x: nat)
    requires CompleteAt(p, t, file, i) && i < |p.chunks| && InChunk(p.chunks[i], x)
    ensures Right(t, file, x)
  {
  }

  lemma RangeRightFrom(t: seq<byte>, file: Option<seq<byte>>, offset: nat, len: nat)
    requires offset + len <= |t| && forall x: nat :: offset <= x < offset + len ==> Right(t, file, x)
    ensures RangeRight(t, file, offset, len)
  {
  }

  lemma SettingSizes(H: Digester, p: Package, t: seq<byte>)
    requires Setting(H, p, t)
    ensures p.FullTree() && p.Tiled() && p.size < 0x8000_0000 && |t| == p.size
  {
    hide SealedTree, Package.Tiled;
  }

  lemma AnswerOnceFound(H: Digester, p: Package, peer: Peer, pl: seq<byte>, k: nat)
    requires p.FullTree() && CacheFits(p, peer) && |pl| == PAYLOAD_MAX
    requires k < |p.Expected()| && FindFrom(|p.hashes|, p.Expected(), ReqHash(pl), 0) == Some(k)
    ensures !Manages(p, peer, ReqIdent(pl)) ==> AnswerReq(H, p, peer, pl) == Refuse
    ensures Manages(p, peer, ReqIdent(pl)) ==>
              peer.cache.Some? &&
              AnswerReq(H, p, peer, pl) ==
              if !Marked(p, Checked(H, p, peer).cache.value, k) then Refuse
              else if peer.file.None? || !IntRange(ReqOffset(pl), ReqLen(pl)) then Crash
              else Serve(Job(ReqOffset(pl), ToInt32(ReqLen(pl)), ReqHash(pl), ReqIdent(pl)))
  {
    hide FindFrom, Checked, Package.Expected, SameIdent, ReqIdent, ReqHash, ReqLen, ReqOffset;
  }

  /** A range that is right here is served as it is. */
  lemma RightRangeFits(t: seq<byte>, file: Option<seq<byte>>, a: Ask)
    requires |t| < 0x8000_0000 && RangeRight(t, file, a.offset, a.len) && a.len > 0
    ensures file.Some? && IntRange(a.offset, a.len) && ToInt32(a.len) == a.len
  {
    assert Right(t, file, a.offset);
  }

  lemma FoundNode(p: Package, h: Hash)
    requires p.FullTree() && FindFrom(|p.hashes|, p.Expected(), h, 0).Some?
    ensures FindFrom(|p.hashes|, p.Expected(), h, 0).value < |p.Expected()|
  {
    hide FindFrom;
  }

  /** The gate: what is served is a range that is right here, and no request meets a null pointer. */
  lemma GateIsSound(H: Digester, p: Package, t: seq<byte>, peer: Peer, pl: seq<byte>)
    requires Setting(H, p, t) && p.FullTree() && Genuine(H, p, t, peer.file)
    requires CacheFits(p, peer) && HonestCache(p, t, peer)
    requires |pl| == PAYLOAD_MAX && GoodAsk(p, t, peer.file, AskOf(pl))
    ensures !AnswerReq(H, p, peer, pl).Crash?
    ensures AnswerReq(H, p, peer, pl).Serve? ==>
              RangeRight(t, peer.file, ReqOffset(pl), ReqLen(pl)) &&
              AnswerReq(H, p, peer, pl).job == Job(ReqOffset(pl), ReqLen(pl), ReqHash(pl), ReqIdent(pl))
  {
    var a := AskOf(pl);
    SettingSizes(H, p, t);
    GoodAskGives(p, t, peer.file, a);
    AskFields(pl);
    hide *;
    FoundNode(p, a.hash);
    var k := FindFrom(|p.hashes|, p.Expected(), a.hash, 0).value;
    AnswerOnceFound(H, p, peer, pl, k);
    if Manages(p, peer, ReqIdent(pl)) && Marked(p, Checked(H, p, peer).cache.value, k) {
      if RangeCovered(p, a) {
        MarkedRangeIsRight(H, p, t, peer, a);
      }
      RightRangeFits(t, peer.file, a);
    }
  }

  lemma AskFields(pl: seq<byte>)
    requires |pl| == PAYLOAD_MAX
    ensures AskOf(pl).hash == ReqHash(pl) && AskOf(pl).offset == ReqOffset(pl) && AskOf(pl).len == ReqLen(pl)
  {
  }

  lemma GoodAskGives(p: Package, t: seq<byte>, file: Option<seq<byte>>, a: Ask)
    requires p.FullTree() && GoodAsk(p, t, file, a)
    ensures a.len > 0 && FindFrom(|p.hashes|, p.Expected(), a.hash, 0).Some?
    ensures RangeCovered(p, a) || RangeRight(t, file, a.offset, a.len)
  {
    hide RangeCovered, RangeRight;
  }

  // What each kind of change to the state keeps.

  lemma SendKeeps(p: Package, t: seq<byte>, s: State, l: Link, packet: Packet)
    requires p.FullTree() && Inv(p, t, s) && l in s.channels && l.to < |s.peers|
    requires GoodPacket(p, t, s.peers[l.to].file, packet)
    ensures Inv(p, t, Sent(s, l, packet))
  {
    hide GoodPacket, HonestCache, GoodJob, CacheFits;
    assert GoodChannel(p, t, s.peers[l.to].file, s.channels[l]);
  }

  lemma PopKeeps(p: Package, t: seq<byte>, s: State, l: Link)
    requires p.FullTree() && Inv(p, t, s) && l in s.channels && s.channels[l] != []
    ensures Inv(p, t, Popped(s, l))
    ensures l.to < |s.peers| && GoodPacket(p, t, s.peers[l.to].file, s.channels[l][0])
  {
    hide GoodPacket, HonestCache, GoodJob, CacheFits;
    assert GoodChannel(p, t, s.peers[l.to].file, s.channels[l]);
  }

  lemma RangeKept(t: seq<byte>, file: Option<seq<byte>>, file': Option<seq<byte>>, offset: nat, len: nat)
    requires NothingLost(t, file, file') && RangeRight(t, file, offset, len)
    ensures RangeRight(t, file', offset, len)
  {
    hide Right;
  }

  lemma JobKeepsWithFile(t: seq<byte>, file: Option<seq<byte>>, file': Option<seq<byte>>, j: Job)
    requires GoodJob(t, file, j) && NothingLost(t, file, file')
    ensures GoodJob(t, file', j)
  {
    hide RangeRight, NothingLost;
    if j.left > 0 {
      RangeKept(t, file, file', j.offset, j.left);
    }
  }

  lemma ChannelKeepsWithFile(p: Package, t: seq<byte>, file: Option<seq<byte>>, file': Option<seq<byte>>,
                             q: seq<Packet>)
    requires p.FullTree() && GoodChannel(p, t, file, q) && NothingLost(t, file, file')
    ensures GoodChannel(p, t, file', q)
  {
    hide RangeRight, RangeCovered, NothingLost, TrueRes, FindFrom;
    forall k | 0 <= k < |q| ensures GoodPacket(p, t, file', q[k]) {
      assert GoodPacket(p, t, file, q[k]);
      var packet := q[k];
      if packet.code == PKT_MSG_REQ {
        var a := AskOf(packet.payload);
        if RangeRight(t, file, a.offset, a.len) {
          RangeKept(t, file, file', a.offset, a.len);
        }
      }
    }
  }

  lemma PeerKeeps(p: Package, t: seq<byte>, s: State, i: nat, peer: Peer)
    requires p.FullTree() && Inv(p, t, s) && i < |s.peers|
    requires CacheFits(p, peer) && HonestCache(p, t, peer) && NothingLost(t, s.peers[i].file, peer.file)
    ensures Inv(p, t, s.(peers := s.peers[i := peer]))
  {
    hide GoodChannel, HonestCache, GoodJob, CacheFits, NothingLost;
    var s' := s.(peers := s.peers[i := peer]);
    forall l | l in s'.jobs ensures GoodJob(t, s'.peers[l.from].file, s'.jobs[l]) {
      if l.from == i {
        JobKeepsWithFile(t, s.peers[i].file, peer.file, s.jobs[l]);
      }
    }
    forall l | l in s'.channels ensures GoodChannel(p, t, s'.peers[l.to].file, s'.channels[l]) {
      if l.to == i {
        ChannelKeepsWithFile(p, t, s.peers[i].file, peer.file, s.channels[l]);
      }
    }
  }

  lemma JobKeeps(p: Package, t: seq<byte>, s: State, l: Link, j: Job)
    requires p.FullTree() && Inv(p, t, s) && l in s.channels && GoodJob(t, s.peers[l.from].file, j)
    ensures Inv(p, t, s.(jobs := s.jobs[l := j]))
  {
    hide GoodChannel, HonestCache, GoodJob, CacheFits;
  }

  // The steps.

  /** A FETCH asks for what is below the node its hash is looked up at, or asks a peer that has it. */
  ghost predicate SoundFetch(p: Package, t: seq<byte>, s: State, l: Link, w: Want)
    requires p.FullTree()
  {
    FirstChunk(p, w.hash, 0).Some? ==> l.to < |s.peers| && SoundAsk(p, t, s.peers[l.to].file, FetchAsk(p, w))
  }

  lemma FetchedHashIsFound(p: Package, h: Hash)
    requires p.FullTree() && FirstChunk(p, h, 0).Some?
    ensures FindFrom(|p.hashes|, p.Expected(), h, 0).Some?
  {
    var i := FirstChunk(p, h, 0).value;
    LeafExpects(p, i);
    FindIsComplete(|p.hashes|, p.Expected(), h);
    assert p.Expected()[|p.hashes| + i] in p.Expected();
  }

  lemma RequestDecodes(ident: seq<byte>, a: Ask)
    requires ReqFields(ident, a.hash, a.len, a.offset)
    ensures AskOf(Request(ident, a).payload) == a
    ensures ReqIdent(Request(ident, a).payload) == ident + Zeros(IDENT_LEN - |ident|)
  {
    ReqRoundTrip(ident, a.hash, a.len, a.offset);
    hide EncodeReq, ReqOffset, ReqLen, ReqHash, ReqIdent;
  }

  lemma FetchIsSafe(p: Package, t: seq<byte>, s: State, l: Link, ident: seq<byte>, w: Want, s': State)
    requires p.FullTree() && p.Tiled() && Inv(p, t, s) && FetchStep(p, s, l, ident, w, s') && SoundFetch(p, t, s, l, w)
    ensures Inv(p, t, s') && s'.peers == s.peers
  {
    var a := FetchAsk(p, w);
    SizePositive(p, FirstChunk(p, w.hash, 0).value);
    FetchedHashIsFound(p, w.hash);
    RequestDecodes(ident, a);
    hide Request, AskOf, Inv, SoundAsk, FindFrom, FirstChunk, Package.Tiled, Package.Expected;
    SendKeeps(p, t, s, l, Request(ident, a));
  }

  lemma PlainIsGood(p: Package, t: seq<byte>, code: nat)
    requires p.FullTree() && code != PKT_MSG_REQ && code != PKT_MSG_RES
    ensures forall file :: GoodPacket(p, t, file, Plain(code)) && GoodPacket(p, t, file, ErrorRes())
  {
  }

  ghost predicate FilesKept(t: seq<byte>, s: State, s': State) {
    |s'.peers| == |s.peers| &&
    forall i :: 0 <= i < |s.peers| ==> NothingLost(t, s.peers[i].file, s'.peers[i].file)
  }

  /** What a request does to the peer it reaches, and what it sets going there. */
  lemma AnswerIsSafe(H: Digester, p: Package, t: seq<byte>, me: Peer, packet: Packet)
    requires Setting(H, p, t) && p.FullTree() && Genuine(H, p, t, me.file) && CacheFits(p, me) && HonestCache(p, t, me)
    requires packet.code == PKT_MSG_REQ && GoodPacket(p, t, me.file, packet)
    ensures HonestCache(p, t, AfterReq(H, p, me, packet.payload))
    ensures !AnswerReq(H, p, me, packet.payload).Crash?
    ensures AnswerReq(H, p, me, packet.payload).Serve? ==> GoodJob(t, me.file, AnswerReq(H, p, me, packet.payload).job)
  {
    SettingSizes(H, p, t);
    hide Original, Package.WellFormed, HonestCache, AnswerReq, Checked, Manages, CacheFits, Genuine, GoodAsk,
         RangeRight, ReqHash, ReqIdent, ReqOffset, ReqLen;
    var pl := packet.payload;
    GateIsSound(H, p, t, me, pl);
    CheckIsHonest(H, p, t, me);
    RequestFieldSizes(pl);
  }

  lemma InvGives(p: Package, t: seq<byte>, s: State, l: Link)
    requires p.FullTree() && Inv(p, t, s) && l in s.channels
    ensures Wired(p, s) && l.from < |s.peers| && l.to < |s.peers| && l.Back() in s.channels
    ensures CacheFits(p, s.peers[l.to]) && HonestCache(p, t, s.peers[l.to])
    ensures CacheFits(p, s.peers[l.from]) && HonestCache(p, t, s.peers[l.from])
  {
    hide HonestCache, GoodChannel, GoodJob, CacheFits;
  }

  /** The state once a packet has been taken from a connection and its peer has become me. */
  function Taken(s: State, l: Link, me: Peer): State
    requires l in s.channels && s.channels[l] != [] && l.to < |s.peers|
  {
    Popped(s, l).(peers := s.peers[l.to := me])
  }

  lemma TakenKeeps(p: Package, t: seq<byte>, s: State, l: Link, me: Peer)
    requires p.FullTree() && Inv(p, t, s) && l in s.channels && s.channels[l] != [] && l.to < |s.peers|
    requires CacheFits(p, me) && HonestCache(p, t, me) && NothingLost(t, s.peers[l.to].file, me.file)
    ensures Inv(p, t, Taken(s, l, me)) && FilesKept(t, s, Taken(s, l, me))
    ensures l.Back() in Taken(s, l, me).channels && l.to < |Taken(s, l, me).peers|
  {
    PopKeeps(p, t, s, l);
    InvGives(p, t, s, l);
    hide Inv, CacheFits, HonestCache, Wired;
    PeerKeeps(p, t, Popped(s, l), l.to, me);
  }

  /** The five things a delivery can come to. */
  lemma DeliveryCases(H: Digester, p: Package, s: State, l: Link, s': State)
    requires p.FullTree() && Wired(p, s) && DeliverStep(H, p, s, l, s')
    ensures l in s.channels && s.channels[l] != [] && l.to < |s.peers| && l.Back() in s.channels
    ensures |s.channels[l][0].payload| == PAYLOAD_MAX && l.Back() !in s.jobs
    ensures var packet, me := s.channels[l][0], s.peers[l.to];
            if packet.code == PKT_MSG_REQ then
              var after := Taken(s, l, AfterReq(H, p, me, packet.payload));
              match AnswerReq(H, p, me, packet.payload)
              case Refuse => s' == Sent(after, l.Back(), ErrorRes())
              case Serve(j) => s' == after.(jobs := after.jobs[l.Back() := j])
              case Crash => false
            else if packet.code == PKT_MSG_RES then
              s' == Taken(s, l, AfterRes(p, me, packet))
            else if packet.code == PKT_MSG_PNG then
              s' == Sent(Taken(s, l, me), l.Back(), Plain(PKT_MSG_POG))
            else
              s' == Taken(s, l, me)
  {
    hide AnswerReq, AfterReq, AfterRes, Plain, ErrorRes, CacheFits;
    assert Popped(s, l).peers == s.peers[l.to := s.peers[l.to]];
  }

  lemma NothingChanges(t: seq<byte>, file: Option<seq<byte>>)
    ensures NothingLost(t, file, file)
  {
  }

  lemma RefusalKeeps(p: Package, t: seq<byte>, s: State, l: Link)
    requires p.FullTree() && Inv(p, t, s) && l in s.channels
    ensures Inv(p, t, Sent(s, l, ErrorRes()))
  {
    hide Inv;
    InvGives(p, t, s, l);
    PlainIsGood(p, t, 0);
    SendKeeps(p, t, s, l, ErrorRes());
  }

  lemma ServingKeeps(p: Package, t: seq<byte>, s: State, l: Link, me: Peer, j: Job)
    requires p.FullTree() && Inv(p, t, s) && l in s.channels && l.from < |s.peers| && s.peers[l.from] == me
    requires GoodJob(t, me.file, j)
    ensures Inv(p, t, s.(jobs := s.jobs[l := j]))
  {
    hide Inv, GoodJob;
    JobKeeps(p, t, s, l, j);
  }

  /** No check of a file of this state would meet a collision. */
  ghost predicate GenuineState(H: Digester, p: Package, t: seq<byte>, s: State)
    requires p.FullTree()
  {
    forall n :: 0 <= n < |s.peers| ==> Genuine(H, p, t, s.peers[n].file)
  }

  lemma GenuinePeer(H: Digester, p: Package, t: seq<byte>, s: State, n: nat)
    requires p.FullTree() && GenuineState(H, p, t, s) && n < |s.peers|
    ensures Genuine(H, p, t, s.peers[n].file)
  {
    hide Genuine;
  }

  lemma RequestIsSafe(H: Digester, p: Package, t: seq<byte>, s: State, l: Link, s': State)
    requires Setting(H, p, t) && p.FullTree() && Inv(p, t, s) && Wired(p, s) && DeliverStep(H, p, s, l, s')
    requires GenuineState(H, p, t, s) && s.channels[l][0].code == PKT_MSG_REQ
    ensures Inv(p, t, s') && FilesKept(t, s, s')
  {
    DeliveryCases(H, p, s, l, s');
    hide *;
    var packet, me := s.channels[l][0], s.peers[l.to];
    InvGives(p, t, s, l);
    PopKeeps(p, t, s, l);
    GenuinePeer(H, p, t, s, l.to);
    AnswerIsSafe(H, p, t, me, packet);
    var me' := AfterReq(H, p, me, packet.payload);
    NothingChanges(t, me.file);
    TakenKeeps(p, t, s, l, me');
    var after := Taken(s, l, me');
    if AnswerReq(H, p, me, packet.payload).Refuse? {
      RefusalKeeps(p, t, after, l.Back());
    } else {
      ServingKeeps(p, t, after, l.Back(), me', AnswerReq(H, p, me, packet.payload).job);
    }
  }

  lemma ResponseIsSafe(H: Digester, p: Package, t: seq<byte>, s: State, l: Link, s': State)
    requires p.FullTree() && Inv(p, t, s) && Wired(p, s) && DeliverStep(H, p, s, l, s')
    requires s.channels[l][0].code == PKT_MSG_RES
    ensures Inv(p, t, s') && FilesKept(t, s, s')
  {
    DeliveryCases(H, p, s, l, s');
    hide *;
    var packet, me := s.channels[l][0], s.peers[l.to];
    InvGives(p, t, s, l);
    PopKeeps(p, t, s, l);
    ResLosesNothing(p, t, me, packet);
    SameCacheIsHonest(p, t, me, AfterRes(p, me, packet));
    TakenKeeps(p, t, s, l, AfterRes(p, me, packet));
  }

  lemma SameCacheIsHonest(p: Package, t: seq<byte>, me: Peer, me': Peer)
    requires CacheFits(p, me) && HonestCache(p, t, me)
    requires me'.cache == me.cache && NothingLost(t, me.file, me'.file)
    ensures CacheFits(p, me') && HonestCache(p, t, me')
  {
    hide CompleteAt, NothingLost, Marked, Above;
    if me.cache.Some? {
      forall k: nat, i: nat | Marked(p, me.cache.value, k) && i < |p.chunks| && Above(p, k, i)
        ensures CompleteAt(p, t, me'.file, i)
      {
        LostNothing(p, t, me.file, me'.file, i);
      }
    }
  }

  lemma OtherIsSafe(H: Digester, p: Package, t: seq<byte>, s: State, l: Link, s': State)
    requires p.FullTree() && Inv(p, t, s) && Wired(p, s) && DeliverStep(H, p, s, l, s')
    requires s.channels[l][0].code != PKT_MSG_REQ && s.channels[l][0].code != PKT_MSG_RES
    ensures Inv(p, t, s') && FilesKept(t, s, s')
  {
    DeliveryCases(H, p, s, l, s');
    hide *;
    var me := s.peers[l.to];
    InvGives(p, t, s, l);
    NothingChanges(t, me.file);
    TakenKeeps(p, t, s, l, me);
    if s.channels[l][0].code == PKT_MSG_PNG {
      PlainIsGood(p, t, PKT_MSG_POG);
      InvGives(p, t, Taken(s, l, me), l.Back());
      SendKeeps(p, t, Taken(s, l, me), l.Back(), Plain(PKT_MSG_POG));
    }
  }

  lemma PieceDataIsTrue(t: seq<byte>, f: seq<byte>, offset: nat, n: nat)
    requires RangeRight(t, Some(f), offset, n)
    ensures offset + n <= |t| && ReadPadded(f, offset, n) == t[offset..offset + n]
  {
    var d := ReadPadded(f, offset, n);
    forall x | 0 <= x < n ensures d[x] == t[offset + x] {
      assert Right(t, Some(f), offset + x);
    }
  }

  lemma TrueDataMakesTruePacket(p: Package, t: seq<byte>, offset: nat, d: seq<byte>, hash: seq<byte>, ident: seq<byte>)
    requires p.FullTree() && ResFields(offset, d, hash, ident) && offset + |d| <= |t| && d == t[offset..offset + |d|]
    ensures forall file :: GoodPacket(p, t, file, Packet(PKT_MSG_RES, 0, EncodeRes(offset, d, hash, ident)))
  {
    ResRoundTrip(offset, d, hash, ident);
    hide EncodeRes, ResOffset, ResData;
  }

  /** The rest of a job once its next piece is sent. */
  function Advanced(j: Job): Job
    requires j.left > 0
  {
    j.(offset := j.offset + PieceLen(j.left), left := j.left - PieceLen(j.left))
  }

  lemma RangeParts(t: seq<byte>, file: Option<seq<byte>>, offset: nat, n: nat, m: nat)
    requires RangeRight(t, file, offset, n) && m <= n
    ensures RangeRight(t, file, offset, m) && RangeRight(t, file, offset + m, n - m)
  {
    hide Right;
  }

  /** A piece sent while the range is right is true, and so is what is left. */
  lemma PieceIsTrue(p: Package, t: seq<byte>, f: seq<byte>, j: Job)
    requires p.FullTree() && GoodJob(t, Some(f), j) && j.left > 0 && Sendable(j.offset, j.hash, j.ident)
    ensures forall file :: GoodPacket(p, t, file, Piece(f, j.offset, j.left, j.hash, j.ident))
    ensures GoodJob(t, Some(f), Advanced(j))
  {
    hide RangeRight, GoodPacket, EncodeRes, ReadPadded;
    var n := PieceLen(j.left);
    RangeParts(t, Some(f), j.offset, j.left, n);
    PieceDataIsTrue(t, f, j.offset, n);
    TrueDataMakesTruePacket(p, t, j.offset, ReadPadded(f, j.offset, n), j.hash, j.ident);
  }

  lemma EmissionCases(p: Package, s: State, l: Link, s': State)
    requires Wired(p, s) && EmitStep(p, s, l, s')
    ensures l in s.jobs && l in s.channels && l.from < |s.peers|
    ensures var j, file := s.jobs[l], s.peers[l.from].file;
            if j.left <= 0 then s' == s.(jobs := s.jobs - {l})
            else
              file.Some? && Sendable(j.offset, j.hash, j.ident) &&
              s' == Sent(s, l, Piece(file.value, j.offset, j.left, j.hash, j.ident)).(jobs := s.jobs[l := Advanced(j)])
  {
    hide Piece, PieceLen, CacheFits;
  }

  lemma EndsLoop(p: Package, s: State, l: Link)
    requires Wired(p, s) && l in s.jobs && s.jobs[l].left <= 0
    ensures EmitStep(p, s, l, s.(jobs := s.jobs - {l}))
  {
    hide Piece, CacheFits;
  }

  lemma SendsPiece(p: Package, s: State, l: Link, f: seq<byte>)
    requires Wired(p, s) && l in s.jobs && s.jobs[l].left > 0 && l.from < |s.peers| && s.peers[l.from].file == Some(f)
    requires l in s.channels && Sendable(s.jobs[l].offset, s.jobs[l].hash, s.jobs[l].ident)
    ensures var j := s.jobs[l];
            EmitStep(p, s, l, Sent(s, l, Piece(f, j.offset, j.left, j.hash, j.ident)).(jobs := s.jobs[l := Advanced(j)]))
  {
    hide Piece, CacheFits;
  }

  lemma DroppedJobKeeps(p: Package, t: seq<byte>, s: State, l: Link)
    requires p.FullTree() && Inv(p, t, s)
    ensures Inv(p, t, s.(jobs := s.jobs - {l}))
  {
    hide HonestCache, GoodChannel, GoodJob, CacheFits;
  }

  lemma EmitIsSafe(p: Package, t: seq<byte>, s: State, l: Link, s': State)
    requires p.FullTree() && Inv(p, t, s) && Wired(p, s) && EmitStep(p, s, l, s')
    ensures Inv(p, t, s') && s'.peers == s.peers
  {
    EmissionCases(p, s, l, s');
    InvGivesJob(p, t, s, l);
    hide *;
    var j := s.jobs[l];
    if j.left > 0 {
      var f := s.peers[l.from].file.value;
      PieceIsTrue(p, t, f, j);
      InvGives(p, t, s, l);
      var packet := Piece(f, j.offset, j.left, j.hash, j.ident);
      SendKeeps(p, t, s, l, packet);
      SentElsewhere(s, l, packet);
      JobKeeps(p, t, Sent(s, l, packet), l, Advanced(j));
    } else {
      DroppedJobKeeps(p, t, s, l);
    }
  }

  lemma SentElsewhere(s: State, l: Link, packet: Packet)
    requires l in s.channels
    ensures Sent(s, l, packet).peers == s.peers && Sent(s, l, packet).jobs == s.jobs && l in Sent(s, l, packet).channels
  {
  }

  lemma InvGivesJob(p: Package, t: seq<byte>, s: State, l: Link)
    requires p.FullTree() && Inv(p, t, s) && l in s.jobs
    ensures l in s.channels && l.from < |s.peers| && GoodJob(t, s.peers[l.from].file, s.jobs[l])
  {
    hide HonestCache, GoodChannel, GoodJob, CacheFits;
  }

  lemma CheckIsSafe(H: Digester, p: Package, t: seq<byte>, s: State, i: nat)
    requires Setting(H, p, t) && p.FullTree() && Inv(p, t, s) && i < |s.peers| && CacheFits(p, s.peers[i])
    requires Genuine(H, p, t, s.peers[i].file)
    ensures var s' := s.(peers := s.peers[i := Checked(H, p, s.peers[i])]);
            Inv(p, t, s') && FilesKept(t, s, s')
  {
    var me := s.peers[i];
    assert HonestCache(p, t, me) && p.WellFormed(H) && Original(H, p, t);
    hide Inv, Checked, Setting, HonestCache, CacheFits, Package.WellFormed, Original, Genuine, NothingLost;
    forall k | 0 <= k < |s.peers| ensures NothingLost(t, s.peers[k].file, s.peers[k].file) {
      NothingChanges(t, s.peers[k].file);
    }
    CheckIsHonest(H, p, t, me);
    PeerKeeps(p, t, s, i, Checked(H, p, me));
  }

  lemma AddPackageIsSafe(p: Package, t: seq<byte>, s: State, i: nat, c: seq<Hash>)
    requires p.FullTree() && Inv(p, t, s) && i < |s.peers| && Unverified(p, c)
    ensures var s' := s.(peers := s.peers[i := s.peers[i].(cache := Some(c))]);
            Inv(p, t, s') && FilesKept(t, s, s')
  {
    var me := s.peers[i].(cache := Some(c));
    hide Inv, HonestCache, CacheFits, NothingLost, Unverified;
    forall k | 0 <= k < |s.peers| ensures NothingLost(t, s.peers[k].file, s.peers[k].file) {
      NothingChanges(t, s.peers[k].file);
    }
    UnverifiedIsHonest(p, t, me);
    PeerKeeps(p, t, s, i, me);
  }

  lemma UnverifiedIsHonest(p: Package, t: seq<byte>, me: Peer)
    requires p.FullTree() && me.cache.Some? && Unverified(p, me.cache.value)
    ensures CacheFits(p, me) && HonestCache(p, t, me)
  {
    forall k: nat ensures !Marked(p, me.cache.value, k) {
      UnverifiedMarksNothing(p, me.cache.value, k);
    }
  }

  /** What each kind of step comes to. */
  lemma StepCases(H: Digester, p: Package, s: State, ev: Event, s': State)
    requires p.FullTree() && Wired(p, s) && Step(H, p, s, ev, s')
    ensures ev.Fetch? ==> FetchStep(p, s, ev.link, ev.ident, ev.want, s')
    ensures ev.Deliver? ==> DeliverStep(H, p, s, ev.link, s')
    ensures ev.Emit? ==> EmitStep(p, s, ev.link, s')
    ensures ev.Ping? ==> ev.link in s.channels && s' == Sent(s, ev.link, Plain(PKT_MSG_PNG))
    ensures ev.Check? ==> ev.peer < |s.peers| && CacheFits(p, s.peers[ev.peer])
                          && s' == s.(peers := s.peers[ev.peer := Checked(H, p, s.peers[ev.peer])])
    ensures ev.AddPackage? ==> ev.peer < |s.peers| && s.peers[ev.peer].cache.None? && Unverified(p, ev.cache)
                               && s' == s.(peers := s.peers[ev.peer := s.peers[ev.peer].(cache := Some(ev.cache))])
  {
    hide DeliverStep, FetchStep, EmitStep, CacheFits, Unverified, Checked, Plain;
  }

  lemma SamePeersKept(t: seq<byte>, s: State, s': State)
    requires s'.peers == s.peers
    ensures FilesKept(t, s, s')
  {
    hide NothingLost;
    forall i | 0 <= i < |s.peers| ensures NothingLost(t, s.peers[i].file, s.peers[i].file) {
      NothingChanges(t, s.peers[i].file);
    }
  }

  lemma PingIsSafe(p: Package, t: seq<byte>, s: State, l: Link)
    requires p.FullTree() && Inv(p, t, s) && l in s.channels
    ensures var s' := Sent(s, l, Plain(PKT_MSG_PNG)); Inv(p, t, s') && s'.peers == s.peers
  {
    PlainIsGood(p, t, PKT_MSG_PNG);
    InvGives(p, t, s, l);
    hide Inv, Plain;
    SendKeeps(p, t, s, l, Plain(PKT_MSG_PNG));
  }

  lemma DeliverIsSafe(H: Digester, p: Package, t: seq<byte>, s: State, l: Link, s': State)
    requires Setting(H, p, t) && p.FullTree() && Inv(p, t, s) && Wired(p, s) && DeliverStep(H, p, s, l, s')
    requires GenuineState(H, p, t, s)
    ensures Inv(p, t, s') && FilesKept(t, s, s')
  {
    hide *;
    DeliveryCases(H, p, s, l, s');
    if s.channels[l][0].code == PKT_MSG_REQ {
      RequestIsSafe(H, p, t, s, l, s');
    } else if s.channels[l][0].code == PKT_MSG_RES {
      ResponseIsSafe(H, p, t, s, l, s');
    } else {
      OtherIsSafe(H, p, t, s, l, s');
    }
  }

  /** Whatever is fetched in this step is fetched soundly. */
  ghost predicate SoundEvent(p: Package, t: seq<byte>, s: State, ev: Event)
    requires p.FullTree()
  {
    ev.Fetch? ==> SoundFetch(p, t, s, ev.link, ev.want)
  }

  /** Every step keeps the invariant and loses no right byte at any peer. */
  lemma StepIsSafe(H: Digester, p: Package, t: seq<byte>, s: State, ev: Event, s': State)
    requires Setting(H, p, t) && p.FullTree() && Inv(p, t, s) && Wired(p, s) && Step(H, p, s, ev, s')
    requires GenuineState(H, p, t, s) && SoundEvent(p, t, s, ev)
    ensures Inv(p, t, s') && FilesKept(t, s, s')
  {
    assert ev.Fetch? ==> SoundFetch(p, t, s, ev.link, ev.want);
    hide *;
    SettingSizes(H, p, t);
    StepCases(H, p, s, ev, s');
    match ev
    case Fetch(l, ident, w) =>
      FetchIsSafe(p, t, s, l, ident, w, s');
      SamePeersKept(t, s, s');
    case Deliver(l) =>
      DeliverIsSafe(H, p, t, s, l, s');
    case Emit(l) =>
      EmitIsSafe(p, t, s, l, s');
      SamePeersKept(t, s, s');
    case Ping(l) =>
      PingIsSafe(p, t, s, l);
      SamePeersKept(t, s, s');
    case Check(i) =>
      GenuinePeer(H, p, t, s, i);
      CheckIsSafe(H, p, t, s, i);
    case AddPackage(i, c) =>
      AddPackageIsSafe(p, t, s, i, c);
  }
}
