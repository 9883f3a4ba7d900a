/**
 * Exactly when the verification gate of generate_and_send_RES protects what is asked for: the server looks the
 * hash up in the tree and checks the node found, and FETCH looks it up in the chunk array and may give an offset.
 */
module Gate {
  import opened Bytes
  import opened Digests
  import opened HeapTree
  import opened Merkle
  import opened Queries
  import opened Lookup
  import opened Verification
  import opened Protocol
  import opened Requests
  import opened Safety
  import opened Pledges

  /** The gate lets a request for this hash through. */
  ghost predicate Passes(H: Digester, p: Package, f: seq<byte>, c: seq<Hash>, h: Hash)
    requires p.FullTree() && |c| == 2 * |p.hashes| + 1
  {
    var k := FindFrom(|p.hashes|, p.Expected(), h, 0);
    k.Some? && AfterVerify(H, p, Some(f), c)[k.value] == p.Expected()[k.value]
  }

  /** The gate passes no file on which a byte of the range is wrong, unless the hash collides on it. */
  ghost predicate Guards(H: Digester, p: Package, t: seq<byte>, a: Ask)
    requires p.FullTree()
  {
    forall f: seq<byte>, c: seq<Hash> ::
      |f| >= p.size && |c| == 2 * |p.hashes| + 1 && Genuine(H, p, t, Some(f)) && Passes(H, p, f, c, a.hash) ==>
        RangeRight(t, Some(f), a.offset, a.len)
  }

  lemma FullFileReadable(p: Package, f: seq<byte>)
    requires p.Tiled() && |f| >= p.size
    ensures AllReadable(p, f)
  {
    forall i {:trigger p.chunks[i]} | 0 <= i < |p.chunks| ensures Readable(f, p.chunks[i]) {
      ChunkWithin(p, i);
    }
  }

  lemma PassesMarks(H: Digester, p: Package, f: seq<byte>, c: seq<Hash>, h: Hash)
    requires p.FullTree() && p.Tiled() && |f| >= p.size && |c| == 2 * |p.hashes| + 1
    requires FindFrom(|p.hashes|, p.Expected(), h, 0).Some?
    ensures AllReadable(p, f)
    ensures Passes(H, p, f, c, h) <==>
            Marked(p, AllRecomputed(H, |p.hashes|, LeafHashes(H, p, f)), FindFrom(|p.hashes|, p.Expected(), h, 0).value)
  {
    hide FindFrom, Package.Tiled, Package.Expected, AllReadable, AfterVerify, AllRecomputed, LeafHashes;
    FullFileReadable(p, f);
    FullCheck(H, p, f, c);
    FoundNode(p, h);
  }

  /** Where everything asked for is below the node found, what passes is right, whatever the hash function. */
  lemma CoveredIsGuarded(H: Digester, p: Package, t: seq<byte>, a: Ask)
    requires Setting(H, p, t) && p.FullTree() && RangeCovered(p, a)
    ensures Guards(H, p, t, a)
  {
    SettingGives(H, p, t);
    CoveredInFile(p, a);
    assert FindFrom(|p.hashes|, p.Expected(), a.hash, 0).Some?;
    hide Setting, Package.WellFormed, Package.FullTree, Package.Tiled, Original, FindFrom, Package.Expected, Above, Genuine,
         AllReadable, RangeCovered, Passes, Right, RangeRight, CompleteAt, AllRecomputed, LeafHashes, Marked, Package.Sealed;
    var k := FindFrom(|p.hashes|, p.Expected(), a.hash, 0).value;
    forall f: seq<byte>, c: seq<Hash> |
      |f| >= p.size && |c| == 2 * |p.hashes| + 1 && Genuine(H, p, t, Some(f)) && Passes(H, p, f, c, a.hash)
      ensures RangeRight(t, Some(f), a.offset, a.len)
    {
      PassesMarks(H, p, f, c, a.hash);
      forall x: nat | a.offset <= x < a.offset + a.len ensures Right(t, Some(f), x) {
        var j := CoveredByte(p, a, x);
        NodeMarkIsHonest(H, p, t, f, k, j);
        CompleteGivesByte(p, t, Some(f), j, x);
      }
      RangeRightFrom(t, Some(f), a.offset, a.len);
    }
  }

  /** The original with one byte changed; the original itself for a place past its end. */
  function Spoiled(t: seq<byte>, x: nat): (f: seq<byte>)
    ensures |f| == |t|
  {
    if x < |t| then t[x := t[x] + 1] else t
  }

  lemma SpoiledIsWrong(t: seq<byte>, x: nat)
    ensures !Right(t, Some(Spoiled(t, x)), x)
    ensures x < |t| ==> Spoiled(t, x)[x] != t[x]
  {
  }

  lemma SpoiledElsewhere(p: Package, t: seq<byte>, x: nat, j: nat)
    requires p.Tiled() && |t| == p.size && j < |p.chunks| && !InChunk(p.chunks[j], x)
    ensures CompleteAt(p, t, Some(Spoiled(t, x)), j)
  {
    ChunkWithin(p, j);
  }

  /** Spoiling a byte leaves the hash of every chunk without it as expected. */
  lemma SpoiledLeaf(H: Digester, p: Package, t: seq<byte>, x: nat, j: nat)
    requires p.Tiled() && p.FullTree() && Original(H, p, t) && j < |p.chunks| && !InChunk(p.chunks[j], x)
    requires AllReadable(p, Spoiled(t, x))
    ensures LeafHashes(H, p, Spoiled(t, x))[j] == p.Expected()[|p.hashes| + j]
  {
    hide Spoiled, CompleteAt, Package.Tiled, Package.Expected, InChunk, LeafHashes;
    SpoiledElsewhere(p, t, x, j);
    CompleteLeafMatches(H, p, t, Spoiled(t, x), j);
  }

  /** The byte is in no chunk below the k-th node. */
  predicate NotBelow(p: Package, k: nat, x: nat) {
    forall j :: 0 <= j < |p.chunks| && Above(p, k, j) ==> !InChunk(p.chunks[j], x)
  }

  lemma SpoiledLeavesMatch(H: Digester, p: Package, t: seq<byte>, x: nat, k: nat)
    requires p.Tiled() && p.FullTree() && Original(H, p, t) && k <= 2 * |p.hashes| && NotBelow(p, k, x)
    requires AllReadable(p, Spoiled(t, x))
    ensures LeavesMatch(|p.hashes|, p.Expected(), LeafHashes(H, p, Spoiled(t, x)), k)
  {
    hide Spoiled, Package.Tiled, Package.Expected, Original, LeafHashes, InChunk;
    var nh := |p.hashes|;
    forall y: nat | nh <= y <= 2 * nh && Under(k, y)
      ensures LeafHashes(H, p, Spoiled(t, x))[y - nh] == p.Expected()[y]
    {
      assert Above(p, k, y - nh);
      SpoiledLeaf(H, p, t, x, y - nh);
    }
  }

  /** A byte that is not below the node found can be wrong and the file still passes, whatever the hash function. */
  lemma SpoiledPasses(H: Digester, p: Package, t: seq<byte>, x: nat, h: Hash, c: seq<Hash>)
    requires Setting(H, p, t) && p.FullTree() && |c| == 2 * |p.hashes| + 1
    requires var k := FindFrom(|p.hashes|, p.Expected(), h, 0); k.Some? && NotBelow(p, k.value, x)
    ensures Passes(H, p, Spoiled(t, x), c, h)
  {
    SettingGives(H, p, t);
    assert SealedTree(H, |p.hashes|, p.Expected());
    hide *;
    var nh, e, f := |p.hashes|, p.Expected(), Spoiled(t, x);
    ExpectedLength(p);
    var k := FindFrom(nh, e, h, 0).value;
    FoundNode(p, h);
    PassesMarks(H, p, f, c, h);
    SpoiledLeavesMatch(H, p, t, x, k);
    LeavesForceNode(H, nh, e, LeafHashes(H, p, f), k);
    MatchIsMark(H, p, f, k);
  }

  lemma MatchIsMark(H: Digester, p: Package, f: seq<byte>, k: nat)
    requires p.FullTree() && AllReadable(p, f) && k < |p.Expected()| == 2 * |p.hashes| + 1
    requires Recomputed(H, |p.hashes|, LeafHashes(H, p, f), k) == p.Expected()[k]
    ensures Marked(p, AllRecomputed(H, |p.hashes|, LeafHashes(H, p, f)), k)
  {
    hide Recomputed, LeafHashes, Package.Expected;
  }

  /** If a request is not covered, one of its bytes is past the file's end or not below the node found. */
  lemma UncoveredByte(p: Package, a: Ask) returns (x: nat)
    requires p.FullTree() && p.Tiled() && a.len > 0 && !RangeCovered(p, a)
    requires FindFrom(|p.hashes|, p.Expected(), a.hash, 0).Some?
    ensures a.Has(x) && NotBelow(p, FindFrom(|p.hashes|, p.Expected(), a.hash, 0).value, x)
  {
    var k := FindFrom(|p.hashes|, p.Expected(), a.hash, 0).value;
    hide FindFrom, Package.Expected, Package.Tiled, Above, Meets, InChunk;
    if a.offset + a.len > p.size {
      x := if a.offset >= p.size then a.offset else p.size;
      forall j | 0 <= j < |p.chunks| ensures !InChunk(p.chunks[j], x) {
        PastTheEnd(p, j, x);
      }
    } else {
      var i :| 0 <= i < |p.chunks| && Meets(p.chunks[i], a) && !Above(p, k, i);
      x := MeetsAtByte(p.chunks[i], a);
      forall j | 0 <= j < |p.chunks| && Above(p, k, j) ensures !InChunk(p.chunks[j], x) {
        OtherChunk(p, i, j, x);
      }
    }
  }

  lemma PastTheEnd(p: Package, j: nat, x: nat)
    requires p.Tiled() && j < |p.chunks| && x >= p.size
    ensures !InChunk(p.chunks[j], x)
  {
    ChunkWithin(p, j);
  }

  /** A request that is not covered is missed by the gate: this file passes with a byte of the range wrong. */
  lemma UncoveredIsMissed(H: Digester, p: Package, t: seq<byte>, a: Ask, c: seq<Hash>) returns (x: nat)
    requires Setting(H, p, t) && p.FullTree() && |c| == 2 * |p.hashes| + 1 && a.len > 0 && !RangeCovered(p, a)
    requires FindFrom(|p.hashes|, p.Expected(), a.hash, 0).Some?
    ensures a.Has(x) && !Right(t, Some(Spoiled(t, x)), x)
    ensures Passes(H, p, Spoiled(t, x), c, a.hash)
  {
    hide *;
    SettingGives(H, p, t);
    ExpectedLength(p);
    x := UncoveredByte(p, a);
    SpoiledPasses(H, p, t, x, a.hash, c);
    SpoiledIsWrong(t, x);
  }

  /** The original makes no collision. */
  lemma OriginalIsGenuine(H: Digester, p: Package, t: seq<byte>)
    requires Setting(H, p, t) && p.FullTree()
    ensures Genuine(H, p, t, Some(t))
  {
    SettingGives(H, p, t);
    assert SealedTree(H, |p.hashes|, p.Expected()) && AllReadable(p, t);
    var nh, e, leaf := |p.hashes|, p.Expected(), LeafHashes(H, p, t);
    hide Setting, Package.WellFormed, SealedTree, Package.Tiled, Package.Sealed, Package.Expected, LeafHashes,
         Recomputed;
    forall j | 0 <= j < |p.chunks| ensures leaf[j] == e[nh + j] {
      LeafExpects(p, j);
      OriginalLeaf(H, p, t, j);
    }
    forall k | 0 <= k < nh ensures !PairCollides(H, nh, e, leaf, k) {
      var l, r := 2 * k + 1, 2 * k + 2;
      LeavesForceNode(H, nh, e, leaf, l);
      LeavesForceNode(H, nh, e, leaf, r);
    }
  }

  lemma OriginalLeaf(H: Digester, p: Package, t: seq<byte>, j: nat)
    requires Original(H, p, t) && j < |p.chunks| && AllReadable(p, t)
    ensures LeafHashes(H, p, t)[j] == p.chunks[j].hash
  {
    assert Readable(t, p.chunks[j]);
  }

  lemma WrongRange(t: seq<byte>, file: Option<seq<byte>>, a: Ask, x: nat)
    requires a.Has(x) && !Right(t, file, x)
    ensures !RangeRight(t, file, a.offset, a.len)
  {
    hide Right;
  }

  lemma NotGuarded(H: Digester, p: Package, t: seq<byte>, a: Ask, f: seq<byte>, c: seq<Hash>, x: nat)
    requires p.FullTree() && |f| >= p.size && |c| == 2 * |p.hashes| + 1 && Genuine(H, p, t, Some(f))
    requires Passes(H, p, f, c, a.hash) && a.Has(x) && !Right(t, Some(f), x)
    ensures !Guards(H, p, t, a)
  {
    hide Genuine, Passes, RangeRight, Right;
    WrongRange(t, Some(f), a, x);
  }

  /**
   * The gate protects the range asked for exactly when it lies in the file and below the node found; or the
   * original with the one byte x spoiled makes the hash collide.
   */
  lemma GateIsExact(H: Digester, p: Package, t: seq<byte>, a: Ask) returns (x: nat)
    requires Setting(H, p, t) && p.FullTree() && a.len > 0
    requires FindFrom(|p.hashes|, p.Expected(), a.hash, 0).Some?
    ensures (Guards(H, p, t, a) <==> RangeCovered(p, a)) || (x < |t| && !Genuine(H, p, t, Some(Spoiled(t, x))))
  {
    SettingGives(H, p, t);
    hide *;
    x := 0;
    ExpectedLength(p);
    if RangeCovered(p, a) {
      CoveredIsGuarded(H, p, t, a);
    } else {
      var c: seq<Hash> := seq(2 * |p.hashes| + 1, k => []);
      x := UncoveredIsMissed(H, p, t, a, c);
      SpoiledOrOriginal(t, x);
      OriginalIsGenuine(H, p, t);
      if Genuine(H, p, t, Some(Spoiled(t, x))) {
        NotGuarded(H, p, t, a, Spoiled(t, x), c, x);
      }
    }
  }

  lemma SpoiledOrOriginal(t: seq<byte>, x: nat)
    ensures x >= |t| ==> Spoiled(t, x) == t
  {
  }

  /** In a package of three chunks whose first two are equal, FETCH picks the first and the gate checks the second. */
  lemma ThreeChunksUncovered(p: Package)
    requires |p.hashes| == 2 && |p.chunks| == 3
    requires p.chunks[0].hash == p.chunks[1].hash && p.chunks[0].hash !in p.hashes
    ensures FirstChunk(p, p.chunks[0].hash, 0) == Some(0) && !CoveredAt(p, 0)
  {
    ThreeChunksPart(p, p.chunks[0].hash);
  }

  /**
   * In a package of four chunks whose last holds the hashes of the first two as text, that text hashes to the
   * node above those two, which is what the gate checks while the last chunk is sent.
   */
  lemma FourChunksUncovered(H: Digester, p: Package, t: seq<byte>)
    requires p.WellFormed(H) && Original(H, p, t) && |p.hashes| == 3 && |p.chunks| == 4
    requires Readable(t, p.chunks[3]) && ChunkData(t, p.chunks[3]) == p.chunks[0].hash + p.chunks[1].hash
    requires p.hashes[0] != p.chunks[3].hash
    ensures FindFrom(3, p.Expected(), p.chunks[3].hash, 0) == Some(1) && !CoveredAt(p, 3)
    ensures (forall j :: 0 <= j < 3 ==> p.chunks[j].hash != p.chunks[3].hash) ==> FirstChunk(p, p.chunks[3].hash, 0) == Some(3)
  {
    var e := p.Expected();
    assert SealedAt(H, e, 1);
    assert e[3] == p.chunks[0].hash && e[4] == p.chunks[1].hash && e[1] == p.hashes[1] && e[0] == p.hashes[0];
    hide SealedTree, Package.Tiled;
    assert H(ChunkData(t, p.chunks[3])) == p.chunks[3].hash;
    assert e[1] == p.chunks[3].hash;
    PreorderOfRoot(3, e, p.chunks[3].hash);
    assert !Under(1, 2) && !Under(1, 6);
  }

  lemma PreorderOfRoot(nh: nat, e: seq<Hash>, h: Hash)
    requires |e| == 2 * nh + 1 && nh >= 1 && e[0] != h && e[1] == h
    ensures FindFrom(nh, e, h, 0) == Some(1)
  {
    assert FindFrom(nh, e, h, 1) == Some(1);
  }

  /** Two conditions under which FETCH and the gate mean the same chunk by every chunk hash. */
  lemma WhenAligned(p: Package, height: nat)
    requires p.FullTree()
    requires NoDuplicates(p.Expected()) ||
             (|p.chunks| == Pow2(height) && forall i :: 0 <= i < |p.chunks| ==> p.chunks[i].hash !in p.hashes)
    ensures Aligned(p)
  {
    hide SameTarget, Package.Expected;
    forall i | 0 <= i < |p.chunks| ensures SameTarget(p, p.chunks[i].hash) {
      if NoDuplicates(p.Expected()) {
        DistinctHashSameTarget(p, p.chunks[i].hash);
      } else {
        PerfectTreeSameTarget(p, p.chunks[i].hash, height);
      }
    }
  }
}
