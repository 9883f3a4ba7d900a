/**
 * What checking a data file against its package leaves in the computed hashes, and what the programs
 * then conclude from them.
 */
module Verification {
  import opened Bytes
  import opened Digests
  import opened HeapTree
  import opened Merkle
  import opened Queries
  import opened Lookup

  /** The first chunk from the i-th on that cannot be read in full: there the check gives up. */
  function FirstUnreadable(p: Package, f: seq<byte>, i: nat): (m: nat)
    requires i <= |p.chunks|
    ensures i <= m <= |p.chunks|
    ensures ReadableFrom(p, f, i, m)
    ensures m < |p.chunks| ==> !Readable(f, p.chunks[m])
    decreases |p.chunks| - i
  {
    if i == |p.chunks| || !Readable(f, p.chunks[i]) then i else FirstUnreadable(p, f, i + 1)
  }

  /** The computed hash of a position once the first m chunks have been hashed anew. */
  function LeafHashed(H: Digester, p: Package, f: seq<byte>, c: seq<Hash>, m: nat, k: nat): Hash
    requires ReadableFrom(p, f, 0, m) && k < |c|
  {
    if |p.hashes| <= k < |p.hashes| + m then H(ChunkData(f, p.chunks[k - |p.hashes|])) else c[k]
  }

  function LeavesHashed(H: Digester, p: Package, f: seq<byte>, c: seq<Hash>, m: nat): (r: seq<Hash>)
    requires ReadableFrom(p, f, 0, m)
    ensures |r| == |c|
    ensures forall k :: 0 <= k < |r| ==> r[k] == LeafHashed(H, p, f, c, m, k)
  {
    seq(|c|, k requires 0 <= k < |c| => LeafHashed(H, p, f, c, m, k))
  }

  /** The computed hashes after a check of the file: all of them anew, or, for a short file, only the first leaves. */
  function AfterVerify(H: Digester, p: Package, file: Option<seq<byte>>, c: seq<Hash>): (r: seq<Hash>)
    requires p.FullTree() && |c| == 2 * |p.hashes| + 1
    ensures |r| == |c|
  {
    if file.None? then c
    else
      var f, m := file.value, FirstUnreadable(p, file.value, 0);
      if m == |p.chunks| then AllRecomputed(H, |p.hashes|, LeafHashes(H, p, f))
      else LeavesHashed(H, p, f, c, m)
  }

  /**
   * After a check, the computed hash of a leaf is that of its data now if the check came as far as its
   * chunk, which is before the first that cannot be read in full, and otherwise still the one from before.
   */
  lemma LeafAfterVerify(H: Digester, p: Package, file: Option<seq<byte>>, c: seq<Hash>, i: nat)
    requires p.FullTree() && |c| == 2 * |p.hashes| + 1 && i < |p.chunks|
    ensures file.Some? && i < FirstUnreadable(p, file.value, 0) ==>
              Readable(file.value, p.chunks[i]) &&
              AfterVerify(H, p, file, c)[|p.hashes| + i] == H(ChunkData(file.value, p.chunks[i]))
    ensures file.None? || i >= FirstUnreadable(p, file.value, 0) ==>
              AfterVerify(H, p, file, c)[|p.hashes| + i] == c[|p.hashes| + i]
  {
    if file.Some? && FirstUnreadable(p, file.value, 0) == |p.chunks| {
      LeafIsRecomputed(H, p, file.value, i);
    }
  }

  // The PACKAGES report.

  /** COMPLETED is printed when the first hash of the minimal cover is that of the root. */
  predicate ReportsCompleted(H: Digester, p: Package, file: Option<seq<byte>>)
    requires p.FullTree() && |p.hashes| > 0
  {
    var nodes := CompletedNodes(H, p, file);
    |nodes| > 0 && p.Expected()[nodes[0]] == p.hashes[0]
  }

  lemma CoverOfCompleteTree(nh: nat, e: seq<Hash>, c: seq<Hash>)
    requires |e| == |c| == 2 * nh + 1
    ensures e[0] == c[0] ==> MinCover(nh, e, c, 0) == [0]
    ensures e[0] != c[0] ==> forall i :: 0 <= i < |MinCover(nh, e, c, 0)| ==> MinCover(nh, e, c, 0)[i] != 0
  {
    MinCoverIsAntichain(nh, e, c, 0);
  }

  /**
   * The report is right when no other node expects the hash of the root: COMPLETED exactly when the
   * whole file can be read and its recomputed root is the expected one.
   */
  lemma ReportIsRootMatch(H: Digester, p: Package, file: Option<seq<byte>>)
    requires p.FullTree() && |p.hashes| > 0
    requires forall k :: 0 < k < |p.Expected()| ==> p.Expected()[k] != p.hashes[0]
    ensures ReportsCompleted(H, p, file) <==>
            file.Some? && AllReadable(p, file.value)
            && Recomputed(H, |p.hashes|, LeafHashes(H, p, file.value), 0) == p.hashes[0]
  {
    hide Recomputed, MinCover;
    if file.Some? && AllReadable(p, file.value) {
      var nh, e := |p.hashes|, p.Expected();
      CoverOfCompleteTree(nh, e, AllRecomputed(H, nh, LeafHashes(H, p, file.value)));
    }
  }

  lemma TrueFileLeavesMatch(H: Digester, p: Package, t: seq<byte>, f: seq<byte>)
    requires p.FullTree() && Original(H, p, t) && AllReadable(p, f)
    requires forall i {:trigger p.chunks[i]} :: 0 <= i < |p.chunks| ==> SameChunk(f, t, p.chunks[i])
    ensures LeavesMatch(|p.hashes|, p.Expected(), LeafHashes(H, p, f), 0)
  {
    var nh, e, leaf := |p.hashes|, p.Expected(), LeafHashes(H, p, f);
    forall x: nat | nh <= x <= 2 * nh ensures leaf[x - nh] == e[x] {
      assert SameChunk(f, t, p.chunks[x - nh]);
    }
  }

  /** A file that agrees with the original on its whole size is reported COMPLETED, whatever the hashes. */
  lemma TrueFileReportsCompleted(H: Digester, p: Package, t: seq<byte>, f: seq<byte>)
    requires p.WellFormed(H) && Original(H, p, t) && |f| >= p.size
    requires forall i {:trigger p.chunks[i]} :: 0 <= i < |p.chunks| ==> SameChunk(f, t, p.chunks[i])
    ensures AllReadable(p, f) && Recomputed(H, |p.hashes|, LeafHashes(H, p, f), 0) == p.Expected()[0]
    ensures ReportsCompleted(H, p, Some(f))
  {
    hide SealedTree, MinCover, Recomputed;
    var nh, e := |p.hashes|, p.Expected();
    TrueFileLeavesMatch(H, p, t, f);
    LeavesForceNode(H, nh, e, LeafHashes(H, p, f), 0);
    CoverOfCompleteTree(nh, e, AllRecomputed(H, nh, LeafHashes(H, p, f)));
  }

  /** A report of COMPLETED means the file is the original, or exhibits two strings on which the hash collides. */
  lemma CompletedMeansOriginal(H: Digester, p: Package, t: seq<byte>, f: seq<byte>) returns (x: seq<byte>, y: seq<byte>)
    requires p.WellFormed(H) && Original(H, p, t) && |f| >= p.size
    requires forall k :: 0 < k < |p.Expected()| ==> p.Expected()[k] != p.hashes[0]
    requires ReportsCompleted(H, p, Some(f))
    ensures f[..p.size] == t || Collision(H, x, y)
  {
    hide SealedTree, Recomputed, ReportsCompleted, Original;
    ReportIsRootMatch(H, p, Some(f));
    x, y := RootVouchesForFile(H, p, t, f);
  }
}
