/**
 * Packages, their expected hashes, and what the queries of src/chk/pkgchk.c compute, as functions of
 * the package, the data file and the hashes last computed.
 */
module Merkle {
  import opened Bytes
  import opened Digests
  import opened HeapTree

  datatype Option<+T> = None | Some(value: T)

  datatype Chunk = Chunk(hash: Hash, offset: nat, size: nat)

  datatype Package = Package(ident: seq<byte>, size: nat, hashes: seq<Hash>, chunks: seq<Chunk>) {
    /** The expected hashes in level order: the internal ones, then those of the chunks. */
    function Expected(): (e: seq<Hash>)
      ensures |e| == |hashes| + |chunks|
    {
      hashes + seq(|chunks|, i requires 0 <= i < |chunks| => chunks[i].hash)
    }

    /** A tree in which every internal node has two children. */
    predicate FullTree() {
      |chunks| == |hashes| + 1
    }

    /** The chunks, none of them empty, lie end to end from the start of the file to its size. */
    predicate Tiled() {
      |chunks| > 0 && chunks[0].offset == 0 &&
      (forall i {:trigger chunks[i].size} :: 0 <= i < |chunks| ==> chunks[i].size > 0) &&
      (forall i {:trigger chunks[i].size} :: 0 <= i < |chunks| - 1 ==> chunks[i + 1].offset == chunks[i].offset + chunks[i].size) &&
      chunks[|chunks| - 1].offset + chunks[|chunks| - 1].size == size
    }

    /** No chunk is empty, and each can be read into memory at once: its size is an int. */
    predicate ReadableChunks() {
      forall i {:trigger chunks[i].size} :: 0 <= i < |chunks| ==> 0 < chunks[i].size < 0x8000_0000
    }

    /** Every internal hash is that of the two hashes below it. */
    predicate Sealed(H: Digester) {
      FullTree() && SealedTree(H, |hashes|, Expected())
    }

    predicate WellFormed(H: Digester) {
      |hashes| > 0 && Sealed(H) && Tiled() && size < 0x8000_0000
    }
  }

  predicate SealedTree(H: Digester, nh: nat, e: seq<Hash>) {
    |e| == 2 * nh + 1 &&
    (forall k :: 0 <= k < |e| ==> |e[k]| == 64) &&
    (forall k :: 0 <= k < nh ==> SealedAt(H, e, k))
  }

  predicate SealedAt(H: Digester, e: seq<Hash>, k: nat)
    requires 2 * k + 2 < |e|
  {
    e[k] == H(e[2 * k + 1] + e[2 * k + 2])
  }

  /** The hash the package lists for a position: an internal one, or that of a chunk. */
  function ListedHash(p: Package, k: nat): Hash
    requires k < |p.hashes| + |p.chunks|
  {
    if k < |p.hashes| then p.hashes[k] else p.chunks[k - |p.hashes|].hash
  }

  /** The tree expects what the package lists: the internal hashes in order, then those of the chunks. */
  lemma ExpectedIsListed(p: Package, k: nat)
    requires k < |p.hashes| + |p.chunks|
    ensures p.Expected()[k] == ListedHash(p, k)
  {
  }

  /** Being sealed, in terms of the lists of the package: internal hash k is that of the hashes listed for 2k + 1 and 2k + 2. */
  lemma SealedInLists(H: Digester, p: Package)
    requires p.FullTree()
    ensures p.Sealed(H) <==>
            (forall k {:trigger ListedHash(p, k)} :: 0 <= k < |p.hashes| + |p.chunks| ==> |ListedHash(p, k)| == 64) &&
            (forall k {:trigger p.hashes[k]} :: 0 <= k < |p.hashes| ==>
               p.hashes[k] == H(ListedHash(p, 2 * k + 1) + ListedHash(p, 2 * k + 2)))
  {
    var e := p.Expected();
    forall k | 0 <= k < |e| ensures e[k] == ListedHash(p, k) {
      ExpectedIsListed(p, k);
    }
    hide Package.Expected;
    forall k | 0 <= k < |p.hashes|
      ensures SealedAt(H, e, k) <==> p.hashes[k] == H(ListedHash(p, 2 * k + 1) + ListedHash(p, 2 * k + 2))
    {
      assert e[k] == ListedHash(p, k);
      assert e[2 * k + 1] == ListedHash(p, 2 * k + 1) && e[2 * k + 2] == ListedHash(p, 2 * k + 2);
    }
  }

  /** The bytes of a chunk in a file that holds them all. */
  function ChunkData(f: seq<byte>, c: Chunk): (d: seq<byte>)
    requires c.offset + c.size <= |f|
    ensures |d| == c.size
  {
    f[c.offset..c.offset + c.size]
  }

  predicate Readable(f: seq<byte>, c: Chunk) {
    c.offset + c.size <= |f|
  }

  predicate AllReadable(p: Package, f: seq<byte>) {
    forall i {:trigger p.chunks[i]} :: 0 <= i < |p.chunks| ==> Readable(f, p.chunks[i])
  }

  predicate ReadableFrom(p: Package, f: seq<byte>, i: nat, m: nat) {
    m <= |p.chunks| && forall j :: i <= j < m ==> p.chunks[j].offset + p.chunks[j].size <= |f|
  }

  // Recomputation from the leaves up.

  function Recomputed(H: Digester, nh: nat, leaf: seq<Hash>, k: nat): Hash
    requires |leaf| == nh + 1 && k <= 2 * nh
    decreases 2 * nh - k
  {
    if k >= nh then leaf[k - nh]
    else H(Recomputed(H, nh, leaf, 2 * k + 1) + Recomputed(H, nh, leaf, 2 * k + 2))
  }

  ghost predicate HashLengths(s: seq<Hash>) {
    forall i :: 0 <= i < |s| ==> |s[i]| == 64
  }

  lemma RecomputedLength(H: Digester, nh: nat, leaf: seq<Hash>, k: nat)
    requires |leaf| == nh + 1 && k <= 2 * nh && HashLengths(leaf)
    ensures |Recomputed(H, nh, leaf, k)| == 64
  {
  }

  /** Every leaf below k has its expected hash. */
  ghost predicate LeavesMatch(nh: nat, e: seq<Hash>, leaf: seq<Hash>, k: nat)
    requires |leaf| == nh + 1 && |e| == 2 * nh + 1
  {
    forall x: nat :: nh <= x <= 2 * nh && Under(k, x) ==> leaf[x - nh] == e[x]
  }

  predicate Collision(H: Digester, x: seq<byte>, y: seq<byte>) {
    x != y && H(x) == H(y)
  }

  lemma LeavesMatchSplits(nh: nat, e: seq<Hash>, leaf: seq<Hash>, k: nat)
    requires |leaf| == nh + 1 && |e| == 2 * nh + 1 && k < nh
    ensures LeavesMatch(nh, e, leaf, k)
            <==> LeavesMatch(nh, e, leaf, 2 * k + 1) && LeavesMatch(nh, e, leaf, 2 * k + 2)
  {
    SplitAll(k, 2 * k + 1, 2 * k + 2);
  }

  lemma PairsApart(a: seq<byte>, b: seq<byte>, c: seq<byte>, d: seq<byte>)
    requires |a| == |c| && a + b == c + d
    ensures a == c && b == d
  {
    assert a == (a + b)[..|a|] && c == (c + d)[..|c|];
    assert b == (a + b)[|a|..] && d == (c + d)[|c|..];
  }

  /** A node that matches vouches for every leaf below it, unless the hash has collided on the way down. */
  lemma {:induction false} MatchOrCollision(H: Digester, nh: nat, e: seq<Hash>, leaf: seq<Hash>, k: nat)
    returns (x: seq<byte>, y: seq<byte>)
    requires SealedTree(H, nh, e) && |leaf| == nh + 1 && HashLengths(leaf) && k <= 2 * nh
    requires Recomputed(H, nh, leaf, k) == e[k]
    ensures LeavesMatch(nh, e, leaf, k) || Collision(H, x, y)
    decreases 2 * nh - k
  {
    x, y := [], [];
    if k >= nh {
      LeafAlone(nh, k);
    } else {
      var l, r := 2 * k + 1, 2 * k + 2;
      assert SealedAt(H, e, k);
      var cl, cr := Recomputed(H, nh, leaf, l), Recomputed(H, nh, leaf, r);
      if cl + cr != e[l] + e[r] {
        x, y := cl + cr, e[l] + e[r];
      } else {
        RecomputedLength(H, nh, leaf, l);
        PairsApart(cl, cr, e[l], e[r]);
        x, y := MatchOrCollision(H, nh, e, leaf, l);
        if !Collision(H, x, y) {
          x, y := MatchOrCollision(H, nh, e, leaf, r);
          LeavesMatchSplits(nh, e, leaf, k);
        }
      }
    }
  }

  /** Conversely, matching leaves force every node above them, with no assumption on the hash. */
  lemma {:induction false} LeavesForceNode(H: Digester, nh: nat, e: seq<Hash>, leaf: seq<Hash>, k: nat)
    requires SealedTree(H, nh, e) && |leaf| == nh + 1 && k <= 2 * nh
    requires LeavesMatch(nh, e, leaf, k)
    ensures Recomputed(H, nh, leaf, k) == e[k]
    decreases 2 * nh - k
  {
    var l, r := 2 * k + 1, 2 * k + 2;
    if k < nh {
      LeavesMatchSplits(nh, e, leaf, k);
      LeavesForceNode(H, nh, e, leaf, l);
      LeavesForceNode(H, nh, e, leaf, r);
      assert Recomputed(H, nh, leaf, k) == H(Recomputed(H, nh, leaf, l) + Recomputed(H, nh, leaf, r));
      assert SealedAt(H, e, k);
    } else {
      assert Under(k, k);
    }
  }

  /** No collision between what the package hashed and what the recomputation hashes. */
  ghost predicate NoPairCollision(H: Digester, nh: nat, e: seq<Hash>, leaf: seq<Hash>)
    requires |leaf| == nh + 1 && |e| == 2 * nh + 1
  {
    forall k :: 0 <= k < nh ==> !PairCollides(H, nh, e, leaf, k)
  }

  predicate PairCollides(H: Digester, nh: nat, e: seq<Hash>, leaf: seq<Hash>, k: nat)
    requires |leaf| == nh + 1 && |e| == 2 * nh + 1 && k < nh
  {
    Collision(H, Recomputed(H, nh, leaf, 2 * k + 1) + Recomputed(H, nh, leaf, 2 * k + 2), e[2 * k + 1] + e[2 * k + 2])
  }

  /** Without such a collision a node matches exactly when all the leaves below it do. */
  lemma {:induction false} NodeMatchesIffLeavesDo(H: Digester, nh: nat, e: seq<Hash>, leaf: seq<Hash>, k: nat)
    requires SealedTree(H, nh, e) && |leaf| == nh + 1 && HashLengths(leaf) && k <= 2 * nh
    requires NoPairCollision(H, nh, e, leaf)
    ensures Recomputed(H, nh, leaf, k) == e[k] <==> LeavesMatch(nh, e, leaf, k)
    decreases 2 * nh - k
  {
    var l, r := 2 * k + 1, 2 * k + 2;
    if LeavesMatch(nh, e, leaf, k) {
      LeavesForceNode(H, nh, e, leaf, k);
    } else if k >= nh {
      LeafAlone(nh, k);
    } else if Recomputed(H, nh, leaf, k) == e[k] {
      assert SealedAt(H, e, k) && !PairCollides(H, nh, e, leaf, k);
      RecomputedLength(H, nh, leaf, l);
      PairsApart(Recomputed(H, nh, leaf, l), Recomputed(H, nh, leaf, r), e[l], e[r]);
      NodeMatchesIffLeavesDo(H, nh, e, leaf, l);
      NodeMatchesIffLeavesDo(H, nh, e, leaf, r);
      LeavesMatchSplits(nh, e, leaf, k);
    }
  }

  // From hashes to data.

  lemma {:induction false} ChunkWithin(p: Package, i: nat)
    requires p.Tiled() && i < |p.chunks|
    ensures p.chunks[i].offset + p.chunks[i].size <= p.size
    decreases |p.chunks| - i
  {
    if i < |p.chunks| - 1 {
      ChunkWithin(p, i + 1);
    }
  }

  lemma {:induction false} ChunksApart(p: Package, i: nat, j: nat)
    requires p.Tiled() && i < j < |p.chunks|
    ensures p.chunks[i].offset + p.chunks[i].size <= p.chunks[j].offset
    decreases j - i
  {
    if i + 1 < j {
      ChunksApart(p, i + 1, j);
    }
  }

  function LeafHashes(H: Digester, p: Package, f: seq<byte>): (s: seq<Hash>)
    requires AllReadable(p, f)
    ensures |s| == |p.chunks|
    ensures forall i :: 0 <= i < |s| ==> s[i] == H(ChunkData(f, p.chunks[i])) && |s[i]| == 64
  {
    seq(|p.chunks|, i requires 0 <= i < |p.chunks| => H(ChunkData(f, p.chunks[i])))
  }

  /** The file the package was made from. */
  ghost predicate Original(H: Digester, p: Package, t: seq<byte>) {
    |t| == p.size && AllReadable(p, t) &&
    forall i {:trigger p.chunks[i]} :: 0 <= i < |p.chunks| ==>
      H(ChunkData(t, p.chunks[i])) == p.chunks[i].hash
  }

  ghost predicate SameChunk(f: seq<byte>, t: seq<byte>, c: Chunk) {
    Readable(f, c) && Readable(t, c) && ChunkData(f, c) == ChunkData(t, c)
  }

  function EndOf(c: Chunk): nat {
    c.offset + c.size
  }

  lemma OneTileMore(f: seq<byte>, t: seq<byte>, c: Chunk)
    requires SameChunk(f, t, c) && f[..c.offset] == t[..c.offset]
    ensures f[..EndOf(c)] == t[..EndOf(c)]
  {
    assert f[..EndOf(c)] == f[..c.offset] + ChunkData(f, c);
    assert t[..EndOf(c)] == t[..c.offset] + ChunkData(t, c);
  }

  lemma NextTile(p: Package, i: nat)
    requires p.Tiled() && 0 < i < |p.chunks|
    ensures p.chunks[i].offset == EndOf(p.chunks[i - 1])
  {
    assert p.chunks[i - 1].size > 0 && p.chunks[i - 1 + 1] == p.chunks[i];
  }

  /** Files that agree on every chunk up to the i-th agree up to its end. */
  lemma {:induction false} TilesCoverPrefix(p: Package, f: seq<byte>, t: seq<byte>, i: nat)
    requires p.Tiled() && |t| == p.size && i < |p.chunks|
    requires forall j :: 0 <= j <= i ==> SameChunk(f, t, p.chunks[j])
    ensures EndOf(p.chunks[i]) <= |f| && EndOf(p.chunks[i]) <= |t|
    ensures f[..EndOf(p.chunks[i])] == t[..EndOf(p.chunks[i])]
  {
    assert SameChunk(f, t, p.chunks[i]);
    if i == 0 {
      assert f[..p.chunks[i].offset] == t[..p.chunks[i].offset];
    } else {
      NextTile(p, i);
      TilesCoverPrefix(p, f, t, i - 1);
    }
    OneTileMore(f, t, p.chunks[i]);
  }

  lemma TilesCover(p: Package, f: seq<byte>, t: seq<byte>)
    requires p.Tiled() && |t| == p.size && |f| >= p.size
    requires forall j :: 0 <= j < |p.chunks| ==> SameChunk(f, t, p.chunks[j])
    ensures f[..p.size] == t
  {
    TilesCoverPrefix(p, f, t, |p.chunks| - 1);
    assert t[..p.size] == t;
  }

  /**
   * A file whose recomputed root is the expected one is the file the package was made from, byte for
   * byte, or here are two strings on which the hash collides.
   */
  lemma RootVouchesForFile(H: Digester, p: Package, t: seq<byte>, f: seq<byte>) returns (x: seq<byte>, y: seq<byte>)
    requires p.WellFormed(H) && Original(H, p, t) && |f| >= p.size
    requires AllReadable(p, f)
    requires Recomputed(H, |p.hashes|, LeafHashes(H, p, f), 0) == p.Expected()[0]
    ensures f[..p.size] == t || Collision(H, x, y)
  {
    var nh, e, leaf := |p.hashes|, p.Expected(), LeafHashes(H, p, f);
    if i :| 0 <= i < |p.chunks| && leaf[i] == e[nh + i] && !SameChunk(f, t, p.chunks[i]) {
      x, y := ChunkData(f, p.chunks[i]), ChunkData(t, p.chunks[i]);
    } else {
      x, y := MatchOrCollision(H, nh, e, leaf, 0);
      if LeavesMatch(nh, e, leaf, 0) {
        forall j | 0 <= j < |p.chunks| ensures SameChunk(f, t, p.chunks[j]) {
          UnderRoot(nh + j);
          assert leaf[nh + j - nh] == e[nh + j];
        }
        TilesCover(p, f, t);
      }
    }
  }
}
