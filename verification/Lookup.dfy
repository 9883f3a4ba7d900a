/** Finding a hash in the tree and a chunk in the package, and the answers of the package queries. */
module Lookup {
  import opened Bytes
  import opened Digests
  import opened HeapTree
  import opened Merkle
  import opened Queries

  /** The search of find_hash: the node itself, then its left subtree, then its right one. */
  function FindFrom(nh: nat, e: seq<Hash>, h: Hash, k: nat): (r: Option<nat>)
    requires |e| == 2 * nh + 1 && k <= 2 * nh
    ensures r.Some? ==> r.value <= 2 * nh && e[r.value] == h
    decreases 2 * nh - k
  {
    if e[k] == h then Some(k)
    else if k >= nh then None
    else
      var l := FindFrom(nh, e, h, 2 * k + 1);
      if l.Some? then l else FindFrom(nh, e, h, 2 * k + 2)
  }

  /** r is the first position of the list that carries the hash, or the list has none. */
  ghost predicate IsFirst(s: seq<nat>, e: seq<Hash>, h: Hash, r: Option<nat>)
    requires forall i :: 0 <= i < |s| ==> s[i] < |e|
  {
    match r
    case None => forall i :: 0 <= i < |s| ==> e[s[i]] != h
    case Some(x) => exists i :: 0 <= i < |s| && s[i] == x && e[s[i]] == h && forall j :: 0 <= j < i ==> e[s[j]] != h
  }

  lemma IsFirstJoin(s: seq<nat>, t: seq<nat>, e: seq<Hash>, h: Hash, q: Option<nat>, r: Option<nat>)
    requires forall i :: 0 <= i < |s| ==> s[i] < |e|
    requires forall i :: 0 <= i < |t| ==> t[i] < |e|
    requires IsFirst(s, e, h, q) && IsFirst(t, e, h, r)
    ensures IsFirst(s + t, e, h, if q.Some? then q else r)
  {
    if q.Some? {
      var i :| 0 <= i < |s| && s[i] == q.value && e[s[i]] == h && forall j :: 0 <= j < i ==> e[s[j]] != h;
      assert (s + t)[i] == q.value;
    } else if r.Some? {
      var i :| 0 <= i < |t| && t[i] == r.value && e[t[i]] == h && forall j :: 0 <= j < i ==> e[t[j]] != h;
      assert (s + t)[|s| + i] == r.value;
    }
  }

  lemma IsFirstOfOne(x: nat, e: seq<Hash>, h: Hash)
    requires x < |e|
    ensures IsFirst([x], e, h, if e[x] == h then Some(x) else None)
  {
    assert [x][0] == x;
  }

  lemma {:induction false} FindIsFirstInPreorder(nh: nat, e: seq<Hash>, h: Hash, k: nat)
    requires |e| == 2 * nh + 1 && k <= 2 * nh
    ensures IsFirst(Preorder(nh, k), e, h, FindFrom(nh, e, h, k))
    decreases 2 * nh - k
  {
    hide IsFirst;
    IsFirstOfOne(k, e, h);
    if k < nh {
      var l, r := 2 * k + 1, 2 * k + 2;
      FindIsFirstInPreorder(nh, e, h, l);
      FindIsFirstInPreorder(nh, e, h, r);
      var top := if e[k] == h then Some(k) else None;
      var left := FindFrom(nh, e, h, l);
      IsFirstJoin([k], Preorder(nh, l), e, h, top, left);
      IsFirstJoin([k] + Preorder(nh, l), Preorder(nh, r), e, h,
                  if top.Some? then top else left, FindFrom(nh, e, h, r));
    }
  }

  /** Sound and complete: a hash is not found exactly when no node carries it. */
  lemma FindIsComplete(nh: nat, e: seq<Hash>, h: Hash)
    requires |e| == 2 * nh + 1
    ensures FindFrom(nh, e, h, 0).None? <==> h !in e
  {
    FindIsFirstInPreorder(nh, e, h, 0);
    PreorderVisits(nh, 0);
    if i :| 0 <= i < |e| && e[i] == h {
      UnderRoot(i);
      assert i in Preorder(nh, 0);
    }
  }

  /** When no internal node carries the hash, the search amounts to one over the leaves. */
  lemma {:induction false} FindIsFirstLeaf(nh: nat, e: seq<Hash>, h: Hash, k: nat)
    requires |e| == 2 * nh + 1 && k <= 2 * nh
    requires forall i :: 0 <= i < nh ==> e[i] != h
    ensures IsFirst(Leaves(nh, k), e, h, FindFrom(nh, e, h, k))
    decreases 2 * nh - k
  {
    if k < nh {
      var l, r := 2 * k + 1, 2 * k + 2;
      FindIsFirstLeaf(nh, e, h, l);
      FindIsFirstLeaf(nh, e, h, r);
      IsFirstJoin(Leaves(nh, l), Leaves(nh, r), e, h, FindFrom(nh, e, h, l), FindFrom(nh, e, h, r));
    } else {
      IsFirstOfOne(k, e, h);
    }
  }

  /** The chunk FETCH picks: the first in the chunk array, from the i-th on, that carries the hash. */
  function FirstChunk(p: Package, h: Hash, i: nat): (r: Option<nat>)
    requires i <= |p.chunks|
    ensures r.Some? ==> i <= r.value < |p.chunks| && p.chunks[r.value].hash == h
    ensures r.Some? ==> forall j :: i <= j < r.value ==> p.chunks[j].hash != h
    ensures r.None? ==> forall j :: i <= j < |p.chunks| ==> p.chunks[j].hash != h
    decreases |p.chunks| - i
  {
    if i == |p.chunks| then None
    else if p.chunks[i].hash == h then Some(i)
    else FirstChunk(p, h, i + 1)
  }

  /** The loop over the chunk array in the FETCH branch. */
  method FindChunk(p: Package, h: Hash) returns (r: Option<nat>)
    ensures r == FirstChunk(p, h, 0)
  {
    for i := 0 to |p.chunks|
      invariant FirstChunk(p, h, 0) == FirstChunk(p, h, i)
    {
      if p.chunks[i].hash == h {
        return Some(i);
      }
    }
    return None;
  }

  /** FETCH and find_hash mean the same chunk by this hash. */
  ghost predicate SameTarget(p: Package, h: Hash)
    requires p.FullTree()
  {
    var i := FirstChunk(p, h, 0);
    i.Some? ==> FindFrom(|p.hashes|, p.Expected(), h, 0) == Some(|p.hashes| + i.value)
  }

  lemma IsFirstUnique(s: seq<nat>, e: seq<Hash>, h: Hash, q: Option<nat>, r: Option<nat>)
    requires forall i :: 0 <= i < |s| ==> s[i] < |e|
    requires IsFirst(s, e, h, q) && IsFirst(s, e, h, r)
    ensures q == r
  {
  }

  lemma ChunkRunIsFirst(p: Package, h: Hash)
    requires p.FullTree() && FirstChunk(p, h, 0).Some?
    ensures IsFirst(Range(|p.hashes|, 2 * |p.hashes| + 1), p.Expected(), h, Some(|p.hashes| + FirstChunk(p, h, 0).value))
  {
    var nh, i := |p.hashes|, FirstChunk(p, h, 0).value;
    var s := Range(nh, 2 * nh + 1);
    assert s[i] == nh + i && p.Expected()[s[i]] == h;
    forall j | 0 <= j < i ensures p.Expected()[s[j]] != h {
      assert p.Expected()[nh + j] == p.chunks[j].hash;
    }
  }

  /** In a perfect tree the two searches agree on every hash no internal node carries. */
  lemma PerfectTreeSameTarget(p: Package, h: Hash, height: nat)
    requires p.FullTree() && |p.chunks| == Pow2(height)
    requires h !in p.hashes
    ensures SameTarget(p, h)
  {
    hide Range, LeafRun, FirstChunk, IsFirst;
    var nh, e, first := |p.hashes|, p.Expected(), FirstChunk(p, h, 0);
    if first.Some? {
      FindIsFirstLeaf(nh, e, h, 0);
      PerfectLeaves(nh, height, 0, 0);
      RunOfAll(nh);
      ChunkRunIsFirst(p, h);
      IsFirstUnique(Leaves(nh, 0), e, h, Some(nh + first.value), FindFrom(nh, e, h, 0));
    }
  }

  /** So they do, in a tree of any shape, on a hash that only one position carries. */
  lemma DistinctHashSameTarget(p: Package, h: Hash)
    requires p.FullTree() && NoDuplicates(p.Expected())
    ensures SameTarget(p, h)
  {
    var nh, e, first := |p.hashes|, p.Expected(), FirstChunk(p, h, 0);
    if first.Some? {
      assert e[nh + first.value] == h;
      FindIsComplete(nh, e, h);
      var x := FindFrom(nh, e, h, 0).value;
      assert x == nh + first.value;
    }
  }

  /**
   * They part in a tree of three chunks whose first two are equal: the second stands further left, so
   * find_hash reaches it first, while FETCH takes the first.
   */
  lemma ThreeChunksPart(p: Package, h: Hash)
    requires |p.hashes| == 2 && |p.chunks| == 3 && h !in p.hashes
    requires p.chunks[0].hash == h && p.chunks[1].hash == h
    ensures FirstChunk(p, h, 0) == Some(0)
    ensures FindFrom(2, p.Expected(), h, 0) == Some(3)
    ensures !SameTarget(p, h)
  {
    var e := p.Expected();
    assert e[0] == p.hashes[0] && e[1] == p.hashes[1];
    assert FindFrom(2, e, h, 3) == Some(3);
    assert FindFrom(2, e, h, 1) == Some(3);
  }

  // The answers of the queries.

  function HashesOf(e: seq<Hash>, s: seq<nat>): (r: seq<Hash>)
    requires forall i :: 0 <= i < |s| ==> s[i] < |e|
    ensures |r| == |s|
    ensures forall i :: 0 <= i < |r| ==> r[i] == e[s[i]]
  {
    seq(|s|, i requires 0 <= i < |s| => e[s[i]])
  }

  function CompletedUpTo(H: Digester, p: Package, f: seq<byte>, i: nat): seq<Hash>
    requires ReadableFrom(p, f, 0, i)
  {
    if i == 0 then []
    else
      var c := p.chunks[i - 1];
      CompletedUpTo(H, p, f, i - 1) + (if H(ChunkData(f, c)) == c.hash then [c.hash] else [])
  }

  /** The answer of bpkg_get_completed_chunks. */
  function CompletedChunks(H: Digester, p: Package, file: Option<seq<byte>>): seq<Hash> {
    if file.None? || !AllReadable(p, file.value) then [] else CompletedUpTo(H, p, file.value, |p.chunks|)
  }

  /** The nodes bpkg_get_min_completed_hashes reports. */
  function CompletedNodes(H: Digester, p: Package, file: Option<seq<byte>>): (s: seq<nat>)
    requires p.FullTree()
    ensures forall i :: 0 <= i < |s| ==> s[i] <= 2 * |p.hashes|
  {
    if file.None? || !AllReadable(p, file.value) then []
    else MinCover(|p.hashes|, p.Expected(), AllRecomputed(H, |p.hashes|, LeafHashes(H, p, file.value)), 0)
  }

  /**
   * What bpkg_get_completed_chunks answers for a file that holds every chunk: the hashes of the chunks at some
   * increasing places, which are exactly the places whose data has the expected hash.
   */
  lemma {:induction false} CompletedUpToLists(H: Digester, p: Package, f: seq<byte>, i: nat) returns (at: seq<nat>)
    requires ReadableFrom(p, f, 0, i)
    ensures |at| == |CompletedUpTo(H, p, f, i)|
    ensures forall n :: 0 <= n < |at| ==> at[n] < i && CompletedUpTo(H, p, f, i)[n] == p.chunks[at[n]].hash
    ensures forall m, n :: 0 <= m < n < |at| ==> at[m] < at[n]
    ensures forall c: nat :: c < i ==> (c in at <==> H(ChunkData(f, p.chunks[c])) == p.chunks[c].hash)
  {
    at := [];
    if i > 0 {
      at := CompletedUpToLists(H, p, f, i - 1);
      if H(ChunkData(f, p.chunks[i - 1])) == p.chunks[i - 1].hash {
        at := at + [i - 1];
      }
    }
  }

  /** And it answers nothing without a file, or if some chunk cannot be read from it in full. */
  lemma CompletedOrNothing(H: Digester, p: Package, file: Option<seq<byte>>)
    ensures file.None? || !AllReadable(p, file.value) ==> CompletedChunks(H, p, file) == []
    ensures file.Some? && AllReadable(p, file.value) ==>
              CompletedChunks(H, p, file) == CompletedUpTo(H, p, file.value, |p.chunks|)
  {
  }

  lemma SameElements<T>(a: seq<T>, b: seq<T>)
    requires |a| == |b| && forall i :: 0 <= i < |a| ==> a[i] == b[i]
    ensures a == b
  {
  }

  lemma HashesJoin(e: seq<Hash>, s: seq<nat>, t: seq<nat>)
    requires forall i :: 0 <= i < |s| ==> s[i] < |e|
    requires forall i :: 0 <= i < |t| ==> t[i] < |e|
    ensures HashesOf(e, s + t) == HashesOf(e, s) + HashesOf(e, t)
  {
    SameElements(HashesOf(e, s + t), HashesOf(e, s) + HashesOf(e, t));
  }

  lemma CompleteAlone(e: seq<Hash>, c: seq<Hash>, k: nat)
    requires |e| == |c| && k < |e|
    ensures Complete(e, c, [k]) == if e[k] == c[k] then [k] else []
  {
    assert [k][1..] == [];
  }

  lemma HashesOfOne(e: seq<Hash>, k: nat)
    requires k < |e|
    ensures HashesOf(e, [k]) == [e[k]] && HashesOf(e, []) == []
  {
    SameElements(HashesOf(e, [k]), [e[k]]);
  }

  lemma CompleteOne(e: seq<Hash>, c: seq<Hash>, s: seq<nat>, k: nat)
    requires |e| == |c| && k < |e| && forall i :: 0 <= i < |s| ==> s[i] < |e|
    ensures HashesOf(e, Complete(e, c, s + [k])) == HashesOf(e, Complete(e, c, s)) + (if e[k] == c[k] then [e[k]] else [])
  {
    hide Complete, HashesOf;
    CompleteJoin(e, c, s, [k]);
    CompleteAlone(e, c, k);
    HashesJoin(e, Complete(e, c, s), Complete(e, c, [k]));
    HashesOfOne(e, k);
  }

  lemma {:induction false} CompletedUpToIsComplete(H: Digester, p: Package, f: seq<byte>, c: seq<Hash>, i: nat)
    requires p.FullTree() && AllReadable(p, f) && ReadableFrom(p, f, 0, i)
    requires c == AllRecomputed(H, |p.hashes|, LeafHashes(H, p, f))
    ensures HashesOf(p.Expected(), Complete(p.Expected(), c, Range(|p.hashes|, |p.hashes| + i))) == CompletedUpTo(H, p, f, i)
  {
    hide Complete, HashesOf;
    var nh, e := |p.hashes|, p.Expected();
    if i > 0 {
      CompletedUpToIsComplete(H, p, f, c, i - 1);
      RangeGrows(nh, nh + i - 1);
      CompleteOne(e, c, Range(nh, nh + i - 1), nh + i - 1);
      LeafIsRecomputed(H, p, f, i - 1);
    } else {
      NothingComplete(e, c, nh);
    }
  }

  lemma RangeGrows(a: nat, b: nat)
    requires a <= b
    ensures Range(a, b + 1) == Range(a, b) + [b]
  {
  }

  lemma NothingComplete(e: seq<Hash>, c: seq<Hash>, a: nat)
    requires |e| == |c|
    ensures HashesOf(e, Complete(e, c, Range(a, a))) == []
  {
  }

  lemma LeafIsRecomputed(H: Digester, p: Package, f: seq<byte>, i: nat)
    requires p.FullTree() && AllReadable(p, f) && i < |p.chunks|
    ensures Readable(f, p.chunks[i])
    ensures p.Expected()[|p.hashes| + i] == p.chunks[i].hash
    ensures AllRecomputed(H, |p.hashes|, LeafHashes(H, p, f))[|p.hashes| + i] == H(ChunkData(f, p.chunks[i]))
  {
    assert LeafHashes(H, p, f)[i] == H(ChunkData(f, p.chunks[i]));
  }

  lemma PerfectCoverInFileOrder(H: Digester, nh: nat, e: seq<Hash>, leaf: seq<Hash>, height: nat)
    requires SealedTree(H, nh, e) && |e| == 2 * nh + 1
    requires |leaf| == nh + 1 == Pow2(height) && HashLengths(leaf)
    requires NoPairCollision(H, nh, e, leaf)
    ensures Expand(nh, MinCover(nh, e, AllRecomputed(H, nh, leaf), 0))
            == Complete(e, AllRecomputed(H, nh, leaf), Range(nh, 2 * nh + 1))
  {
    hide SealedTree, NoPairCollision, AllRecomputed, Vouches, LeafRun, Range, Leaves, Complete, Expand, MinCover;
    RecomputedVouches(H, nh, e, leaf);
    CoverExpandsToCompleteLeaves(nh, e, AllRecomputed(H, nh, leaf), 0);
    PerfectLeaves(nh, height, 0, 0);
    RunOfAll(nh);
  }

  lemma RunOfAll(nh: nat)
    ensures LeafRun(nh, 0, nh + 1) == Range(nh, 2 * nh + 1)
  {
  }

  /**
   * In a perfect tree without collisions, the nodes of the one query, each replaced by its leaves, are
   * the answer of the other: the same hashes in the same order. Both are empty when a chunk runs past
   * the end of the file.
   */
  lemma TwoQueriesAgree(H: Digester, p: Package, file: Option<seq<byte>>, height: nat)
    requires p.Sealed(H) && |p.hashes| > 0 && |p.chunks| == Pow2(height)
    requires file.Some? && AllReadable(p, file.value) ==>
               NoPairCollision(H, |p.hashes|, p.Expected(), LeafHashes(H, p, file.value))
    ensures HashesOf(p.Expected(), Expand(|p.hashes|, CompletedNodes(H, p, file))) == CompletedChunks(H, p, file)
    ensures file.Some? && !AllReadable(p, file.value) ==> CompletedChunks(H, p, file) == [] && CompletedNodes(H, p, file) == []
  {
    hide SealedTree, NoPairCollision, AllRecomputed, CompletedUpTo, Complete, Expand, MinCover;
    if file.Some? && AllReadable(p, file.value) {
      PerfectCoverInFileOrder(H, |p.hashes|, p.Expected(), LeafHashes(H, p, file.value), height);
      CompletedUpToIsComplete(H, p, file.value, AllRecomputed(H, |p.hashes|, LeafHashes(H, p, file.value)), |p.chunks|);
    } else {
      ExpandNothing(|p.hashes|);
    }
  }

  lemma ExpandNothing(nh: nat)
    ensures Expand(nh, []) == []
  {
  }

  lemma CoverOfRecomputed(H: Digester, nh: nat, e: seq<Hash>, leaf: seq<Hash>, s: set<nat>)
    requires SealedTree(H, nh, e) && |e| == 2 * nh + 1 && |leaf| == nh + 1 && HashLengths(leaf)
    requires NoPairCollision(H, nh, e, leaf)
    ensures var c := AllRecomputed(H, nh, leaf);
            var cover := MinCover(nh, e, c, 0);
            Antichain(cover) && Expand(nh, cover) == Complete(e, c, Leaves(nh, 0)) &&
            (Covers(nh, e, c, 0, s) ==> |cover| <= |s|)
  {
    hide SealedTree, NoPairCollision, AllRecomputed, Antichain, Covers, Vouches;
    var c := AllRecomputed(H, nh, leaf);
    RecomputedVouches(H, nh, e, leaf);
    MinCoverIsAntichain(nh, e, c, 0);
    CoverExpandsToCompleteLeaves(nh, e, c, 0);
    if Covers(nh, e, c, 0, s) {
      MinCoverIsSmallest(nh, e, c, 0, s);
    }
  }

  /** What bpkg_get_min_completed_hashes promises: the smallest set of nodes for the chunks that are right. */
  lemma MinimumCover(H: Digester, p: Package, f: seq<byte>, s: set<nat>)
    requires p.Sealed(H) && |p.hashes| > 0 && AllReadable(p, f)
    requires NoPairCollision(H, |p.hashes|, p.Expected(), LeafHashes(H, p, f))
    ensures var nh, e, c := |p.hashes|, p.Expected(), AllRecomputed(H, |p.hashes|, LeafHashes(H, p, f));
            var cover := CompletedNodes(H, p, Some(f));
            Antichain(cover) && Expand(nh, cover) == Complete(e, c, Leaves(nh, 0)) &&
            (Covers(nh, e, c, 0, s) ==> |cover| <= |s|)
  {
    hide SealedTree, NoPairCollision, AllRecomputed, MinCover, Antichain, Covers, Expand, Complete, Leaves;
    CoverOfRecomputed(H, |p.hashes|, p.Expected(), LeafHashes(H, p, f), s);
  }

  /** The answer of bpkg_get_all_chunk_hashes_from_hash. */
  function ChunkHashesBelow(p: Package, h: Hash): seq<Hash>
    requires p.FullTree()
  {
    var k := FindFrom(|p.hashes|, p.Expected(), h, 0);
    if k.None? then [] else HashesOf(p.Expected(), Leaves(|p.hashes|, k.value))
  }

  /** A hash no node carries stands for nothing. */
  lemma UnknownHashHasNoChunks(p: Package, h: Hash)
    requires p.FullTree()
    ensures h !in p.Expected() ==> ChunkHashesBelow(p, h) == []
    ensures h !in p.hashes && (forall i :: 0 <= i < |p.chunks| ==> p.chunks[i].hash != h) ==> ChunkHashesBelow(p, h) == []
  {
    FindIsComplete(|p.hashes|, p.Expected(), h);
    if h in p.Expected() {
      var k :| 0 <= k < |p.Expected()| && p.Expected()[k] == h;
      ExpectedIsListed(p, k);
    }
  }

  lemma HashesOfDistinct(e: seq<Hash>, s: seq<nat>)
    requires NoDuplicates(e) && NoDuplicates(s) && forall i :: 0 <= i < |s| ==> s[i] < |e|
    ensures NoDuplicates(HashesOf(e, s))
    ensures forall x: nat :: x < |e| ==> (e[x] in HashesOf(e, s) <==> x in s)
  {
    var r := HashesOf(e, s);
    forall x: nat | x < |e| ensures e[x] in r <==> x in s {
      if x in s {
        var i :| 0 <= i < |s| && s[i] == x;
        assert r[i] == e[x];
      }
      if e[x] in r {
        var i :| 0 <= i < |r| && r[i] == e[x];
        assert s[i] == x;
      }
    }
  }

  lemma ChunkListedIff(p: Package, s: seq<nat>, i: nat)
    requires p.FullTree() && NoDuplicates(p.Expected()) && NoDuplicates(s) && i < |p.chunks|
    requires forall n :: 0 <= n < |s| ==> s[n] < |p.Expected()|
    ensures p.chunks[i].hash in HashesOf(p.Expected(), s) <==> |p.hashes| + i in s
  {
    HashesOfDistinct(p.Expected(), s);
    ExpectedIsListed(p, |p.hashes| + i);
    hide NoDuplicates, HashesOf, Package.Expected;
  }

  lemma ListedIsChunk(p: Package, s: seq<nat>, h: Hash) returns (i: nat)
    requires p.FullTree() && forall n :: 0 <= n < |s| ==> |p.hashes| <= s[n] < |p.Expected()|
    requires h in HashesOf(p.Expected(), s)
    ensures i < |p.chunks| && p.chunks[i].hash == h
  {
    hide Package.Expected, HashesOf;
    var r := HashesOf(p.Expected(), s);
    var j :| 0 <= j < |r| && r[j] == h;
    ExpectedIsListed(p, s[j]);
    i := s[j] - |p.hashes|;
  }

  ghost predicate HashOfSomeChunk(p: Package, h: Hash) {
    exists i :: 0 <= i < |p.chunks| && p.chunks[i].hash == h
  }

  /**
   * In a tree of any shape with distinct hashes, the hash of the k-th node stands for the chunks below it: the
   * hash of each is listed once, and no other hash.
   */
  lemma HashListsChunksBelow(p: Package, k: nat)
    requires p.FullTree() && NoDuplicates(p.Expected()) && k < |p.Expected()|
    ensures var r := ChunkHashesBelow(p, p.Expected()[k]);
            NoDuplicates(r) &&
            (forall i: nat :: i < |p.chunks| ==> (p.chunks[i].hash in r <==> Under(k, |p.hashes| + i))) &&
            forall h :: h in r ==> HashOfSomeChunk(p, h)
  {
    var s := Leaves(|p.hashes|, k);
    OnlyNodeIsFound(|p.hashes|, p.Expected(), k);
    LeavesVisits(|p.hashes|, k);
    HashesOfDistinct(p.Expected(), s);
    hide Leaves, FindFrom, NoDuplicates, Under, Package.Expected, HashesOf;
    forall i: nat | i < |p.chunks|
      ensures p.chunks[i].hash in HashesOf(p.Expected(), s) <==> Under(k, |p.hashes| + i)
    {
      ChunkListedIff(p, s, i);
    }
    forall h | h in HashesOf(p.Expected(), s) ensures HashOfSomeChunk(p, h) {
      var i := ListedIsChunk(p, s, h);
    }
  }

  function ChunkHashes(p: Package, from: nat, to: nat): (r: seq<Hash>)
    requires from <= to <= |p.chunks|
    ensures |r| == to - from
    ensures forall i :: 0 <= i < |r| ==> r[i] == p.chunks[from + i].hash
  {
    seq(to - from, i requires 0 <= i < to - from => p.chunks[from + i].hash)
  }

  lemma {:induction false} Pow2Product(d: nat, h: nat)
    requires d <= h
    ensures Pow2(d) * Pow2(h - d) == Pow2(h)
    decreases d
  {
    if d > 0 {
      Pow2Product(d - 1, h);
      var a, b := Pow2(d - 1), Pow2(h - d);
      assert h - (d - 1) == h - d + 1;
      assert 2 * a * b == a * (2 * b);
    }
  }

  lemma ProductMonotone(a: nat, b: nat, w: nat)
    requires a <= b
    ensures a * w <= b * w
  {
  }

  lemma RunWithin(j: nat, d: nat, h: nat, w: nat)
    requires d <= h && j < Pow2(d) && w == Pow2(h - d)
    ensures 0 <= j * w && j * w + w <= Pow2(h)
  {
    Pow2Product(d, h);
    hide Pow2;
    ProductMonotone(j + 1, Pow2(d), w);
    assert (j + 1) * w == j * w + w;
  }

  /** A hash that only the k-th node carries is found there. */
  lemma OnlyNodeIsFound(nh: nat, e: seq<Hash>, k: nat)
    requires |e| == 2 * nh + 1 && k < |e| && NoDuplicates(e)
    ensures FindFrom(nh, e, e[k], 0) == Some(k)
  {
    FindIsComplete(nh, e, e[k]);
  }

  /** The run of w chunks from a on, when these are the leaves below the only node with this hash. */
  lemma HashOfRun(p: Package, k: nat, a: nat, w: nat)
    requires p.FullTree() && NoDuplicates(p.Expected()) && k < |p.Expected()| && a + w <= |p.chunks|
    requires Leaves(|p.hashes|, k) == Range(|p.hashes| + a, |p.hashes| + a + w)
    ensures ChunkHashesBelow(p, p.Expected()[k]) == ChunkHashes(p, a, a + w)
  {
    hide Range, Leaves, Package.Expected, FindFrom, NoDuplicates, HashesOf, ChunkHashes;
    OnlyNodeIsFound(|p.hashes|, p.Expected(), k);
    RunHashes(p, a, a + w);
  }

  lemma LeavesOfRun(nh: nat, h: nat, d: nat, j: nat, w: nat)
    requires nh + 1 == Pow2(h) && d <= h && j < Pow2(d) && w == Pow2(h - d)
    ensures Pow2(d) - 1 + j <= 2 * nh
    ensures 0 <= j * w && Leaves(nh, Pow2(d) - 1 + j) == Range(nh + j * w, nh + j * w + w)
  {
    hide Range, Pow2, Leaves;
    PerfectLeaves(nh, h, d, j);
    assert 0 <= j * w by {
      ProductMonotone(0, j, w);
    }
  }

  /** The run of w chunks that starts at the j-th multiple of w. */
  function RunAt(p: Package, j: nat, w: nat): (r: seq<Hash>)
    requires j * w + w <= |p.chunks|
    ensures |r| == w
  {
    ChunkHashes(p, j * w, j * w + w)
  }

  lemma RunAtIs(p: Package, j: nat, w: nat, a: nat)
    requires a == j * w && a + w <= |p.chunks|
    ensures RunAt(p, j, w) == ChunkHashes(p, a, a + w)
  {
  }

  /**
   * In a perfect tree, the hash of the j-th node of depth d stands for the j-th run of w = 2^(h-d) chunks: the
   * hash of the root for all of them, that of its left child for the first half.
   */
  lemma HashStandsForRun(p: Package, h: nat, d: nat, j: nat, w: nat)
    requires p.FullTree() && |p.chunks| == Pow2(h) && d <= h && j < Pow2(d) && w == Pow2(h - d)
    requires NoDuplicates(p.Expected())
    ensures Pow2(d) - 1 + j < |p.Expected()| && j * w + w <= |p.chunks|
    ensures ChunkHashesBelow(p, p.Expected()[Pow2(d) - 1 + j]) == RunAt(p, j, w)
  {
    assert |p.Expected()| == 2 * |p.hashes| + 1;
    hide *;
    LeavesOfRun(|p.hashes|, h, d, j, w);
    RunWithin(j, d, h, w);
    var a, k := j * w, Pow2(d) - 1 + j;
    HashOfRun(p, k, a, w);
    RunAtIs(p, j, w, a);
  }

  lemma RunHashes(p: Package, from: nat, to: nat)
    requires p.FullTree() && from <= to <= |p.chunks|
    ensures HashesOf(p.Expected(), Range(|p.hashes| + from, |p.hashes| + to)) == ChunkHashes(p, from, to)
  {
  }
}
