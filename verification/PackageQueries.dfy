/** The recursive functions of src/chk/pkgchk.c over linked nodes, and the package object that owns the tree. */
module PackageQueries {
  import opened Bytes
  import opened Digests
  import opened Sha256
  import opened HeapTree
  import opened Merkle
  import opened Queries
  import opened Lookup
  import opened Verification
  import opened PackageTree

  /** A full tree, of which position k is looked at; past the last position the link is null. */
  ghost predicate Standing(nodes: seq<Node>, nh: nat, e: seq<Hash>, current: Node?, k: nat)
    reads nodes
  {
    Tree(nodes, nh, e) && current == At(nodes, k)
  }

  ghost predicate Tree(nodes: seq<Node>, nh: nat, e: seq<Hash>)
    reads nodes
  {
    |nodes| == |e| == 2 * nh + 1 && Linked(nodes, nh) && Expecting(nodes, e)
  }

  ghost function ComputedHashes(nodes: seq<Node>): (c: seq<Hash>)
    reads nodes
    ensures |c| == |nodes|
    ensures forall k :: 0 <= k < |c| ==> c[k] == nodes[k].computed
  {
    seq(|nodes|, k requires 0 <= k < |nodes| reads nodes => nodes[k].computed)
  }

  ghost function NodesAt(nodes: seq<Node>, s: seq<nat>): (r: seq<Node>)
    requires forall i :: 0 <= i < |s| ==> s[i] < |nodes|
    ensures |r| == |s| && forall i :: 0 <= i < |r| ==> r[i] == nodes[s[i]]
  {
    seq(|s|, i requires 0 <= i < |s| => nodes[s[i]])
  }

  /** Where the walk goes from k: to the children of an internal node, past the end from a leaf. */
  ghost function LeftOf(nh: nat, k: nat): nat {
    if k < nh then 2 * k + 1 else 2 * nh + 1
  }

  ghost function RightOf(nh: nat, k: nat): nat {
    if k < nh then 2 * k + 2 else 2 * nh + 1
  }

  lemma StandingOnChildren(nodes: seq<Node>, nh: nat, e: seq<Hash>, current: Node, k: nat)
    requires Standing(nodes, nh, e, current, k)
    ensures k <= 2 * nh && nodes[k] == current && current.expected == e[k]
    ensures current.isLeaf <==> k >= nh
    ensures Standing(nodes, nh, e, current.left, LeftOf(nh, k))
    ensures Standing(nodes, nh, e, current.right, RightOf(nh, k))
  {
  }

  lemma HashesOfJoin(e: seq<Hash>, s: seq<nat>, t: seq<nat>)
    requires forall i :: 0 <= i < |s| ==> s[i] < |e|
    requires forall i :: 0 <= i < |t| ==> t[i] < |e|
    ensures HashesOf(e, s + t) == HashesOf(e, s) + HashesOf(e, t)
  {
  }

  lemma HashesOfOne(e: seq<Hash>, k: nat)
    requires k < |e|
    ensures HashesOf(e, [k]) == [e[k]]
    ensures HashesOf(e, []) == []
  {
  }

  lemma NodesAtJoin(nodes: seq<Node>, s: seq<nat>, t: seq<nat>, k: nat)
    requires forall i :: 0 <= i < |s| ==> s[i] < |nodes|
    requires forall i :: 0 <= i < |t| ==> t[i] < |nodes|
    requires k < |nodes|
    ensures NodesAt(nodes, s + t + [k]) == NodesAt(nodes, s) + NodesAt(nodes, t) + [nodes[k]]
    ensures NodesAt(nodes, [k]) == [nodes[k]]
  {
  }

  method FindHash(current: Node?, hash: Hash, ghost nodes: seq<Node>, ghost nh: nat, ghost e: seq<Hash>, ghost k: nat)
    returns (target: Node?)
    requires Standing(nodes, nh, e, current, k)
    ensures target == if k <= 2 * nh && FindFrom(nh, e, hash, k).Some?
                      then nodes[FindFrom(nh, e, hash, k).value] else null
    decreases 2 * nh + 1 - k
  {
    if current == null {
      return null;
    }
    if current.expected == hash {
      return current;
    }
    StandingOnChildren(nodes, nh, e, current, k);
    target := FindHash(current.left, hash, nodes, nh, e, LeftOf(nh, k));
    if target != null {
      return target;
    }
    target := FindHash(current.right, hash, nodes, nh, e, RightOf(nh, k));
  }

  ghost function MinCoverHashes(nh: nat, e: seq<Hash>, c: seq<Hash>, k: nat): seq<Hash>
    requires |e| == |c| == 2 * nh + 1
  {
    if k <= 2 * nh then HashesOf(e, MinCover(nh, e, c, k)) else []
  }

  lemma MinCoverHashesSplit(nh: nat, e: seq<Hash>, c: seq<Hash>, k: nat)
    requires |e| == |c| == 2 * nh + 1 && k <= 2 * nh
    ensures e[k] == c[k] ==> MinCoverHashes(nh, e, c, k) == [e[k]]
    ensures e[k] != c[k] ==>
              MinCoverHashes(nh, e, c, k) == MinCoverHashes(nh, e, c, LeftOf(nh, k)) + MinCoverHashes(nh, e, c, RightOf(nh, k))
  {
    hide HashesOf;
    HashesOfOne(e, k);
    if e[k] != c[k] && k < nh {
      HashesOfJoin(e, MinCover(nh, e, c, 2 * k + 1), MinCover(nh, e, c, 2 * k + 2));
    }
  }

  method MinCompletedHashes(current: Node?, ghost nodes: seq<Node>, ghost nh: nat, ghost e: seq<Hash>, ghost k: nat)
    returns (qry: seq<Hash>)
    requires Standing(nodes, nh, e, current, k)
    ensures qry == MinCoverHashes(nh, e, ComputedHashes(nodes), k)
    decreases 2 * nh + 1 - k
  {
    if current == null {
      return [];
    }
    StandingOnChildren(nodes, nh, e, current, k);
    MinCoverHashesSplit(nh, e, ComputedHashes(nodes), k);
    hide Standing, MinCoverHashes, LeftOf, RightOf;
    if current.expected == current.computed {
      return [current.expected];
    }
    var left := MinCompletedHashes(current.left, nodes, nh, e, LeftOf(nh, k));
    var right := MinCompletedHashes(current.right, nodes, nh, e, RightOf(nh, k));
    qry := left + right;
  }

  method AllChunkHashes(current: Node?, ghost nodes: seq<Node>, ghost nh: nat, ghost e: seq<Hash>, ghost k: nat)
    returns (qry: seq<Hash>)
    requires Standing(nodes, nh, e, current, k)
    ensures qry == if k <= 2 * nh then HashesOf(e, Leaves(nh, k)) else []
    decreases 2 * nh + 1 - k
  {
    if current == null {
      return [];
    }
    StandingOnChildren(nodes, nh, e, current, k);
    hide Standing, HashesOf;
    if current.isLeaf {
      HashesOfOne(e, k);
      return [current.expected];
    }
    var left := AllChunkHashes(current.left, nodes, nh, e, LeftOf(nh, k));
    var right := AllChunkHashes(current.right, nodes, nh, e, RightOf(nh, k));
    HashesOfJoin(e, Leaves(nh, 2 * k + 1), Leaves(nh, 2 * k + 2));
    qry := left + right;
  }

  /** Frees the subtree, children first; freed lists the nodes in the order free is called on them. */
  method TreeDestroy(root: Node?, ghost nodes: seq<Node>, ghost nh: nat, ghost e: seq<Hash>, ghost k: nat)
    returns (freed: seq<Node>)
    requires Standing(nodes, nh, e, root, k)
    ensures |nodes| == 2 * nh + 1
    ensures freed == if k <= 2 * nh then NodesAt(nodes, Postorder(nh, k)) else []
    decreases 2 * nh + 1 - k
  {
    if root == null {
      return [];
    }
    StandingOnChildren(nodes, nh, e, root, k);
    hide Standing, NodesAt;
    var left := TreeDestroy(root.left, nodes, nh, e, LeftOf(nh, k));
    var right := TreeDestroy(root.right, nodes, nh, e, RightOf(nh, k));
    if k < nh {
      NodesAtJoin(nodes, Postorder(nh, 2 * k + 1), Postorder(nh, 2 * k + 2), k);
    } else {
      NodesAtJoin(nodes, [], [], k);
    }
    freed := left + right + [root];
  }

  /** The computed hashes once those below k have been recomputed from the leaves; the others stay. */
  ghost function Below(H: Digester, nh: nat, leaf: seq<Hash>, was: seq<Hash>, k: nat): (c: seq<Hash>)
    requires |was| == 2 * nh + 1 && |leaf| == nh + 1
    ensures |c| == |was|
    ensures forall x :: 0 <= x < |c| ==> c[x] == if Under(k, x) then Recomputed(H, nh, leaf, x) else was[x]
  {
    seq(|was|, x requires 0 <= x < |was| => if Under(k, x) then Recomputed(H, nh, leaf, x) else was[x])
  }

  ghost predicate LeavesAre(was: seq<Hash>, nh: nat, leaf: seq<Hash>) {
    |was| == 2 * nh + 1 && |leaf| == nh + 1 && HashLengths(leaf) &&
    forall i :: 0 <= i <= nh ==> was[nh + i] == leaf[i]
  }

  lemma BelowKeepsLeaves(H: Digester, nh: nat, leaf: seq<Hash>, was: seq<Hash>, k: nat)
    requires LeavesAre(was, nh, leaf)
    ensures LeavesAre(Below(H, nh, leaf, was, k), nh, leaf)
    ensures k >= nh ==> Below(H, nh, leaf, was, k) == was
  {
    if nh <= k <= 2 * nh {
      LeafAlone(nh, k);
    } else if k > 2 * nh {
      forall x: nat | x <= 2 * nh ensures !Under(k, x) {
        UnderBounds(k, x);
      }
    }
  }

  lemma RecomputedStep(H: Digester, nh: nat, leaf: seq<Hash>, k: nat, l: nat, r: nat)
    requires |leaf| == nh + 1 && HashLengths(leaf) && k < nh && l == 2 * k + 1 && r == 2 * k + 2
    ensures Recomputed(H, nh, leaf, k) == H(Recomputed(H, nh, leaf, l) + Recomputed(H, nh, leaf, r))
    ensures |Recomputed(H, nh, leaf, l)| == |Recomputed(H, nh, leaf, r)| == 64
  {
    RecomputedLength(H, nh, leaf, l);
    RecomputedLength(H, nh, leaf, r);
  }

  lemma BelowElsewhere(H: Digester, nh: nat, leaf: seq<Hash>, was: seq<Hash>, k: nat, l: nat, r: nat, x: nat)
    requires |was| == 2 * nh + 1 && |leaf| == nh + 1 && l == 2 * k + 1 && r == 2 * k + 2
    requires x < |was| && x != k
    ensures Below(H, nh, leaf, was, k)[x] == Below(H, nh, leaf, Below(H, nh, leaf, was, l), r)[x]
  {
    UnderSplits(k, x);
    hide Recomputed, Under;
  }

  lemma BelowAtChildren(H: Digester, nh: nat, leaf: seq<Hash>, was: seq<Hash>, k: nat, l: nat, r: nat)
    requires |was| == 2 * nh + 1 && |leaf| == nh + 1 && k < nh && l == 2 * k + 1 && r == 2 * k + 2
    ensures var c := Below(H, nh, leaf, Below(H, nh, leaf, was, l), r);
            c[l] == Recomputed(H, nh, leaf, l) && c[r] == Recomputed(H, nh, leaf, r)
    ensures Below(H, nh, leaf, was, k)[k] == Recomputed(H, nh, leaf, k)
  {
    hide Recomputed;
    UnderBounds(r, l);
    assert Under(l, l) && Under(r, r) && Under(k, k);
  }

  lemma BelowSplits(H: Digester, nh: nat, leaf: seq<Hash>, was: seq<Hash>, k: nat, l: nat, r: nat)
    requires LeavesAre(was, nh, leaf) && k < nh && l == 2 * k + 1 && r == 2 * k + 2
    ensures var c := Below(H, nh, leaf, Below(H, nh, leaf, was, l), r);
            |c[l]| == |c[r]| == 64 &&
            Below(H, nh, leaf, was, k) == c[k := H(c[l] + c[r])]
  {
    var c := Below(H, nh, leaf, Below(H, nh, leaf, was, l), r);
    var now := Below(H, nh, leaf, was, k);
    RecomputedStep(H, nh, leaf, k, l, r);
    BelowAtChildren(H, nh, leaf, was, k, l, r);
    hide *;
    forall x: nat | x < |now| && x != k ensures now[x] == c[x] {
      BelowElsewhere(H, nh, leaf, was, k, l, r, x);
    }
    UpdatedAt(now, c, k);
  }

  lemma UpdatedAt<T>(now: seq<T>, c: seq<T>, k: nat)
    requires |now| == |c| && k < |c|
    requires forall x: nat :: x < |c| && x != k ==> now[x] == c[x]
    ensures now == c[k := now[k]]
  {
  }

  method StoreHash(node: Node, hash: Hash, ghost nodes: seq<Node>, ghost k: nat)
    requires NoDuplicates(nodes) && k < |nodes| && node == nodes[k]
    modifies node`computed
    ensures ComputedHashes(nodes) == old(ComputedHashes(nodes))[k := hash]
  {
    node.computed := hash;
    forall x | 0 <= x < |nodes| ensures nodes[x].computed == if x == k then hash else old(nodes[x].computed) {
    }
  }

  method SetComputed(node: Node, hash: Hash, ghost nodes: seq<Node>, ghost nh: nat, ghost e: seq<Hash>, ghost k: nat)
    requires Tree(nodes, nh, e) && k < |nodes| && node == nodes[k]
    modifies node`computed
    ensures Tree(nodes, nh, e)
    ensures ComputedHashes(nodes) == old(ComputedHashes(nodes))[k := hash]
  {
    hide ComputedHashes;
    StoreHash(node, hash, nodes, k);
  }

  /** The end of bpkg_compute_hashes: a node's hash becomes that of the two hashes below it. */
  method HashChildren(current: Node, ghost nodes: seq<Node>, ghost nh: nat, ghost e: seq<Hash>, ghost k: nat)
    requires Tree(nodes, nh, e) && k < nh && current == nodes[k]
    requires |nodes[2 * k + 1].computed| == |nodes[2 * k + 2].computed| == 64
    modifies current`computed
    ensures Tree(nodes, nh, e)
    ensures var c := old(ComputedHashes(nodes));
            ComputedHashes(nodes) == c[k := Sha256Hex(c[2 * k + 1] + c[2 * k + 2])]
  {
    assert current.left == nodes[2 * k + 1] && current.right == nodes[2 * k + 2];
    hide Tree;
    var combined := current.left.computed + current.right.computed;
    var finalHash := HashBytes(combined);
    SetComputed(current, finalHash, nodes, nh, e, k);
  }

  /** Recomputes the internal hashes below a node from the bottom up, in place. */
  method ComputeHashes(current: Node?, ghost nodes: seq<Node>, ghost nh: nat, ghost e: seq<Hash>, ghost k: nat,
                       ghost leaf: seq<Hash>)
    requires Tree(nodes, nh, e) && |nodes| == 2 * nh + 1 && k <= 2 * nh && current == nodes[k]
    requires LeavesAre(ComputedHashes(nodes), nh, leaf)
    modifies (set n | n in nodes)`computed
    ensures Tree(nodes, nh, e)
    ensures ComputedHashes(nodes) == Below(Sha256Hex, nh, leaf, old(ComputedHashes(nodes)), k)
    decreases 2 * nh + 1 - k
  {
    if current == null {
      return;
    }
    ghost var was := ComputedHashes(nodes);
    StandingOnChildren(nodes, nh, e, current, k);
    if current.isLeaf {
      BelowKeepsLeaves(Sha256Hex, nh, leaf, was, k);
      return;
    }
    ghost var l, r := 2 * k + 1, 2 * k + 2;
    assert k < nh && current.left == nodes[l] && current.right == nodes[r];
    BelowKeepsLeaves(Sha256Hex, nh, leaf, was, l);
    BelowSplits(Sha256Hex, nh, leaf, was, k, l, r);
    hide *;
    ComputeHashes(current.left, nodes, nh, e, l, leaf);
    ComputeHashes(current.right, nodes, nh, e, r, leaf);
    assert |ComputedHashes(nodes)[l]| == |ComputedHashes(nodes)[r]| == 64;
    HashChildren(current, nodes, nh, e, k);
  }

  lemma LeavesHashedStep(H: Digester, p: Package, f: seq<byte>, c: seq<Hash>, m: nat)
    requires ReadableFrom(p, f, 0, m + 1) && |c| == |p.hashes| + |p.chunks|
    ensures LeavesHashed(H, p, f, c, m + 1)
            == LeavesHashed(H, p, f, c, m)[|p.hashes| + m := H(ChunkData(f, p.chunks[m]))]
  {
    UpdatedAt(LeavesHashed(H, p, f, c, m + 1), LeavesHashed(H, p, f, c, m), |p.hashes| + m);
  }

  lemma NoLeavesHashed(H: Digester, p: Package, f: seq<byte>, c: seq<Hash>)
    ensures ReadableFrom(p, f, 0, 0)
    ensures LeavesHashed(H, p, f, c, 0) == c
  {
  }

  /** Once every leaf is hashed, recomputing below the root leaves the fully recomputed hashes. */
  lemma HashedThenRecomputed(H: Digester, p: Package, f: seq<byte>, c: seq<Hash>)
    requires p.FullTree() && |c| == 2 * |p.hashes| + 1 && AllReadable(p, f) && ReadableFrom(p, f, 0, |p.chunks|)
    ensures LeavesAre(LeavesHashed(H, p, f, c, |p.chunks|), |p.hashes|, LeafHashes(H, p, f))
    ensures Below(H, |p.hashes|, LeafHashes(H, p, f), LeavesHashed(H, p, f, c, |p.chunks|), 0)
            == AllRecomputed(H, |p.hashes|, LeafHashes(H, p, f))
  {
    hide Recomputed;
    forall x: nat | x <= 2 * |p.hashes| ensures Under(0, x) {
      UnderRoot(x);
    }
  }

  lemma ShortFile(H: Digester, p: Package, f: seq<byte>, c: seq<Hash>)
    requires p.FullTree() && |c| == 2 * |p.hashes| + 1 && FirstUnreadable(p, f, 0) < |p.chunks|
    ensures AfterVerify(H, p, Some(f), c) == LeavesHashed(H, p, f, c, FirstUnreadable(p, f, 0))
    ensures HashesOf(p.Expected(), CompletedNodes(H, p, Some(f))) == []
  {
    hide LeavesHashed, AllRecomputed;
  }

  lemma FullFile(H: Digester, p: Package, f: seq<byte>, c: seq<Hash>)
    requires p.FullTree() && |c| == 2 * |p.hashes| + 1 && FirstUnreadable(p, f, 0) == |p.chunks|
    ensures AllReadable(p, f) && ReadableFrom(p, f, 0, |p.chunks|)
    ensures AfterVerify(H, p, Some(f), c) == AllRecomputed(H, |p.hashes|, LeafHashes(H, p, f))
    ensures CompletedNodes(H, p, Some(f)) == MinCover(|p.hashes|, p.Expected(), AllRecomputed(H, |p.hashes|, LeafHashes(H, p, f)), 0)
  {
    hide LeavesHashed, AllRecomputed, MinCover;
  }

  lemma StopsShort(H: Digester, p: Package, f: seq<byte>, i: nat)
    requires i < |p.chunks| && |f| < p.chunks[i].offset + p.chunks[i].size
    ensures CompletedChunks(H, p, Some(f)) == []
  {
    hide CompletedUpTo;
  }

  lemma ReadableOneMore(p: Package, f: seq<byte>, i: nat)
    requires p.ReadableChunks() && i < |p.chunks| && ReadableFrom(p, f, 0, i)
    requires p.chunks[i].offset + p.chunks[i].size <= |f|
    ensures ReadableFrom(p, f, 0, i + 1) && p.chunks[i].size < 0x8000_0000
  {
  }

  lemma CompletedSoFar(H: Digester, p: Package, f: seq<byte>)
    ensures ReadableFrom(p, f, 0, 0) && CompletedUpTo(H, p, f, 0) == []
    ensures ReadableFrom(p, f, 0, |p.chunks|) ==> CompletedChunks(H, p, Some(f)) == CompletedUpTo(H, p, f, |p.chunks|)
  {
  }

  /** A loaded package: struct bpkg_obj with its tree. */
  class PackageObj {
    const pkg: Package
    const chunkNode: array<Node?>
    var root: Node
    ghost var nodes: seq<Node>

    ghost predicate Valid()
      reads this, chunkNode, nodes
    {
      pkg.FullTree() && |pkg.hashes| > 0 &&
      |nodes| == 2 * |pkg.hashes| + 1 && Tree(nodes, |pkg.hashes|, pkg.Expected()) && root == nodes[0] &&
      chunkNode.Length == |pkg.chunks| &&
      forall i :: 0 <= i < |pkg.chunks| ==> chunkNode[i] == nodes[|pkg.hashes| + i]
    }

    constructor (p: Package)
      requires p.FullTree() && |p.hashes| > 0
      ensures Valid() && pkg == p
      ensures fresh(chunkNode) && forall k :: 0 <= k < |nodes| ==> fresh(nodes[k])
    {
      pkg := p;
      var links := new Node?[|p.chunks|](i => null);
      chunkNode := links;
      var top, _, built := BuildMerkleTree(p, links);
      root, nodes := top, built;
    }

    ghost function Computed(): (c: seq<Hash>)
      requires Valid()
      reads this, chunkNode, nodes
      ensures |c| == 2 * |pkg.hashes| + 1
    {
      ComputedHashes(nodes)
    }

    method StoreLeaf(i: nat, hash: Hash)
      requires Valid() && i < |pkg.chunks|
      modifies (set n | n in nodes)`computed
      ensures Valid()
      ensures Computed() == old(Computed())[|pkg.hashes| + i := hash]
    {
      hide Tree;
      SetComputed(chunkNode[i], hash, nodes, |pkg.hashes|, pkg.Expected(), |pkg.hashes| + i);
    }

    /** Hashes one chunk of the file and stores the result in its leaf. */
    method HashLeaf(f: seq<byte>, i: nat)
      requires Valid() && i < |pkg.chunks|
      requires Readable(f, pkg.chunks[i]) && pkg.chunks[i].size < 0x8000_0000
      modifies (set n | n in nodes)`computed
      ensures Valid()
      ensures Computed() == old(Computed())[|pkg.hashes| + i := Sha256Hex(ChunkData(f, pkg.chunks[i]))]
    {
      hide Valid, Computed;
      var data := ChunkData(f, pkg.chunks[i]);
      hide *;
      var finalHash := HashBytes(data);
      StoreLeaf(i, finalHash);
    }

    /** Hashes the chunks in turn into their leaves, and gives up at the first that cannot be read in full. */
    method HashLeaves(f: seq<byte>) returns (m: nat)
      requires Valid() && pkg.ReadableChunks()
      modifies (set n | n in nodes)`computed
      ensures Valid()
      ensures m == FirstUnreadable(pkg, f, 0)
      ensures Computed() == LeavesHashed(Sha256Hex, pkg, f, old(Computed()), m)
    {
      ghost var was := Computed();
      NoLeavesHashed(Sha256Hex, pkg, f, was);
      hide Valid, Computed, LeavesHashed;
      m := 0;
      while m < |pkg.chunks|
        invariant m <= |pkg.chunks| && Valid() && ReadableFrom(pkg, f, 0, m)
        invariant FirstUnreadable(pkg, f, 0) == FirstUnreadable(pkg, f, m)
        invariant Computed() == LeavesHashed(Sha256Hex, pkg, f, was, m)
      {
        if |f| < pkg.chunks[m].offset + pkg.chunks[m].size {
          return;
        }
        LeavesHashedStep(Sha256Hex, pkg, f, was, m);
        HashLeaf(f, m);
        m := m + 1;
      }
    }

    method RecomputeTree(ghost leaf: seq<Hash>)
      requires Valid() && LeavesAre(Computed(), |pkg.hashes|, leaf)
      modifies (set n | n in nodes)`computed
      ensures Valid()
      ensures Computed() == Below(Sha256Hex, |pkg.hashes|, leaf, old(Computed()), 0)
    {
      hide Below, Recomputed;
      ComputeHashes(root, nodes, |pkg.hashes|, pkg.Expected(), 0, leaf);
    }

    method CompletedFromRoot() returns (qry: seq<Hash>)
      requires Valid()
      ensures qry == HashesOf(pkg.Expected(), MinCover(|pkg.hashes|, pkg.Expected(), Computed(), 0))
    {
      hide MinCover, HashesOf;
      qry := MinCompletedHashes(root, nodes, |pkg.hashes|, pkg.Expected(), 0);
    }

    method RecomputeAndLook(ghost f: seq<byte>, ghost was: seq<Hash>) returns (qry: seq<Hash>)
      requires Valid() && pkg.FullTree() && |was| == 2 * |pkg.hashes| + 1
      requires AllReadable(pkg, f) && ReadableFrom(pkg, f, 0, |pkg.chunks|)
      requires Computed() == LeavesHashed(Sha256Hex, pkg, f, was, |pkg.chunks|)
      modifies (set n | n in nodes)`computed
      ensures Valid()
      ensures Computed() == AllRecomputed(Sha256Hex, |pkg.hashes|, LeafHashes(Sha256Hex, pkg, f))
      ensures qry == HashesOf(pkg.Expected(), MinCover(|pkg.hashes|, pkg.Expected(), Computed(), 0))
    {
      hide *;
      HashedThenRecomputed(Sha256Hex, pkg, f, was);
      RecomputeTree(LeafHashes(Sha256Hex, pkg, f));
      qry := CompletedFromRoot();
    }

    /** The check of a file that is there: hash the chunks, and if all could be read recompute and look. */
    method CheckFile(f: seq<byte>) returns (qry: seq<Hash>)
      requires Valid() && pkg.FullTree() && pkg.ReadableChunks()
      modifies (set n | n in nodes)`computed
      ensures Valid()
      ensures Computed() == AfterVerify(Sha256Hex, pkg, Some(f), old(Computed()))
      ensures qry == HashesOf(pkg.Expected(), CompletedNodes(Sha256Hex, pkg, Some(f)))
    {
      ghost var was := Computed();
      hide *;
      var m := HashLeaves(f);
      if m < |pkg.chunks| {
        ShortFile(Sha256Hex, pkg, f, was);
        qry := [];
      } else {
        FullFile(Sha256Hex, pkg, f, was);
        qry := RecomputeAndLook(f, was);
      }
    }

    method GetMinCompletedHashes(file: Option<seq<byte>>) returns (qry: seq<Hash>)
      requires Valid() && pkg.FullTree() && pkg.ReadableChunks()
      modifies (set n | n in nodes)`computed
      ensures Valid()
      ensures Computed() == AfterVerify(Sha256Hex, pkg, file, old(Computed()))
      ensures qry == HashesOf(pkg.Expected(), CompletedNodes(Sha256Hex, pkg, file))
    {
      hide Valid, Computed, MinCover, LeavesHashed, HashesOf, AllRecomputed, LeafHashes, Package.ReadableChunks;
      NothingFound(pkg.Expected());
      if file.None? {
        return [];
      }
      qry := CheckFile(file.value);
    }

    /** Adds the hash of the i-th chunk when its data has it. */
    method AddIfComplete(f: seq<byte>, i: nat, found: seq<Hash>) returns (qry: seq<Hash>)
      requires ReadableFrom(pkg, f, 0, i + 1) && pkg.chunks[i].size < 0x8000_0000
      requires found == CompletedUpTo(Sha256Hex, pkg, f, i)
      ensures qry == CompletedUpTo(Sha256Hex, pkg, f, i + 1)
    {
      var finalHash := HashBytes(ChunkData(f, pkg.chunks[i]));
      qry := found;
      if finalHash == pkg.chunks[i].hash {
        qry := qry + [finalHash];
      }
    }

    method CompletedInFile(f: seq<byte>) returns (qry: seq<Hash>)
      requires pkg.ReadableChunks()
      ensures qry == CompletedChunks(Sha256Hex, pkg, Some(f))
    {
      hide *;
      qry := [];
      CompletedSoFar(Sha256Hex, pkg, f);
      for i := 0 to |pkg.chunks|
        invariant ReadableFrom(pkg, f, 0, i)
        invariant qry == CompletedUpTo(Sha256Hex, pkg, f, i)
      {
        if |f| < pkg.chunks[i].offset + pkg.chunks[i].size {
          StopsShort(Sha256Hex, pkg, f, i);
          return [];
        }
        ReadableOneMore(pkg, f, i);
        qry := AddIfComplete(f, i, qry);
      }
      CompletedSoFar(Sha256Hex, pkg, f);
    }

    method GetCompletedChunks(file: Option<seq<byte>>) returns (qry: seq<Hash>)
      requires pkg.ReadableChunks()
      ensures qry == CompletedChunks(Sha256Hex, pkg, file)
    {
      if file.None? {
        return [];
      }
      qry := CompletedInFile(file.value);
    }

    method GetAllChunkHashesFromHash(hash: Hash) returns (qry: seq<Hash>)
      requires Valid()
      ensures qry == ChunkHashesBelow(pkg, hash)
    {
      hide HashesOf, Leaves;
      var target := FindHash(root, hash, nodes, |pkg.hashes|, pkg.Expected(), 0);
      if target == null {
        return [];
      }
      qry := AllChunkHashes(target, nodes, |pkg.hashes|, pkg.Expected(), FindFrom(|pkg.hashes|, pkg.Expected(), hash, 0).value);
    }

    /** Frees every node of the tree, none of them twice, and each after its children. */
    method Destroy() returns (freed: seq<Node>)
      requires Valid()
      ensures NoDuplicates(freed)
      ensures forall n :: n in freed <==> n in nodes
      ensures forall k {:trigger nodes[k].left} {:trigger nodes[k].right} :: 0 <= k < |pkg.hashes| ==>
                FreedBefore(freed, nodes[k].left, nodes[k]) && FreedBefore(freed, nodes[k].right, nodes[k])
    {
      ghost var nh := |pkg.hashes|;
      freed := TreeDestroy(root, nodes, nh, pkg.Expected(), 0);
      EachNodeOnce(nodes, nh);
      forall k {:trigger nodes[k].left} {:trigger nodes[k].right} | 0 <= k < nh
        ensures FreedBefore(freed, nodes[k].left, nodes[k]) && FreedBefore(freed, nodes[k].right, nodes[k])
      {
        ChildrenFreedFirst(nodes, nh, pkg.Expected(), k, 2 * k + 1, 2 * k + 2);
      }
    }
  }

  ghost predicate FreedBefore(freed: seq<Node>, a: Node?, b: Node) {
    exists i, j :: 0 <= i < j < |freed| && freed[i] == a && freed[j] == b
  }

  lemma ChildrenFreedFirst(nodes: seq<Node>, nh: nat, e: seq<Hash>, k: nat, l: nat, r: nat)
    requires Tree(nodes, nh, e) && k < nh && l == 2 * k + 1 && r == 2 * k + 2
    ensures FreedBefore(NodesAt(nodes, Postorder(nh, 0)), nodes[k].left, nodes[k])
    ensures FreedBefore(NodesAt(nodes, Postorder(nh, 0)), nodes[k].right, nodes[k])
  {
    assert nodes[k].left == nodes[l] && nodes[k].right == nodes[r];
    UnderRoot(k);
    assert Under(k, k) && Under(k, l) && Under(k, r);
    hide Tree, Postorder;
    PostorderChildrenFirst(nh, 0, k, l);
    PostorderChildrenFirst(nh, 0, k, r);
    NodesBefore(nodes, Postorder(nh, 0), l, k);
    NodesBefore(nodes, Postorder(nh, 0), r, k);
  }

  lemma NodesBefore(nodes: seq<Node>, s: seq<nat>, x: nat, y: nat)
    requires forall i :: 0 <= i < |s| ==> s[i] < |nodes|
    requires Before(s, x, y) && x < |nodes| && y < |nodes|
    ensures FreedBefore(NodesAt(nodes, s), nodes[x], nodes[y])
  {
    var i, j :| 0 <= i < j < |s| && s[i] == x && s[j] == y;
    assert NodesAt(nodes, s)[i] == nodes[x] && NodesAt(nodes, s)[j] == nodes[y];
  }

  lemma EachNodeOnce(nodes: seq<Node>, nh: nat)
    requires NoDuplicates(nodes) && |nodes| == 2 * nh + 1
    ensures NoDuplicates(NodesAt(nodes, Postorder(nh, 0)))
    ensures forall n :: n in NodesAt(nodes, Postorder(nh, 0)) <==> n in nodes
  {
    var s := Postorder(nh, 0);
    PostorderVisits(nh, 0);
    forall n | n in nodes ensures n in NodesAt(nodes, s) {
      var k :| 0 <= k < |nodes| && nodes[k] == n;
      UnderRoot(k);
      assert k in s;
      var i :| 0 <= i < |s| && s[i] == k;
      assert NodesAt(nodes, s)[i] == n;
    }
  }

  lemma NothingFound(e: seq<Hash>)
    ensures HashesOf(e, []) == []
  {
  }
}
