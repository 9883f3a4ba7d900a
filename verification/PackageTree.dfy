/** The tree of a package as linked nodes: building it, and the traversals over it, in src/chk/pkgchk.c. */
module PackageTree {
  import opened Bytes
  import opened Digests
  import opened HeapTree
  import opened Merkle

  class Node {
    var left: Node?
    var right: Node?
    var isLeaf: bool
    var expected: Hash
    /** Left as malloc gives it until a hash is computed. */
    var computed: Hash

    constructor (hash: Hash, isLeaf: bool)
      ensures left == null && right == null && this.isLeaf == isLeaf && expected == hash
    {
      left, right := null, null;
      this.isLeaf, expected := isLeaf, hash;
      computed := *;
    }
  }

  /** The node at a position, or null past the last one. */
  ghost function At(nodes: seq<Node>, k: nat): Node? {
    if k < |nodes| then nodes[k] else null
  }

  /**
   * The nodes, in level order, form a heap: the first nh are internal and hold their children at
   * 2k + 1 and 2k + 2, the others are leaves.
   */
  ghost predicate Linked(nodes: seq<Node>, nh: nat)
    reads nodes
  {
    NoDuplicates(nodes) &&
    forall k {:trigger nodes[k].left} {:trigger nodes[k].right} {:trigger nodes[k].isLeaf} :: 0 <= k < |nodes| ==>
      (nodes[k].isLeaf <==> k >= nh) &&
      nodes[k].left == (if k < nh then At(nodes, 2 * k + 1) else null) &&
      nodes[k].right == (if k < nh then At(nodes, 2 * k + 2) else null)
  }

  ghost predicate Expecting(nodes: seq<Node>, e: seq<Hash>)
    reads nodes
  {
    |nodes| <= |e| && forall k :: 0 <= k < |nodes| ==> nodes[k].expected == e[k]
  }

  /** Links a new node under the parent of its position, as both loops of the construction do. */
  method Attach(layers: array<Node?>, nh: nat, hash: Hash, isLeaf: bool, i: nat, ghost nodes: seq<Node>)
    returns (node: Node)
    requires 0 < i == |nodes| && layers.Length == nh && (i - 1) / 2 < nh
    requires Linked(nodes, nh) && (isLeaf <==> i >= nh)
    requires forall k :: 0 <= k < nh && k < |nodes| ==> layers[k] == nodes[k]
    modifies nodes
    ensures fresh(node) && node.expected == hash
    ensures Linked(nodes + [node], nh)
    ensures forall k :: 0 <= k < |nodes| ==> nodes[k].expected == old(nodes[k].expected)
  {
    var parent := layers[(i - 1) / 2];
    node := new Node(hash, isLeaf);
    assert parent == nodes[(i - 1) / 2];
    if i % 2 != 0 {
      parent.left := node;
    } else {
      parent.right := node;
    }
    ghost var now := nodes + [node];
    forall k | 0 <= k < |now|
      ensures now[k].isLeaf <==> k >= nh
      ensures now[k].left == if k < nh then At(now, 2 * k + 1) else null
      ensures now[k].right == if k < nh then At(now, 2 * k + 2) else null
    {
      if k < |nodes| {
        assert now[k] == nodes[k];
        assert nodes[k] == parent <==> k == (i - 1) / 2;
      }
    }
  }

  /** The loop over the internal hashes. */
  method AttachHashes(p: Package, layers: array<Node?>, root: Node) returns (ghost nodes: seq<Node>)
    requires |p.hashes| > 0 && layers.Length == |p.hashes|
    requires layers[0] == root && Linked([root], |p.hashes|) && root.expected == p.hashes[0]
    modifies layers, root
    ensures |nodes| == |p.hashes| && nodes[0] == root
    ensures forall k :: 1 <= k < |nodes| ==> fresh(nodes[k])
    ensures Linked(nodes, |p.hashes|) && Expecting(nodes, p.Expected())
    ensures forall k :: 0 <= k < |nodes| ==> layers[k] == nodes[k]
  {
    hide Linked;
    var nh := |p.hashes|;
    nodes := [root];
    var currentNode := 1;
    for i := 1 to nh
      invariant currentNode == i == |nodes| && nodes[0] == root
      invariant forall k :: 1 <= k < |nodes| ==> fresh(nodes[k])
      invariant forall k :: 0 <= k < i ==> layers[k] == nodes[k]
      invariant Linked(nodes, nh) && Expecting(nodes, p.Expected())
    {
      var node := Attach(layers, nh, p.hashes[i], false, i, nodes);
      nodes := nodes + [node];
      layers[currentNode] := node;
      currentNode := currentNode + 1;
    }
  }

  /** One turn of the loop over the chunks. */
  method AttachChunk(p: Package, layers: array<Node?>, chunkNode: array<Node?>, i: nat, ghost nodes: seq<Node>)
    returns (node: Node)
    requires 0 < |p.hashes| == layers.Length && |p.chunks| <= |p.hashes| + 1 && i < |p.chunks| == chunkNode.Length
    requires chunkNode != layers && |nodes| == |p.hashes| + i
    requires Linked(nodes, |p.hashes|) && Expecting(nodes, p.Expected())
    requires forall k :: 0 <= k < layers.Length ==> layers[k] == nodes[k]
    modifies chunkNode, nodes
    ensures fresh(node) && Linked(nodes + [node], |p.hashes|) && Expecting(nodes + [node], p.Expected())
    ensures chunkNode[..] == old(chunkNode[..])[i := node]
  {
    node := Attach(layers, |p.hashes|, p.chunks[i].hash, true, |p.hashes| + i, nodes);
    hide Linked;
    chunkNode[i] := node;
  }

  /** The loop over the chunks. */
  method AttachChunks(p: Package, layers: array<Node?>, chunkNode: array<Node?>, ghost internal: seq<Node>)
    returns (ghost nodes: seq<Node>)
    requires 0 < |p.hashes| == |internal| == layers.Length && |p.chunks| <= |p.hashes| + 1
    requires chunkNode.Length == |p.chunks| && chunkNode != layers
    requires Linked(internal, |p.hashes|) && Expecting(internal, p.Expected())
    requires forall k :: 0 <= k < |internal| ==> layers[k] == internal[k]
    modifies chunkNode, internal
    ensures |nodes| == |p.hashes| + |p.chunks| && internal <= nodes
    ensures forall k :: |internal| <= k < |nodes| ==> fresh(nodes[k])
    ensures Linked(nodes, |p.hashes|) && Expecting(nodes, p.Expected())
    ensures forall i :: 0 <= i < |p.chunks| ==> chunkNode[i] == nodes[|p.hashes| + i]
  {
    hide Linked;
    var nh := |p.hashes|;
    nodes := internal;
    var currentChunk := nh;
    for i := 0 to |p.chunks|
      invariant currentChunk == nh + i == |nodes| && internal <= nodes
      invariant forall k :: nh <= k < |nodes| ==> fresh(nodes[k])
      invariant forall k :: 0 <= k < nh ==> layers[k] == nodes[k]
      invariant Linked(nodes, nh) && Expecting(nodes, p.Expected())
      invariant forall j :: 0 <= j < i ==> chunkNode[..][j] == nodes[nh + j]
    {
      var node := AttachChunk(p, layers, chunkNode, i, nodes);
      nodes := nodes + [node];
      currentChunk := currentChunk + 1;
    }
  }

  method BuildMerkleTree(p: Package, chunkNode: array<Node?>)
    returns (root: Node, nNodes: nat, ghost nodes: seq<Node>)
    requires if |p.hashes| == 0 then |p.chunks| > 0 else |p.chunks| <= |p.hashes| + 1
    requires chunkNode.Length == |p.chunks|
    modifies chunkNode
    ensures nNodes == |p.hashes| + |p.chunks|
    ensures forall k :: 0 <= k < |nodes| ==> fresh(nodes[k])
    ensures |nodes| > 0 && root == nodes[0]
    ensures Linked(nodes, |p.hashes|) && Expecting(nodes, p.Expected())
    ensures |p.hashes| > 0 ==> |nodes| == nNodes
    // Each node expects the hash the package lists for its position, and each chunk has its own leaf.
    ensures |p.hashes| > 0 ==> forall k :: 0 <= k < |p.hashes| ==> nodes[k].expected == p.hashes[k]
    ensures |p.hashes| > 0 ==> forall i :: 0 <= i < |p.chunks| ==>
              chunkNode[i] == nodes[|p.hashes| + i] && nodes[|p.hashes| + i].expected == p.chunks[i].hash
    // The nodes with children are the internal ones, left at 2k + 1 and right at 2k + 2.
    ensures |p.hashes| > 0 ==> forall k {:trigger nodes[k].left} {:trigger nodes[k].right} :: 0 <= k < |p.hashes| ==>
              (2 * k + 1 < nNodes ==> nodes[k].left == nodes[2 * k + 1]) &&
              (2 * k + 2 < nNodes ==> nodes[k].right == nodes[2 * k + 2])
    // Without internal hashes there is one leaf, for the first chunk, and no chunk is given a leaf.
    ensures |p.hashes| == 0 ==> |nodes| == 1 && root.isLeaf && root.expected == p.chunks[0].hash
    ensures |p.hashes| == 0 ==> chunkNode[..] == old(chunkNode[..])
  {
    nNodes := |p.chunks| + |p.hashes|;
    if |p.hashes| > 0 {
      root := new Node(p.hashes[0], false);
    } else {
      root := new Node(p.chunks[0].hash, true);
      nodes := [root];
      return;
    }
    var layers := new Node?[|p.hashes|](i => null);
    layers[0] := root;
    ghost var internal := AttachHashes(p, layers, root);
    nodes := AttachChunks(p, layers, chunkNode, internal);
    ExpectingListed(p, nodes);
  }

  lemma ExpectingListed(p: Package, nodes: seq<Node>)
    requires |nodes| == |p.hashes| + |p.chunks| && Expecting(nodes, p.Expected())
    ensures forall k :: 0 <= k < |p.hashes| ==> nodes[k].expected == p.hashes[k]
    ensures forall i :: 0 <= i < |p.chunks| ==> nodes[|p.hashes| + i].expected == p.chunks[i].hash
  {
    forall k | 0 <= k < |nodes| ensures nodes[k].expected == ListedHash(p, k) {
      ExpectedIsListed(p, k);
    }
  }
}
