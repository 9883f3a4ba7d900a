/**
 * What FETCH can ask for, and when the node that the server looks up for a request lies above everything
 * the request asks for.
 */
module Requests {
  import opened Bytes
  import opened Digests
  import opened HeapTree
  import opened Merkle
  import opened Lookup
  import opened Splitting
  import opened Packets
  import opened Protocol

  /** Whether the k-th node is the leaf of the i-th chunk or lies above it. */
  predicate Above(p: Package, k: nat, i: nat) {
    Under(k, |p.hashes| + i)
  }

  predicate InChunk(c: Chunk, x: nat) {
    c.offset <= x < c.offset + c.size
  }

  /** The chunk and the range asked for have a byte in common. */
  predicate Meets(c: Chunk, a: Ask) {
    c.size > 0 && a.len > 0 && c.offset < a.offset + a.len && a.offset < c.offset + c.size
  }

  /** The range lies in the file, and the node found by the hash is above every chunk the range meets. */
  ghost predicate RangeCovered(p: Package, a: Ask)
    requires p.FullTree()
  {
    var k := FindFrom(|p.hashes|, p.Expected(), a.hash, 0);
    a.offset + a.len <= p.size && k.Some? &&
    forall j :: 0 <= j < |p.chunks| && Meets(p.chunks[j], a) ==> Above(p, k.value, j)
  }

  predicate CoveredAt(p: Package, i: nat)
    requires p.FullTree() && i < |p.chunks|
  {
    var k := FindFrom(|p.hashes|, p.Expected(), p.chunks[i].hash, 0);
    k.Some? && Above(p, k.value, i)
  }

  /** The node found by the hash of any chunk FETCH can pick is above that chunk. */
  ghost predicate Covered(p: Package)
    requires p.FullTree()
  {
    forall i :: 0 <= i < |p.chunks| && FirstChunk(p, p.chunks[i].hash, 0) == Some(i) ==> CoveredAt(p, i)
  }

  /** FETCH and find_hash mean the same chunk by every chunk hash. */
  ghost predicate Aligned(p: Package)
    requires p.FullTree()
  {
    forall i :: 0 <= i < |p.chunks| ==> SameTarget(p, p.chunks[i].hash)
  }

  // Where a byte of the file belongs.

  lemma {:induction false} ChunkUpTo(p: Package, i: nat, x: nat) returns (j: nat)
    requires p.Tiled() && i < |p.chunks| && x < p.chunks[i].offset + p.chunks[i].size
    ensures j <= i && InChunk(p.chunks[j], x)
  {
    if p.chunks[i].offset <= x {
      j := i;
    } else {
      NextTile(p, i);
      j := ChunkUpTo(p, i - 1, x);
    }
  }

  /** Every byte of the file lies in a chunk. */
  lemma ChunkHolding(p: Package, x: nat) returns (j: nat)
    requires p.Tiled() && x < p.size
    ensures j < |p.chunks| && InChunk(p.chunks[j], x)
  {
    j := ChunkUpTo(p, |p.chunks| - 1, x);
  }

  lemma OtherChunk(p: Package, i: nat, j: nat, x: nat)
    requires p.Tiled() && i < |p.chunks| && j < |p.chunks| && i != j && InChunk(p.chunks[i], x)
    ensures !InChunk(p.chunks[j], x)
  {
    if i < j {
      ChunksApart(p, i, j);
    } else {
      ChunksApart(p, j, i);
    }
  }

  /** A chunk that meets the range holds one of its bytes. */
  lemma MeetsAtByte(c: Chunk, a: Ask) returns (x: nat)
    requires Meets(c, a)
    ensures InChunk(c, x) && a.Has(x)
  {
    x := if c.offset < a.offset then a.offset else c.offset;
  }

  lemma ByteMeets(c: Chunk, a: Ask, x: nat)
    requires InChunk(c, x) && a.Has(x)
    ensures Meets(c, a)
  {
  }

  /** Every byte of a covered range lies in a chunk below the node found. */
  lemma CoveredByte(p: Package, a: Ask, x: nat) returns (j: nat)
    requires p.FullTree() && p.Tiled() && RangeCovered(p, a) && a.Has(x)
    ensures FindFrom(|p.hashes|, p.Expected(), a.hash, 0).Some?
    ensures j < |p.chunks| && InChunk(p.chunks[j], x)
    ensures Above(p, FindFrom(|p.hashes|, p.Expected(), a.hash, 0).value, j)
  {
    hide Above, FindFrom, InChunk, Meets, Package.Tiled, Package.Expected;
    j := ChunkHolding(p, x);
    ByteMeets(p.chunks[j], a, x);
  }

  // Requests for a chunk at its own place.

  function ChunkAsk(p: Package, i: nat): Ask
    requires i < |p.chunks|
  {
    Ask(p.chunks[i].hash, p.chunks[i].offset, p.chunks[i].size)
  }

  lemma OnlyMeetsItself(p: Package, i: nat, j: nat)
    requires p.Tiled() && i < |p.chunks| && j < |p.chunks|
    ensures Meets(p.chunks[j], ChunkAsk(p, i)) <==> i == j
  {
    if i < j {
      ChunksApart(p, i, j);
    } else if j < i {
      ChunksApart(p, j, i);
    }
  }

  /** Without an offset a request is covered exactly when the node found is above the chunk. */
  lemma OwnRangeCoveredIff(p: Package, i: nat)
    requires p.FullTree() && p.Tiled() && i < |p.chunks|
    ensures RangeCovered(p, ChunkAsk(p, i)) <==> CoveredAt(p, i)
  {
    hide Above, FindFrom, Meets, Package.Expected;
    ChunkWithin(p, i);
    forall j | 0 <= j < |p.chunks| ensures Meets(p.chunks[j], ChunkAsk(p, i)) <==> i == j {
      OnlyMeetsItself(p, i, j);
    }
  }

  lemma DefaultFetchAsk(p: Package, w: Want)
    requires FirstChunk(p, w.hash, 0).Some? && w.offset.None?
    ensures FetchAsk(p, w) == ChunkAsk(p, FirstChunk(p, w.hash, 0).value)
  {
  }

  lemma FirstIsItsFirst(p: Package, h: Hash)
    requires FirstChunk(p, h, 0).Some?
    ensures var i := FirstChunk(p, h, 0).value; p.chunks[i].hash == h && FirstChunk(p, p.chunks[i].hash, 0) == Some(i)
  {
  }

  lemma LeafAboveItself(p: Package, k: nat, i: nat)
    requires p.FullTree() && i < |p.chunks| && Above(p, k, i) && k >= |p.hashes|
    ensures k == |p.hashes| + i
  {
    LeafAlone(|p.hashes|, k);
  }

  lemma AlignedTarget(p: Package, i: nat)
    requires p.FullTree() && Aligned(p) && i < |p.chunks| && FirstChunk(p, p.chunks[i].hash, 0) == Some(i)
    ensures FindFrom(|p.hashes|, p.Expected(), p.chunks[i].hash, 0) == Some(|p.hashes| + i)
  {
    hide FindFrom, FirstChunk, Package.Expected;
    assert SameTarget(p, p.chunks[i].hash);
  }

  lemma AlignedIsCovered(p: Package)
    requires p.FullTree() && Aligned(p)
    ensures Covered(p)
  {
    hide FindFrom, FirstChunk, Package.Expected, Aligned;
    forall i | 0 <= i < |p.chunks| && FirstChunk(p, p.chunks[i].hash, 0) == Some(i) ensures CoveredAt(p, i) {
      AlignedTarget(p, i);
    }
  }

  /** A range as long as a chunk that meets no other chunk is the chunk. */
  lemma RangeOfOneChunk(p: Package, i: nat, a: Ask)
    requires p.Tiled() && i < |p.chunks| && a.len == p.chunks[i].size && a.offset + a.len <= p.size
    requires forall j :: 0 <= j < |p.chunks| && Meets(p.chunks[j], a) ==> j == i
    ensures a.offset == p.chunks[i].offset
  {
    hide Package.Tiled;
    assert a.len > 0 by {
      SizePositive(p, i);
    }
    var first := ChunkHolding(p, a.offset);
    var last := ChunkHolding(p, a.offset + a.len - 1);
    ByteMeets(p.chunks[first], a, a.offset);
    ByteMeets(p.chunks[last], a, a.offset + a.len - 1);
  }

  lemma SizePositive(p: Package, i: nat)
    requires p.Tiled() && i < |p.chunks|
    ensures p.chunks[i].size > 0
  {
  }

  /**
   * Where both searches mean the same chunk by every hash, the requests that are covered are exactly those at
   * the chunk's own offset: any other offset asks for bytes the server does not check.
   */
  lemma AlignedCoversOwnOffset(p: Package, w: Want)
    requires p.FullTree() && p.Tiled() && Aligned(p) && FirstChunk(p, w.hash, 0).Some?
    ensures RangeCovered(p, FetchAsk(p, w)) <==>
            FetchAsk(p, w).offset == p.chunks[FirstChunk(p, w.hash, 0).value].offset
  {
    hide FindFrom, FirstChunk, Package.Expected, Package.Tiled, Aligned, Meets, Above;
    var i, a := FirstChunk(p, w.hash, 0).value, FetchAsk(p, w);
    FirstIsItsFirst(p, w.hash);
    AlignedTarget(p, i);
    if a.offset == p.chunks[i].offset {
      assert a == ChunkAsk(p, i);
      OwnRangeCoveredIff(p, i);
      AlignedIsCovered(p);
      assert CoveredAt(p, i);
    }
    if RangeCovered(p, a) {
      forall j | 0 <= j < |p.chunks| && Meets(p.chunks[j], a) ensures j == i {
        LeafAboveItself(p, |p.hashes| + i, j);
      }
      RangeOfOneChunk(p, i, a);
    }
  }
}
