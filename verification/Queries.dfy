/** The three package queries and the hash lookup, on the expected hashes e and the computed hashes c of a tree. */
module Queries {
  import opened Bytes
  import opened Digests
  import opened HeapTree
  import opened Merkle

  // The minimal cover: the topmost nodes whose computed hash is the expected one.

  function MinCover(nh: nat, e: seq<Hash>, c: seq<Hash>, k: nat): (s: seq<nat>)
    requires |e| == |c| == 2 * nh + 1 && k <= 2 * nh
    ensures forall i :: 0 <= i < |s| ==> s[i] <= 2 * nh
    decreases 2 * nh - k
  {
    if e[k] == c[k] then [k]
    else if k >= nh then []
    else MinCover(nh, e, c, 2 * k + 1) + MinCover(nh, e, c, 2 * k + 2)
  }

  ghost predicate Antichain(s: seq<nat>) {
    forall i, j :: 0 <= i < j < |s| ==> !Under(s[i], s[j]) && !Under(s[j], s[i])
  }

  /** The computed hashes are such that a node matches exactly when every leaf below it does. */
  ghost predicate Vouches(nh: nat, e: seq<Hash>, c: seq<Hash>)
    requires |e| == |c| == 2 * nh + 1
  {
    forall k: nat :: k <= 2 * nh ==> (e[k] == c[k] <==> LeavesBelowMatch(nh, e, c, k))
  }

  ghost predicate LeavesBelowMatch(nh: nat, e: seq<Hash>, c: seq<Hash>, k: nat)
    requires |e| == |c| == 2 * nh + 1
  {
    forall x: nat :: nh <= x <= 2 * nh && Under(k, x) ==> e[x] == c[x]
  }

  ghost predicate MatchingBelow(e: seq<Hash>, c: seq<Hash>, k: nat, s: seq<nat>)
    requires |e| == |c|
  {
    forall i :: 0 <= i < |s| ==> s[i] < |e| && Under(k, s[i]) && e[s[i]] == c[s[i]]
  }

  lemma AntichainJoin(s: seq<nat>, t: seq<nat>, k: nat, l: nat, r: nat)
    requires l == 2 * k + 1 && r == 2 * k + 2
    requires Antichain(s) && Antichain(t)
    requires forall i :: 0 <= i < |s| ==> Under(l, s[i])
    requires forall i :: 0 <= i < |t| ==> Under(r, t[i])
    ensures Antichain(s + t)
  {
    forall i, j | 0 <= i < j < |s + t| ensures !Under((s + t)[i], (s + t)[j]) && !Under((s + t)[j], (s + t)[i]) {
      if i < |s| <= j {
        SidesApart(k, l, r, s[i], t[j - |s|]);
      }
    }
  }

  lemma MatchingJoin(e: seq<Hash>, c: seq<Hash>, s: seq<nat>, t: seq<nat>, k: nat, l: nat, r: nat)
    requires |e| == |c| && l == 2 * k + 1 && r == 2 * k + 2
    requires MatchingBelow(e, c, l, s) && MatchingBelow(e, c, r, t)
    requires Antichain(s) && Antichain(t)
    ensures MatchingBelow(e, c, k, s + t) && Antichain(s + t)
  {
    hide Antichain;
    SplitAll(k, l, r);
    AntichainJoin(s, t, k, l, r);
  }

  /** The cover holds matching nodes only, and none of them lies below another. */
  lemma {:induction false} MinCoverIsAntichain(nh: nat, e: seq<Hash>, c: seq<Hash>, k: nat)
    requires |e| == |c| == 2 * nh + 1 && k <= 2 * nh
    ensures MatchingBelow(e, c, k, MinCover(nh, e, c, k))
    ensures Antichain(MinCover(nh, e, c, k))
    decreases 2 * nh - k
  {
    if e[k] == c[k] {
      assert Under(k, k);
    } else if k < nh {
      hide MatchingBelow, Antichain, Under;
      var l, r := 2 * k + 1, 2 * k + 2;
      MinCoverIsAntichain(nh, e, c, l);
      MinCoverIsAntichain(nh, e, c, r);
      MatchingJoin(e, c, MinCover(nh, e, c, l), MinCover(nh, e, c, r), k, l, r);
    }
  }

  lemma SidesApart(k: nat, l: nat, r: nat, x: nat, y: nat)
    requires l == 2 * k + 1 && r == 2 * k + 2 && Under(l, x) && Under(r, y)
    ensures !Under(x, y) && !Under(y, x)
  {
    SplitAll(k, l, r);
    if Under(x, y) {
      UnderTransitive(l, x, y);
    }
    if Under(y, x) {
      UnderTransitive(r, y, x);
    }
  }

  /** The positions of a list that are complete, in its order. */
  function Complete(e: seq<Hash>, c: seq<Hash>, s: seq<nat>): (r: seq<nat>)
    requires |e| == |c| && forall i :: 0 <= i < |s| ==> s[i] < |e|
    ensures forall i :: 0 <= i < |r| ==> r[i] < |e| && e[r[i]] == c[r[i]]
  {
    if s == [] then []
    else (if e[s[0]] == c[s[0]] then [s[0]] else []) + Complete(e, c, s[1..])
  }

  lemma {:induction false} CompleteJoin(e: seq<Hash>, c: seq<Hash>, s: seq<nat>, t: seq<nat>)
    requires |e| == |c|
    requires forall i :: 0 <= i < |s| ==> s[i] < |e|
    requires forall i :: 0 <= i < |t| ==> t[i] < |e|
    ensures Complete(e, c, s + t) == Complete(e, c, s) + Complete(e, c, t)
  {
    if s == [] {
      assert s + t == t;
    } else {
      assert (s + t)[1..] == s[1..] + t;
      CompleteJoin(e, c, s[1..], t);
    }
  }

  lemma {:induction false} CompleteAll(e: seq<Hash>, c: seq<Hash>, s: seq<nat>)
    requires |e| == |c|
    requires forall i :: 0 <= i < |s| ==> s[i] < |e| && e[s[i]] == c[s[i]]
    ensures Complete(e, c, s) == s
  {
    if s != [] {
      CompleteAll(e, c, s[1..]);
    }
  }

  /** Every listed node replaced by the leaves below it. */
  function Expand(nh: nat, s: seq<nat>): (r: seq<nat>)
    requires forall i :: 0 <= i < |s| ==> s[i] <= 2 * nh
    ensures forall i :: 0 <= i < |r| ==> nh <= r[i] <= 2 * nh
  {
    if s == [] then [] else Leaves(nh, s[0]) + Expand(nh, s[1..])
  }

  lemma {:induction false} ExpandJoin(nh: nat, s: seq<nat>, t: seq<nat>)
    requires forall i :: 0 <= i < |s| ==> s[i] <= 2 * nh
    requires forall i :: 0 <= i < |t| ==> t[i] <= 2 * nh
    ensures Expand(nh, s + t) == Expand(nh, s) + Expand(nh, t)
  {
    if s == [] {
      assert s + t == t;
    } else {
      assert (s + t)[1..] == s[1..] + t;
      ExpandJoin(nh, s[1..], t);
    }
  }

  lemma ExpandOne(nh: nat, k: nat)
    requires k <= 2 * nh
    ensures Expand(nh, [k]) == Leaves(nh, k)
  {
    assert [k][1..] == [];
    assert Leaves(nh, k) + [] == Leaves(nh, k);
  }

  /** Below a node that matches every leaf is complete. */
  lemma MatchingNodeExpands(nh: nat, e: seq<Hash>, c: seq<Hash>, k: nat)
    requires |e| == |c| == 2 * nh + 1 && k <= 2 * nh && LeavesBelowMatch(nh, e, c, k)
    ensures Expand(nh, [k]) == Complete(e, c, Leaves(nh, k))
  {
    hide Expand, Complete, Leaves, Under;
    LeavesVisits(nh, k);
    forall i | 0 <= i < |Leaves(nh, k)| ensures e[Leaves(nh, k)[i]] == c[Leaves(nh, k)[i]] {
      assert Leaves(nh, k)[i] in Leaves(nh, k);
    }
    CompleteAll(e, c, Leaves(nh, k));
    ExpandOne(nh, k);
  }

  lemma MissingLeafExpands(nh: nat, e: seq<Hash>, c: seq<Hash>, k: nat)
    requires |e| == |c| == 2 * nh + 1 && nh <= k <= 2 * nh && e[k] != c[k]
    ensures Expand(nh, []) == Complete(e, c, Leaves(nh, k))
  {
    assert Leaves(nh, k) == [k] && [k][1..] == [];
  }

  lemma SplitNodeExpands(nh: nat, e: seq<Hash>, c: seq<Hash>, k: nat, l: nat, r: nat)
    requires |e| == |c| == 2 * nh + 1 && k < nh && l == 2 * k + 1 && r == 2 * k + 2 && e[k] != c[k]
    requires Expand(nh, MinCover(nh, e, c, l)) == Complete(e, c, Leaves(nh, l))
    requires Expand(nh, MinCover(nh, e, c, r)) == Complete(e, c, Leaves(nh, r))
    ensures Expand(nh, MinCover(nh, e, c, k)) == Complete(e, c, Leaves(nh, k))
  {
    hide Expand, Complete;
    ExpandJoin(nh, MinCover(nh, e, c, l), MinCover(nh, e, c, r));
    CompleteJoin(e, c, Leaves(nh, l), Leaves(nh, r));
  }

  lemma VouchesAt(nh: nat, e: seq<Hash>, c: seq<Hash>, k: nat)
    requires |e| == |c| == 2 * nh + 1 && k <= 2 * nh && Vouches(nh, e, c)
    ensures e[k] == c[k] <==> LeavesBelowMatch(nh, e, c, k)
  {
    hide LeavesBelowMatch;
  }

  /** Expanded, the cover is exactly the complete leaves, each once and from left to right. */
  lemma {:induction false} CoverExpandsToCompleteLeaves(nh: nat, e: seq<Hash>, c: seq<Hash>, k: nat)
    requires |e| == |c| == 2 * nh + 1 && k <= 2 * nh
    requires Vouches(nh, e, c)
    ensures Expand(nh, MinCover(nh, e, c, k)) == Complete(e, c, Leaves(nh, k))
    decreases 2 * nh - k
  {
    hide Vouches, LeavesBelowMatch, Expand, Complete, Leaves;
    if e[k] == c[k] {
      VouchesAt(nh, e, c, k);
      MatchingNodeExpands(nh, e, c, k);
    } else if k < nh {
      var l, r := 2 * k + 1, 2 * k + 2;
      CoverExpandsToCompleteLeaves(nh, e, c, l);
      CoverExpandsToCompleteLeaves(nh, e, c, r);
      SplitNodeExpands(nh, e, c, k, l, r);
    } else {
      MissingLeafExpands(nh, e, c, k);
    }
  }

  /** A set of nodes below k that has a member above a leaf exactly when the leaf is complete. */
  ghost predicate Covers(nh: nat, e: seq<Hash>, c: seq<Hash>, k: nat, s: set<nat>)
    requires |e| == |c| == 2 * nh + 1
  {
    (forall y :: y in s ==> y <= 2 * nh && Under(k, y)) &&
    forall x: nat :: nh <= x <= 2 * nh && Under(k, x) ==> (e[x] == c[x] <==> exists y :: y in s && Under(y, x))
  }

  lemma CoversSide(nh: nat, e: seq<Hash>, c: seq<Hash>, k: nat, s: set<nat>, l: nat, r: nat, child: nat)
    requires |e| == |c| == 2 * nh + 1 && k < nh
    requires l == 2 * k + 1 && r == 2 * k + 2 && (child == l || child == r)
    requires Covers(nh, e, c, k, s) && k !in s
    ensures Covers(nh, e, c, child, set y | y in s && Under(child, y))
  {
    SplitAll(k, l, r);
    var part := set y | y in s && Under(child, y);
    forall x: nat | nh <= x <= 2 * nh && Under(child, x)
      ensures e[x] == c[x] <==> exists y :: y in part && Under(y, x)
    {
      assert Under(k, x);
      if y :| y in s && Under(y, x) {
        if Under(l, y) {
          UnderTransitive(l, y, x);
        } else {
          UnderTransitive(r, y, x);
        }
        assert y in part;
      }
    }
  }

  lemma CompleteNodeNeedsOne(nh: nat, e: seq<Hash>, c: seq<Hash>, k: nat, s: set<nat>)
    requires |e| == |c| == 2 * nh + 1 && k <= 2 * nh
    requires Covers(nh, e, c, k, s) && LeavesBelowMatch(nh, e, c, k)
    ensures |s| >= 1
  {
    LeavesVisits(nh, k);
    var x := Leaves(nh, k)[0];
    assert x in Leaves(nh, k);
    var y :| y in s && Under(y, x);
    assert |s - {y}| == |s| - 1;
  }

  lemma CoveringItselfIsComplete(nh: nat, e: seq<Hash>, c: seq<Hash>, k: nat, s: set<nat>)
    requires |e| == |c| == 2 * nh + 1 && k <= 2 * nh
    requires Covers(nh, e, c, k, s) && k in s
    ensures LeavesBelowMatch(nh, e, c, k)
  {
  }

  lemma SidesPartition(k: nat, s: set<nat>, l: nat, r: nat, a: set<nat>, b: set<nat>)
    requires l == 2 * k + 1 && r == 2 * k + 2 && k !in s
    requires forall y :: y in s ==> Under(k, y)
    requires a == (set y | y in s && Under(l, y)) && b == set y | y in s && Under(r, y)
    ensures |s| == |a| + |b|
  {
    SplitAll(k, l, r);
    assert a !! b && s == a + b;
  }

  /** No set of nodes that covers exactly the complete leaves is smaller than the cover returned. */
  lemma {:induction false} MinCoverIsSmallest(nh: nat, e: seq<Hash>, c: seq<Hash>, k: nat, s: set<nat>)
    requires |e| == |c| == 2 * nh + 1 && k <= 2 * nh
    requires Vouches(nh, e, c) && Covers(nh, e, c, k, s)
    ensures |MinCover(nh, e, c, k)| <= |s|
    decreases 2 * nh - k
  {
    hide LeavesBelowMatch;
    if e[k] == c[k] {
      CompleteNodeNeedsOne(nh, e, c, k, s);
    } else if k < nh {
      if k in s {
        CoveringItselfIsComplete(nh, e, c, k, s);
      }
      var l, r := 2 * k + 1, 2 * k + 2;
      var a, b := set y | y in s && Under(l, y), set y | y in s && Under(r, y);
      CoversSide(nh, e, c, k, s, l, r, l);
      CoversSide(nh, e, c, k, s, l, r, r);
      MinCoverIsSmallest(nh, e, c, l, a);
      MinCoverIsSmallest(nh, e, c, r, b);
      SidesPartition(k, s, l, r, a, b);
    }
  }

  function AllRecomputed(H: Digester, nh: nat, leaf: seq<Hash>): (c: seq<Hash>)
    requires |leaf| == nh + 1
    ensures |c| == 2 * nh + 1
    ensures forall k :: 0 <= k < |c| ==> c[k] == Recomputed(H, nh, leaf, k)
  {
    seq(2 * nh + 1, k requires 0 <= k < 2 * nh + 1 => Recomputed(H, nh, leaf, k))
  }

  /** After a full recomputation without collisions a node vouches exactly for the leaves below it. */
  lemma RecomputedVouches(H: Digester, nh: nat, e: seq<Hash>, leaf: seq<Hash>)
    requires SealedTree(H, nh, e) && |leaf| == nh + 1 && HashLengths(leaf)
    requires NoPairCollision(H, nh, e, leaf)
    ensures Vouches(nh, e, AllRecomputed(H, nh, leaf))
  {
    var c := AllRecomputed(H, nh, leaf);
    forall k: nat | k <= 2 * nh ensures e[k] == c[k] <==> LeavesBelowMatch(nh, e, c, k) {
      NodeMatchesIffLeavesDo(H, nh, e, leaf, k);
      assert forall x: nat :: nh <= x <= 2 * nh ==> c[x] == leaf[x - nh];
    }
  }

  lemma {:induction false} NothingCompleteNothingReported(nh: nat, e: seq<Hash>, c: seq<Hash>, k: nat)
    requires |e| == |c| == 2 * nh + 1 && k <= 2 * nh && Vouches(nh, e, c)
    requires forall x: nat :: nh <= x <= 2 * nh && Under(k, x) ==> e[x] != c[x]
    ensures MinCover(nh, e, c, k) == []
    decreases 2 * nh - k
  {
    LeavesVisits(nh, k);
    var x := Leaves(nh, k)[0];
    assert x in Leaves(nh, k);
    assert !LeavesBelowMatch(nh, e, c, k);
    if k < nh {
      var l, r := 2 * k + 1, 2 * k + 2;
      SplitAll(k, l, r);
      NothingCompleteNothingReported(nh, e, c, l);
      NothingCompleteNothingReported(nh, e, c, r);
    }
  }

  lemma MissingLeafMissingNode(nh: nat, e: seq<Hash>, c: seq<Hash>, k: nat, x: nat)
    requires |e| == |c| == 2 * nh + 1 && Vouches(nh, e, c) && k <= 2 * nh
    requires nh <= x <= 2 * nh && Under(k, x) && e[x] != c[x]
    ensures e[k] != c[k]
  {
    assert !LeavesBelowMatch(nh, e, c, k);
  }

  lemma SomeLeafBelow(nh: nat, k: nat, r: nat) returns (x: nat)
    requires k < nh && r == 2 * k + 2
    ensures nh <= x <= 2 * nh && Under(r, x) && Under(k, x)
  {
    x := Leaves(nh, r)[0];
    LeavesVisits(nh, r);
    assert x in Leaves(nh, r);
    SplitAll(k, 2 * k + 1, r);
  }

  /**
   * With the left half below a node complete and nothing of the right half, the query reports one hash
   * for it, that of the left child, and not half the number of chunks plus one.
   */
  lemma HalfIsOneHash(nh: nat, e: seq<Hash>, c: seq<Hash>, k: nat, l: nat, r: nat)
    requires |e| == |c| == 2 * nh + 1 && Vouches(nh, e, c)
    requires k < nh && l == 2 * k + 1 && r == 2 * k + 2
    requires LeavesBelowMatch(nh, e, c, l)
    requires forall x: nat :: nh <= x <= 2 * nh && Under(r, x) ==> e[x] != c[x]
    ensures MinCover(nh, e, c, k) == [l]
  {
    var x := SomeLeafBelow(nh, k, r);
    MissingLeafMissingNode(nh, e, c, k, x);
    assert e[l] == c[l];
    hide *;
    NothingCompleteNothingReported(nh, e, c, r);
    OnlyLeftReported(nh, e, c, k, l, r);
  }

  lemma OnlyLeftReported(nh: nat, e: seq<Hash>, c: seq<Hash>, k: nat, l: nat, r: nat)
    requires |e| == |c| == 2 * nh + 1 && k < nh && l == 2 * k + 1 && r == 2 * k + 2
    requires e[k] != c[k] && e[l] == c[l] && MinCover(nh, e, c, r) == []
    ensures MinCover(nh, e, c, k) == [l]
  {
    assert MinCover(nh, e, c, k) == MinCover(nh, e, c, l) + MinCover(nh, e, c, r);
  }
}
