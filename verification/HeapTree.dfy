/**
 * The shape of a package tree: positions 0 to 2 * nh in level order, of which the first nh are
 * internal and the last nh + 1 are leaves. The children of position k are 2k + 1 and 2k + 2.
 */
module HeapTree {

  /** Whether position x is position a or lies below it. */
  predicate Under(a: nat, x: nat)
    decreases x
  {
    x == a || (x > a && Under(a, (x - 1) / 2))
  }

  function Preorder(nh: nat, k: nat): (s: seq<nat>)
    requires k <= 2 * nh
    ensures forall i :: 0 <= i < |s| ==> s[i] <= 2 * nh
    decreases 2 * nh - k
  {
    if k >= nh then [k] else [k] + Preorder(nh, 2 * k + 1) + Preorder(nh, 2 * k + 2)
  }

  function Postorder(nh: nat, k: nat): (s: seq<nat>)
    requires k <= 2 * nh
    ensures forall i :: 0 <= i < |s| ==> s[i] <= 2 * nh
    decreases 2 * nh - k
  {
    if k >= nh then [k] else Postorder(nh, 2 * k + 1) + Postorder(nh, 2 * k + 2) + [k]
  }

  /** The leaves below k from left to right. */
  function Leaves(nh: nat, k: nat): (s: seq<nat>)
    requires k <= 2 * nh
    ensures |s| > 0
    ensures forall i :: 0 <= i < |s| ==> nh <= s[i] <= 2 * nh
    decreases 2 * nh - k
  {
    if k >= nh then [k] else Leaves(nh, 2 * k + 1) + Leaves(nh, 2 * k + 2)
  }

  ghost predicate NoDuplicates<T>(s: seq<T>) {
    forall i, j :: 0 <= i < j < |s| ==> s[i] != s[j]
  }

  // Subtrees: what lies below a position lies below exactly one of its children.

  lemma {:induction false} UnderSplits(a: nat, x: nat)
    requires x != a
    ensures Under(a, x) <==> Under(2 * a + 1, x) || Under(2 * a + 2, x)
    ensures !(Under(2 * a + 1, x) && Under(2 * a + 2, x))
    decreases x
  {
    if x > a {
      var p := (x - 1) / 2;
      if p == a {
        assert x == 2 * a + 1 || x == 2 * a + 2;
        UnderBounds(2 * a + 1, a);
      } else {
        UnderSplits(a, p);
        UnderBounds(2 * a + 1, p);
        UnderBounds(2 * a + 2, p);
      }
    }
  }

  lemma UnderBounds(a: nat, x: nat)
    ensures Under(a, x) ==> a <= x
  {
  }

  lemma {:induction false} UnderRoot(x: nat)
    ensures Under(0, x)
    decreases x
  {
    if x > 0 {
      UnderRoot((x - 1) / 2);
    }
  }

  lemma {:induction false} UnderTransitive(a: nat, b: nat, x: nat)
    requires Under(a, b) && Under(b, x)
    ensures Under(a, x)
    decreases x
  {
    if x != b {
      UnderTransitive(a, b, (x - 1) / 2);
      UnderBounds(a, (x - 1) / 2);
    }
  }

  lemma NoDuplicatesJoin<T>(s: seq<T>, t: seq<T>)
    requires NoDuplicates(s) && NoDuplicates(t)
    requires forall x :: x in s ==> x !in t
    ensures NoDuplicates(s + t)
  {
    forall i, j | 0 <= i < j < |s + t| ensures (s + t)[i] != (s + t)[j] {
      if i < |s| <= j {
        assert (s + t)[i] in s;
        assert (s + t)[j] in t;
      }
    }
  }

  // Every traversal meets each position of the subtree exactly once.

  lemma {:induction false} PreorderVisits(nh: nat, k: nat)
    requires k <= 2 * nh
    ensures NoDuplicates(Preorder(nh, k))
    ensures forall x: nat :: x in Preorder(nh, k) <==> x <= 2 * nh && Under(k, x)
    decreases 2 * nh - k
  {
    if k < nh {
      var l, r := Preorder(nh, 2 * k + 1), Preorder(nh, 2 * k + 2);
      PreorderVisits(nh, 2 * k + 1);
      PreorderVisits(nh, 2 * k + 2);
      SplitAll(k, 2 * k + 1, 2 * k + 2);
      NoDuplicatesJoin([k], l);
      NoDuplicatesJoin([k] + l, r);
    } else {
      LeafAlone(nh, k);
    }
  }

  lemma {:induction false} PostorderVisits(nh: nat, k: nat)
    requires k <= 2 * nh
    ensures NoDuplicates(Postorder(nh, k))
    ensures forall x: nat :: x in Postorder(nh, k) <==> x <= 2 * nh && Under(k, x)
    decreases 2 * nh - k
  {
    if k < nh {
      var l, r := Postorder(nh, 2 * k + 1), Postorder(nh, 2 * k + 2);
      PostorderVisits(nh, 2 * k + 1);
      PostorderVisits(nh, 2 * k + 2);
      SplitAll(k, 2 * k + 1, 2 * k + 2);
      NoDuplicatesJoin(l, r);
      NoDuplicatesJoin(l + r, [k]);
    } else {
      LeafAlone(nh, k);
    }
  }

  lemma {:induction false} LeavesVisits(nh: nat, k: nat)
    requires k <= 2 * nh
    ensures NoDuplicates(Leaves(nh, k))
    ensures forall x: nat :: x in Leaves(nh, k) <==> nh <= x <= 2 * nh && Under(k, x)
    decreases 2 * nh - k
  {
    if k < nh {
      LeavesVisits(nh, 2 * k + 1);
      LeavesVisits(nh, 2 * k + 2);
      SplitAll(k, 2 * k + 1, 2 * k + 2);
      NoDuplicatesJoin(Leaves(nh, 2 * k + 1), Leaves(nh, 2 * k + 2));
    } else {
      LeafAlone(nh, k);
    }
  }

  lemma SplitAll(k: nat, l: nat, r: nat)
    requires l == 2 * k + 1 && r == 2 * k + 2
    ensures forall x: nat :: x != k ==> (Under(k, x) <==> Under(l, x) || Under(r, x))
    ensures forall x: nat :: !(Under(l, x) && Under(r, x))
    ensures !Under(l, k) && !Under(r, k)
  {
    UnderBounds(l, k);
    UnderBounds(r, k);
    forall x: nat
      ensures x != k ==> (Under(k, x) <==> Under(l, x) || Under(r, x))
      ensures !(Under(l, x) && Under(r, x))
    {
      if x != k {
        UnderSplits(k, x);
      }
    }
  }

  lemma LeafAlone(nh: nat, k: nat)
    requires nh <= k <= 2 * nh
    ensures forall x: nat :: x <= 2 * nh && Under(k, x) ==> x == k
  {
    forall x: nat | x <= 2 * nh && Under(k, x) ensures x == k {
      if x != k {
        UnderBounds(k, (x - 1) / 2);
      }
    }
  }

  // The order in which the traversals meet positions.

  ghost predicate Before(s: seq<nat>, x: nat, y: nat) {
    exists i, j :: 0 <= i < j < |s| && s[i] == x && s[j] == y
  }

  lemma BeforeInLeft(s: seq<nat>, t: seq<nat>, x: nat, y: nat)
    requires Before(s, x, y)
    ensures Before(s + t, x, y)
  {
    var i, j :| 0 <= i < j < |s| && s[i] == x && s[j] == y;
    assert (s + t)[i] == x && (s + t)[j] == y;
  }

  lemma BeforeInRight(s: seq<nat>, t: seq<nat>, x: nat, y: nat)
    requires Before(t, x, y)
    ensures Before(s + t, x, y)
  {
    var i, j :| 0 <= i < j < |t| && t[i] == x && t[j] == y;
    assert (s + t)[|s| + i] == x && (s + t)[|s| + j] == y;
  }

  lemma BeforeAcross(s: seq<nat>, t: seq<nat>, x: nat, y: nat)
    requires x in s && y in t
    ensures Before(s + t, x, y)
  {
    var i :| 0 <= i < |s| && s[i] == x;
    var j :| 0 <= j < |t| && t[j] == y;
    assert (s + t)[i] == x && (s + t)[|s| + j] == y;
  }

  /** Which side of k a position below it is on. */
  lemma Side(k: nat, m: nat, l: nat, r: nat)
    requires l == 2 * k + 1 && r == 2 * k + 2 && Under(k, m) && m != k
    ensures Under(l, m) != Under(r, m)
  {
    UnderSplits(k, m);
  }

  /** Freeing: a node comes after everything below it. */
  lemma {:induction false} PostorderChildrenFirst(nh: nat, k: nat, m: nat, x: nat)
    requires k <= 2 * nh && m <= 2 * nh && x <= 2 * nh && Under(k, m) && Under(m, x) && x != m
    ensures Before(Postorder(nh, k), x, m)
    decreases 2 * nh - k
  {
    hide Before;
    UnderTransitive(k, m, x);
    if k >= nh {
      LeafAlone(nh, k);
    } else {
      var l, r := 2 * k + 1, 2 * k + 2;
      var left, right := Postorder(nh, l), Postorder(nh, r);
      if m == k {
        Side(k, x, l, r);
        PostorderVisits(nh, l);
        PostorderVisits(nh, r);
        BeforeAcross(left + right, [k], x, k);
      } else {
        Side(k, m, l, r);
        if Under(l, m) {
          PostorderChildrenFirst(nh, l, m, x);
          BeforeInLeft(left, right, x, m);
        } else {
          PostorderChildrenFirst(nh, r, m, x);
          BeforeInRight(left, right, x, m);
        }
        BeforeInLeft(left + right, [k], x, m);
      }
    }
  }

  /** Searching: a node comes before everything below it. */
  lemma {:induction false} PreorderParentFirst(nh: nat, k: nat, m: nat, x: nat)
    requires k <= 2 * nh && m <= 2 * nh && x <= 2 * nh && Under(k, m) && Under(m, x) && x != m
    ensures Before(Preorder(nh, k), m, x)
    decreases 2 * nh - k
  {
    hide Before;
    UnderTransitive(k, m, x);
    if k >= nh {
      LeafAlone(nh, k);
    } else {
      var l, r := 2 * k + 1, 2 * k + 2;
      var left, right := Preorder(nh, l), Preorder(nh, r);
      assert [k] + left + right == [k] + (left + right);
      if m == k {
        Side(k, x, l, r);
        PreorderVisits(nh, l);
        PreorderVisits(nh, r);
        BeforeAcross([k], left + right, k, x);
      } else {
        Side(k, m, l, r);
        if Under(l, m) {
          PreorderParentFirst(nh, l, m, x);
          BeforeInLeft(left, right, m, x);
        } else {
          PreorderParentFirst(nh, r, m, x);
          BeforeInRight(left, right, m, x);
        }
        BeforeInRight([k], left + right, m, x);
      }
    }
  }

  /** Searching: what is below the left child of a node comes before what is below the right one. */
  lemma {:induction false} PreorderLeftFirst(nh: nat, k: nat, m: nat, x: nat, y: nat)
    requires k <= 2 * nh && m < nh && x <= 2 * nh && y <= 2 * nh
    requires Under(k, m) && Under(2 * m + 1, x) && Under(2 * m + 2, y)
    ensures Before(Preorder(nh, k), x, y)
    decreases 2 * nh - k
  {
    hide Before;
    UnderBounds(k, m);
    var l, r := 2 * k + 1, 2 * k + 2;
    var left, right := Preorder(nh, l), Preorder(nh, r);
    assert [k] + left + right == [k] + (left + right);
    if m == k {
      PreorderVisits(nh, l);
      PreorderVisits(nh, r);
      BeforeAcross(left, right, x, y);
    } else {
      Side(k, m, l, r);
      if Under(l, m) {
        PreorderLeftFirst(nh, l, m, x, y);
        BeforeInLeft(left, right, x, y);
      } else {
        PreorderLeftFirst(nh, r, m, x, y);
        BeforeInRight(left, right, x, y);
      }
    }
    BeforeInRight([k], left + right, x, y);
  }

  /** Leaves: those below the left child of a node come before those below the right one. */
  lemma {:induction false} LeavesLeftFirst(nh: nat, k: nat, m: nat, x: nat, y: nat)
    requires k <= 2 * nh && m < nh && nh <= x <= 2 * nh && nh <= y <= 2 * nh
    requires Under(k, m) && Under(2 * m + 1, x) && Under(2 * m + 2, y)
    ensures Before(Leaves(nh, k), x, y)
    decreases 2 * nh - k
  {
    hide Before;
    UnderBounds(k, m);
    var l, r := 2 * k + 1, 2 * k + 2;
    var left, right := Leaves(nh, l), Leaves(nh, r);
    if m == k {
      LeavesVisits(nh, l);
      LeavesVisits(nh, r);
      BeforeAcross(left, right, x, y);
    } else {
      Side(k, m, l, r);
      if Under(l, m) {
        LeavesLeftFirst(nh, l, m, x, y);
        BeforeInLeft(left, right, x, y);
      } else {
        LeavesLeftFirst(nh, r, m, x, y);
        BeforeInRight(left, right, x, y);
      }
    }
  }

  // Perfect trees: the leaves stand in file order exactly when their number is a power of two.

  function Pow2(h: nat): (p: nat)
    ensures p > 0
  {
    if h == 0 then 1 else 2 * Pow2(h - 1)
  }

  function Range(from: nat, to: nat): (s: seq<nat>)
    requires from <= to
    ensures |s| == to - from
    ensures forall i :: 0 <= i < |s| ==> s[i] == from + i
  {
    seq(to - from, i requires 0 <= i => from + i)
  }

  lemma Pow2Monotone(d: nat, h: nat)
    requires d <= h
    ensures Pow2(d) <= Pow2(h)
    decreases h - d
  {
    if d < h {
      Pow2Monotone(d + 1, h);
    }
  }

  lemma RangeJoin(a: nat, b: nat, c: nat)
    requires a <= b <= c
    ensures Range(a, b) + Range(b, c) == Range(a, c)
  {
  }

  /** The chunks below the j-th node at a depth where every node has w of them. */
  function LeafRun(nh: nat, j: nat, w: nat): (s: seq<nat>)
    ensures |s| == w
  {
    Range(nh + j * w, nh + j * w + w)
  }

  lemma RunOfOne(nh: nat, j: nat)
    ensures LeafRun(nh, j, 1) == [nh + j]
  {
  }

  lemma RunSplits(nh: nat, j: nat, v: nat, w: nat)
    requires w == 2 * v
    ensures LeafRun(nh, j, w) == LeafRun(nh, 2 * j, v) + LeafRun(nh, 2 * j + 1, v)
  {
    assert j * w == 2 * j * v;
    assert (2 * j + 1) * v == 2 * j * v + v;
    RangeJoin(nh + 2 * j * v, nh + 2 * j * v + v, nh + 2 * j * v + v + v);
  }

  /** The j-th node of depth d of a perfect tree of height h has the j-th run of 2^(h-d) chunks below it. */
  lemma {:induction false} PerfectLeaves(nh: nat, h: nat, d: nat, j: nat)
    requires nh + 1 == Pow2(h) && d <= h && j < Pow2(d)
    ensures Pow2(d) - 1 + j <= 2 * nh
    ensures Leaves(nh, Pow2(d) - 1 + j) == LeafRun(nh, j, Pow2(h - d))
    decreases h - d
  {
    hide LeafRun;
    Pow2Monotone(d, h);
    if d == h {
      RunOfOne(nh, j);
    } else {
      var k, v := Pow2(d) - 1 + j, Pow2(h - d - 1);
      Pow2Monotone(d + 1, h);
      PerfectLeaves(nh, h, d + 1, 2 * j);
      PerfectLeaves(nh, h, d + 1, 2 * j + 1);
      assert h - (d + 1) == h - d - 1;
      assert Leaves(nh, 2 * k + 1) == LeafRun(nh, 2 * j, v);
      assert Leaves(nh, 2 * k + 2) == LeafRun(nh, 2 * j + 1, v);
      RunSplits(nh, j, v, Pow2(h - d));
    }
  }

  /** Going left from the start of a level ends at the start of a level. */
  lemma {:induction false} FirstLeaf(nh: nat, d: nat) returns (e: nat)
    requires Pow2(d) - 1 <= 2 * nh
    ensures Leaves(nh, Pow2(d) - 1)[0] == Pow2(e) - 1
    decreases 2 * nh - Pow2(d)
  {
    if Pow2(d) - 1 >= nh {
      e := d;
    } else {
      assert Pow2(d + 1) - 1 == 2 * (Pow2(d) - 1) + 1;
      e := FirstLeaf(nh, d + 1);
    }
  }

  lemma FileOrderIffPerfect(nh: nat)
    ensures Leaves(nh, 0) == Range(nh, 2 * nh + 1) <==> exists h :: nh + 1 == Pow2(h)
  {
    if h :| nh + 1 == Pow2(h) {
      PerfectLeaves(nh, h, 0, 0);
    }
    if Leaves(nh, 0) == Range(nh, 2 * nh + 1) {
      var e := FirstLeaf(nh, 0);
      assert nh + 1 == Pow2(e);
    }
  }
}
