/**
 The leaf set of a selection: the nodes without children among the selected
 nodes and all their descendants, in the order a breadth-first worklist meets
 them. BfsLeaves is the reference definition the operator's loop is proved
 against; BfsLeavesExact characterises its members independently of order.
 */
module LeafTraversal {
  import opened Engine

  predicate IsLeaf(h: Hierarchy, n: NodeId)
  {
    |h.children(n)| == 0
  }

  /** Number of nodes in the subtree rooted at n. */
  ghost function Size(h: Hierarchy, n: NodeId): nat
    requires WellRanked(h)
    decreases h.rank(n), 1
  {
    1 + SizeBelow(h, h.children(n), h.rank(n))
  }

  /** Total size of the subtrees rooted at the nodes of s, all of rank below bound. */
  ghost function SizeBelow(h: Hierarchy, s: seq<NodeId>, bound: nat): nat
    requires WellRanked(h)
    requires forall k :: 0 <= k < |s| ==> h.rank(s[k]) < bound
    decreases bound, 0, |s|
  {
    if s == [] then 0 else Size(h, s[0]) + SizeBelow(h, s[1..], bound)
  }

  /** Total size of the subtrees rooted at the nodes of a worklist: the work still to do. */
  ghost function Load(h: Hierarchy, q: seq<NodeId>): nat
    requires WellRanked(h)
  {
    if q == [] then 0 else Size(h, q[0]) + Load(h, q[1..])
  }

  lemma {:induction false} SizeBelowIsLoad(h: Hierarchy, s: seq<NodeId>, bound: nat)
    requires WellRanked(h)
    requires forall k :: 0 <= k < |s| ==> h.rank(s[k]) < bound
    ensures SizeBelow(h, s, bound) == Load(h, s)
    decreases |s|
  {
    if s != [] {
      SizeBelowIsLoad(h, s[1..], bound);
    }
  }

  lemma {:induction false} LoadAppend(h: Hierarchy, a: seq<NodeId>, b: seq<NodeId>)
    requires WellRanked(h)
    ensures Load(h, a + b) == Load(h, a) + Load(h, b)
    decreases |a|
  {
    if a == [] {
      assert a + b == b;
    } else {
      assert (a + b)[1..] == a[1..] + b;
      LoadAppend(h, a[1..], b);
    }
  }

  /** Taking the head of a worklist and appending its children lowers the load by exactly one. */
  lemma LoadStep(h: Hierarchy, q: seq<NodeId>)
    requires WellRanked(h) && q != []
    ensures Load(h, q[1..] + h.children(q[0])) + 1 == Load(h, q)
  {
    var n := q[0];
    assert forall k :: 0 <= k < |h.children(n)| ==> h.rank(h.children(n)[k]) < h.rank(n);
    LoadAppend(h, q[1..], h.children(n));
    SizeBelowIsLoad(h, h.children(n), h.rank(n));
  }

  /**
   The leaves a breadth-first worklist q yields: take the head, record it when it
   has no children, and append its children to the back of the worklist.
   */
  function BfsLeaves(h: Hierarchy, q: seq<NodeId>): seq<NodeId>
    requires WellRanked(h)
    decreases Load(h, q)
  {
    if q == [] then []
    else
      LoadStep(h, q);
      (if IsLeaf(h, q[0]) then [q[0]] else []) + BfsLeaves(h, q[1..] + h.children(q[0]))
  }

  /** x is n itself or one of its descendants. */
  ghost predicate Reaches(h: Hierarchy, n: NodeId, x: NodeId)
    requires WellRanked(h)
    decreases h.rank(n)
  {
    x == n || exists k :: 0 <= k < |h.children(n)| && Reaches(h, h.children(n)[k], x)
  }

  /** x is one of the nodes of s or a descendant of one. */
  ghost predicate ReachesAny(h: Hierarchy, s: seq<NodeId>, x: NodeId)
    requires WellRanked(h)
  {
    exists j :: 0 <= j < |s| && Reaches(h, s[j], x)
  }

  lemma ReachesAnyAppend(h: Hierarchy, a: seq<NodeId>, b: seq<NodeId>, x: NodeId)
    requires WellRanked(h)
    ensures ReachesAny(h, a + b, x) <==> ReachesAny(h, a, x) || ReachesAny(h, b, x)
  {
    if ReachesAny(h, a + b, x) {
      var j :| 0 <= j < |a + b| && Reaches(h, (a + b)[j], x);
      if j >= |a| {
        assert (a + b)[j] == b[j - |a|];
      }
    }
    if ReachesAny(h, a, x) {
      var j :| 0 <= j < |a| && Reaches(h, a[j], x);
      assert (a + b)[j] == a[j];
    }
    if ReachesAny(h, b, x) {
      var j :| 0 <= j < |b| && Reaches(h, b[j], x);
      assert (a + b)[|a| + j] == b[j];
    }
  }

  lemma ReachesAnyCons(h: Hierarchy, q: seq<NodeId>, x: NodeId)
    requires WellRanked(h) && q != []
    ensures ReachesAny(h, q, x) <==> Reaches(h, q[0], x) || ReachesAny(h, q[1..], x)
  {
    if ReachesAny(h, q, x) {
      var j :| 0 <= j < |q| && Reaches(h, q[j], x);
      if j > 0 {
        assert q[1..][j - 1] == q[j];
      }
    }
    if ReachesAny(h, q[1..], x) {
      var j :| 0 <= j < |q[1..]| && Reaches(h, q[1..][j], x);
      assert q[j + 1] == q[1..][j];
    }
  }

  /**
   The leaf set is exactly the childless nodes among the worklist's nodes and
   their descendants, whatever order the traversal takes.
   */
  lemma {:induction false} BfsLeavesExact(h: Hierarchy, q: seq<NodeId>, x: NodeId)
    requires WellRanked(h)
    ensures x in BfsLeaves(h, q) <==> IsLeaf(h, x) && ReachesAny(h, q, x)
    decreases Load(h, q)
  {
    if q != [] {
      LoadStep(h, q);
      var a, rest := q[0], q[1..] + h.children(q[0]);
      BfsLeavesExact(h, rest, x);
      ReachesAnyAppend(h, q[1..], h.children(a), x);
      ReachesAnyCons(h, q, x);
      assert Reaches(h, a, x) <==> x == a || ReachesAny(h, h.children(a), x);
    }
  }

  /** Every node of the leaf set has no children. */
  lemma BfsLeavesAreLeaves(h: Hierarchy, q: seq<NodeId>)
    requires WellRanked(h)
    ensures forall k :: 0 <= k < |BfsLeaves(h, q)| ==> IsLeaf(h, BfsLeaves(h, q)[k])
  {
    forall k | 0 <= k < |BfsLeaves(h, q)|
      ensures IsLeaf(h, BfsLeaves(h, q)[k])
    {
      BfsLeavesExact(h, q, BfsLeaves(h, q)[k]);
    }
  }

  /**
   A selection of a leaf A and a node B whose two children are leaves yields
   A and then B's two children.
   */
  lemma TwoLevelSelection()
    ensures var h := Hierarchy(n => if n == 2 then [3, 4] else [], n => if n == 2 then 1 else 0);
            WellRanked(h) && BfsLeaves(h, [1, 2]) == [1, 3, 4]
  {
    var h := Hierarchy(n => if n == 2 then [3, 4] else [], n => if n == 2 then 1 else 0);
    assert WellRanked(h);
    assert [1, 2][1..] + h.children(1) == [2];
    assert [2][1..] + h.children(2) == [3, 4];
    assert [3, 4][1..] + h.children(3) == [4];
    assert [4][1..] + h.children(4) == [];
  }

  /** No node lies in the subtrees of two different positions of s. */
  ghost predicate DisjointSubtrees(h: Hierarchy, s: seq<NodeId>)
    requires WellRanked(h)
  {
    forall i, j, x :: 0 <= i < j < |s| && Reaches(h, s[i], x) ==> !Reaches(h, s[j], x)
  }

  /** Every node's children have disjoint subtrees: the hierarchy is a tree. */
  ghost predicate TreeShaped(h: Hierarchy)
    requires WellRanked(h)
  {
    forall n :: DisjointSubtrees(h, h.children(n))
  }

  /** What a child's subtree holds, its parent's subtree holds too. */
  lemma ReachesThroughChild(h: Hierarchy, n: NodeId, k: nat, x: NodeId)
    requires WellRanked(h) && k < |h.children(n)|
    ensures Reaches(h, h.children(n)[k], x) ==> Reaches(h, n, x)
  {
  }

  /** In a tree, replacing the head of a disjoint worklist by its children keeps the worklist disjoint. */
  lemma StepKeepsDisjoint(h: Hierarchy, q: seq<NodeId>)
    requires WellRanked(h) && TreeShaped(h) && q != [] && DisjointSubtrees(h, q)
    ensures DisjointSubtrees(h, q[1..] + h.children(q[0]))
  {
    var n := q[0];
    var kids := h.children(n);
    var r := q[1..] + kids;
    var m := |q| - 1;
    assert DisjointSubtrees(h, kids);
    forall i, j, x | 0 <= i < j < |r| && Reaches(h, r[i], x)
      ensures !Reaches(h, r[j], x)
    {
      if j < m {
        assert r[i] == q[i + 1] && r[j] == q[j + 1];
      } else if i < m {
        assert r[i] == q[i + 1] && r[j] == kids[j - m];
        ReachesThroughChild(h, n, j - m, x);
      } else {
        assert r[i] == kids[i - m] && r[j] == kids[j - m];
      }
    }
  }

  /**
   In a tree, a worklist whose nodes have disjoint subtrees yields every leaf
   at most once.
   */
  lemma {:induction false} BfsLeavesDistinct(h: Hierarchy, q: seq<NodeId>)
    requires WellRanked(h) && TreeShaped(h) && DisjointSubtrees(h, q)
    ensures forall a, b :: 0 <= a < b < |BfsLeaves(h, q)| ==> BfsLeaves(h, q)[a] != BfsLeaves(h, q)[b]
    decreases Load(h, q)
  {
    if q != [] {
      LoadStep(h, q);
      var n := q[0];
      var rest := q[1..] + h.children(n);
      StepKeepsDisjoint(h, q);
      BfsLeavesDistinct(h, rest);
      var tail := BfsLeaves(h, rest);
      if IsLeaf(h, n) {
        BfsLeavesExact(h, rest, n);
        ReachesAnyAppend(h, q[1..], h.children(n), n);
        assert n !in tail;
        var all := BfsLeaves(h, q);
        assert all == [n] + tail;
        forall a, b | 0 <= a < b < |all|
          ensures all[a] != all[b]
        {
          if a == 0 {
            assert all[b] == tail[b - 1];
          } else {
            assert all[a] == tail[a - 1] && all[b] == tail[b - 1];
          }
        }
      }
    }
  }

  /**
   The worklist keeps no record of what it has met: selecting a node together
   with its only child, a leaf, yields that leaf twice.
   */
  lemma OverlappingSelectionRepeatsLeaves()
    ensures var h := Hierarchy(n => if n == 2 then [3] else [], n => if n == 2 then 1 else 0);
            WellRanked(h) && BfsLeaves(h, [2, 3]) == [3, 3]
  {
    var h := Hierarchy(n => if n == 2 then [3] else [], n => if n == 2 then 1 else 0);
    assert WellRanked(h);
    assert [2, 3][1..] + h.children(2) == [3, 3];
    assert [3, 3][1..] + h.children(3) == [3];
    assert [3][1..] + h.children(3) == [];
  }
}
