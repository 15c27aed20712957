/** Merging new nodes into the open list of the puzzle search (main.c). */
module PuzzleMerge {
  import opened Puzzle
  import opened PuzzleSearch

  function Key(n: Node, strategy: Strategy): (k: int) { if strategy.ASTAR? then n.f else n.h }

  /** The successors as merge_smart puts them in front: the smallest key first. */
  ghost predicate Sorted(s: seq<Node>, strategy: Strategy) {
    forall i, j :: 0 <= i < j < |s| ==> Key(s[i], strategy) <= Key(s[j], strategy)
  }

  /** The nodes with one key, in their order. */
  ghost function WithKey(s: seq<Node>, v: int, strategy: Strategy): (r: seq<Node>) {
    if s == [] then []
    else
      var n := |s| - 1;
      WithKey(s[..n], v, strategy) + (if Key(s[n], strategy) == v then [s[n]] else [])
  }

  lemma {:induction false} WithKeyConcat(s: seq<Node>, t: seq<Node>, v: int, strategy: Strategy)
    ensures WithKey(s + t, v, strategy) == WithKey(s, v, strategy) + WithKey(t, v, strategy)
  {
    if t == [] {
      assert s + t == s;
    } else {
      var n := |t| - 1;
      WithKeyConcat(s, t[..n], v, strategy);
      assert (s + t)[..|s| + n] == s + t[..n] && (s + t)[|s| + n] == t[n];
    }
  }

  lemma {:induction false} NoneWithKey(s: seq<Node>, v: int, strategy: Strategy)
    requires forall i :: 0 <= i < |s| ==> Key(s[i], strategy) != v
    ensures WithKey(s, v, strategy) == []
  {
    if s != [] {
      NoneWithKey(s[..|s| - 1], v, strategy);
    }
  }

  lemma OneWithKey(n: Node, v: int, strategy: Strategy)
    ensures WithKey([n], v, strategy) == if Key(n, strategy) == v then [n] else []
  {
    assert [n][..0] == [];
  }

  /** Nodes with the same key are in `front` and `left` together in the order of `succ`. */
  ghost predicate KeepsOrder(succ: seq<Node>, left: seq<Node>, front: seq<Node>, strategy: Strategy) {
    forall v :: WithKey(succ, v, strategy) == WithKey(left, v, strategy) + WithKey(front, v, strategy)
  }

  lemma SplitWithKey(a: seq<Node>, x: Node, b: seq<Node>, v: int, strategy: Strategy)
    ensures WithKey(a + [x] + b, v, strategy)
            == WithKey(a, v, strategy) + WithKey([x], v, strategy) + WithKey(b, v, strategy)
  {
    WithKeyConcat(a + [x], b, v, strategy);
    WithKeyConcat(a, [x], v, strategy);
  }

  /** A node that is moved to the front passes only nodes with other keys. */
  lemma MoveWithKey(a: seq<Node>, x: Node, b: seq<Node>, front: seq<Node>, v: int, strategy: Strategy)
    requires forall i :: 0 <= i < |b| ==> Key(b[i], strategy) < Key(x, strategy)
    ensures WithKey(a + b, v, strategy) + WithKey([x] + front, v, strategy)
            == WithKey(a + [x] + b, v, strategy) + WithKey(front, v, strategy)
  {
    var p, q, r, t := WithKey(a, v, strategy), WithKey([x], v, strategy), WithKey(b, v, strategy), WithKey(front, v, strategy);
    assert WithKey(a + b, v, strategy) == p + r by { WithKeyConcat(a, b, v, strategy); }
    assert WithKey([x] + front, v, strategy) == q + t by { WithKeyConcat([x], front, v, strategy); }
    assert WithKey(a + [x] + b, v, strategy) == p + q + r by { SplitWithKey(a, x, b, v, strategy); }
    assert q == [] || r == [] by {
      OneWithKey(x, v, strategy);
      if v == Key(x, strategy) {
        NoneWithKey(b, v, strategy);
      }
    }
    Regroup(p, q, r, t);
  }

  lemma TakeLastWithKey(left: seq<Node>, k: nat, front: seq<Node>, v: int, strategy: Strategy)
    requires k < |left| && forall i :: k < i < |left| ==> Key(left[i], strategy) < Key(left[k], strategy)
    ensures WithKey(left[..k] + left[k + 1..], v, strategy) + WithKey([left[k]] + front, v, strategy)
            == WithKey(left, v, strategy) + WithKey(front, v, strategy)
  {
    assert left[..k] + [left[k]] + left[k + 1..] == left;
    MoveWithKey(left[..k], left[k], left[k + 1..], front, v, strategy);
  }

  lemma Regroup(a: seq<Node>, x: seq<Node>, b: seq<Node>, f: seq<Node>)
    requires x == [] || b == []
    ensures (a + b) + (x + f) == a + x + b + f
  {
  }

  /** Every node of `a` sorts before every node of `b`. */
  ghost predicate AllBefore(a: seq<Node>, b: seq<Node>, strategy: Strategy) {
    forall i, j :: 0 <= i < |a| && 0 <= j < |b| ==> Key(a[i], strategy) <= Key(b[j], strategy)
  }

  ghost predicate NonNegative(s: seq<Node>, strategy: Strategy) {
    forall i :: 0 <= i < |s| ==> Key(s[i], strategy) >= 0
  }

  /** What the loop has reached: `front` is sorted and goes before nothing that is still `left`. */
  ghost predicate Merging(succ: seq<Node>, left: seq<Node>, front: seq<Node>, strategy: Strategy) {
    && |front| + |left| == |succ| && multiset(front) + multiset(left) == multiset(succ)
    && Sorted(front, strategy) && AllBefore(left, front, strategy) && KeepsOrder(succ, left, front, strategy)
  }

  /** The last of the greatest nodes goes to the front. */
  lemma TakeLast(succ: seq<Node>, left: seq<Node>, k: nat, front: seq<Node>, strategy: Strategy)
    requires k < |left| && Merging(succ, left, front, strategy)
    requires forall i :: 0 <= i < |left| ==> Key(left[i], strategy) <= Key(left[k], strategy)
    requires forall i :: k < i < |left| ==> Key(left[i], strategy) < Key(left[k], strategy)
    ensures Merging(succ, left[..k] + left[k + 1..], [left[k]] + front, strategy)
  {
    var rest, now := left[..k] + left[k + 1..], [left[k]] + front;
    TakeGreatest(left, k, front, strategy);
    assert multiset(now) == multiset([left[k]]) + multiset(front);
    forall v
      ensures WithKey(succ, v, strategy) == WithKey(rest, v, strategy) + WithKey(now, v, strategy)
    {
      TakeLastWithKey(left, k, front, v, strategy);
    }
  }

  lemma TakeGreatest(left: seq<Node>, k: nat, front: seq<Node>, strategy: Strategy)
    requires k < |left| && AllBefore(left, front, strategy) && Sorted(front, strategy)
    requires forall i :: 0 <= i < |left| ==> Key(left[i], strategy) <= Key(left[k], strategy)
    ensures var rest := left[..k] + left[k + 1..];
            && AllBefore(rest, [left[k]] + front, strategy) && Sorted([left[k]] + front, strategy)
            && multiset(left) == multiset(rest) + multiset([left[k]])
  {
    assert left == left[..k] + [left[k]] + left[k + 1..];
  }

  /** merge_smart: moves the last successor with the greatest key to the front until none is left, which
      sorts the successors and keeps the order of those with the same key. */
  method MergeSmart(succ: seq<Node>, open: seq<Node>, strategy: Strategy) returns (r: seq<Node>)
    requires NonNegative(succ, strategy)
    ensures |r| == |succ| + |open| && r[|succ|..] == open && IsMerged(succ, r[..|succ|], strategy)
  {
    var left := succ;
    ghost var front: seq<Node> := [];
    r := open;
    NothingMerged(succ, strategy);
    while left != []
      invariant r == front + open && Merging(succ, left, front, strategy) && NonNegative(left, strategy)
      decreases |left|
    {
      var k := LastGreatest(left, strategy);
      var insert := left[k];
      TakeLast(succ, left, k, front, strategy);
      left := left[..k] + left[k + 1..];
      r := [insert] + r;
      front := [insert] + front;
    }
    assert r[..|front|] == front;
  }

  /** Sorted, the same nodes, and those with the same key in the order they had. */
  ghost predicate IsMerged(succ: seq<Node>, front: seq<Node>, strategy: Strategy) {
    multiset(front) == multiset(succ) && Sorted(front, strategy) && KeepsOrder(succ, [], front, strategy)
  }

  lemma NothingMerged(succ: seq<Node>, strategy: Strategy)
    ensures Merging(succ, succ, [], strategy)
  {
    assert forall v :: WithKey(succ, v, strategy) + WithKey([], v, strategy) == WithKey(succ, v, strategy);
  }

  method LastGreatest(list: seq<Node>, strategy: Strategy) returns (k: nat)
    requires list != [] && NonNegative(list, strategy)
    ensures k < |list| && forall i :: 0 <= i < |list| ==> Key(list[i], strategy) <= Key(list[k], strategy)
    ensures forall i :: k < i < |list| ==> Key(list[i], strategy) < Key(list[k], strategy)
  {
    var maxF := -1;
    k := 0;
    for i := 0 to |list|
      invariant if i == 0 then maxF == -1 else k < i && maxF == Key(list[k], strategy)
      invariant forall j :: 0 <= j < i ==> Key(list[j], strategy) <= maxF
      invariant forall j :: k < j < i ==> Key(list[j], strategy) < maxF
    {
      if Key(list[i], strategy) >= maxF {
        maxF, k := Key(list[i], strategy), i;
      }
    }
  }

  /** Where each strategy puts the successors: depth-first in front, breadth-first behind, the others sorted in
      front. */
  ghost predicate MergedInto(succ: seq<Node>, open: seq<Node>, strategy: Strategy, r: seq<Node>) {
    && (strategy.DFS? ==> r == succ + open)
    && (strategy.BFS? ==> r == open + succ)
    && (!strategy.DFS? && !strategy.BFS? ==>
          && |r| == |succ| + |open| && r[|succ|..] == open
          && IsMerged(succ, r[..|succ|], if strategy.BEST? then BEST else ASTAR))
  }

  lemma NothingToMerge(open: seq<Node>, strategy: Strategy)
    ensures MergedInto([], open, strategy, open)
  {
    assert open + [] == open && [] + open == open;
  }

  /** merge: all strategies add exactly the successors; depth-first in front, breadth-first behind,
      the others sorted in front. */
  method Merge(succ: seq<Node>, open: seq<Node>, strategy: Strategy) returns (r: seq<Node>)
    requires NonNegative(succ, BEST) && NonNegative(succ, ASTAR)
    ensures MergedInto(succ, open, strategy, r)
    ensures multiset(r) == multiset(succ) + multiset(open)
    ensures strategy.BEST? ==> forall i, j :: 0 <= i < j < |succ| ==> r[i].h <= r[j].h
    ensures strategy.ASTAR? ==> forall i, j :: 0 <= i < j < |succ| ==> r[i].f <= r[j].f
  {
    if strategy.DFS? {
      r := succ + open;
    } else if strategy.BFS? {
      r := open + succ;
    } else {
      r := MergeSmart(succ, open, if strategy.BEST? then BEST else ASTAR);
      assert r == r[..|succ|] + r[|succ|..];
    }
  }
}
