/** The search for the goal board (main.c): the open and closed lists, the merging strategies, and the
    path read back from the closed list. */
module PuzzleSearch {
  import opened Puzzle

  const MAX_PATH := 1000

  datatype Strategy = DFS | BFS | BEST | BB | ASTAR | UNKNOWN

  /** A board, the move that led to it, and what the informed strategies sort by. */
  datatype Node = Node(board: Board, dir: Dir, f: int, g: int, h: int)

  /** find_h: how far every tile, the blank included, is from its place in the goal. */
  function Distance(b: Board, i: nat): (h: nat)
    requires IsBoard(b) && i <= 16
  {
    if i == 0 then 0
    else
      var k := if b[i - 1] == 0 then 15 else b[i - 1] - 1;
      Distance(b, i - 1) + Gap((i - 1) / N, k / N) + Gap((i - 1) % N, k % N)
  }

  function Gap(a: int, b: int): (d: nat) { if a < b then b - a else a - b }

  // ---------------------------------------------------------------------------
  // Lists of nodes
  // ---------------------------------------------------------------------------

  ghost predicate HasBoard(list: seq<Node>, b: Board) { exists n :: n in list && n.board == b }

  ghost predicate Distinct(list: seq<Node>) {
    forall i, j :: 0 <= i < j < |list| ==> list[i].board != list[j].board
  }

  ghost predicate AllBoards(list: seq<Node>) { forall n :: n in list ==> IsBoard(n.board) }

  ghost predicate Disjoint(a: seq<Node>, b: seq<Node>) {
    forall n, m :: n in a && m in b ==> n.board != m.board
  }

  /** `n` is `p` after the move recorded in `n`. */
  predicate ComesFrom(n: Node, p: Node) { Legal(p.board, n.dir) && Move(p.board, n.dir) == n.board }

  /** One of the first `upto` closed nodes is the one from which `n` was made. */
  ghost predicate HasParent(n: Node, closed: seq<Node>, upto: nat) {
    exists i {:trigger closed[i]} :: 0 <= i < upto && i < |closed| && ComesFrom(n, closed[i])
  }

  ghost predicate Explained(n: Node, start: Board, closed: seq<Node>, upto: nat) {
    n.board == start || HasParent(n, closed, upto)
  }

  /** The invariant of the main loop. */
  ghost predicate SearchInv(start: Board, open: seq<Node>, closed: seq<Node>) {
    && AllBoards(open) && AllBoards(closed)
    && Distinct(open) && Distinct(closed) && Disjoint(open, closed)
    && (forall n :: n in open ==> Explained(n, start, closed, |closed|))
    && (forall i {:trigger Explained(closed[i], start, closed, i)} :: 0 <= i < |closed| ==> Explained(closed[i], start, closed, i))
  }

  // ---------------------------------------------------------------------------
  // expand
  // ---------------------------------------------------------------------------

  function Child(cp: Node, dir: Dir, strategy: Strategy): (n: Node)
    requires Legal(cp.board, dir)
  {
    var b := Move(cp.board, dir);
    MoveAndBack(cp.board, dir);
    if strategy.ASTAR? || strategy.BEST? then
      var h, g := Distance(b, 16), cp.g + 1;
      Node(b, dir, g + h, g, h)
    else Node(b, dir, 0, 0, 0)
  }

  function Children(cp: Node, dirs: seq<Dir>, strategy: Strategy): (s: seq<Node>)
    requires IsBoard(cp.board)
  {
    if dirs == [] then []
    else
      var n := |dirs| - 1;
      Children(cp, dirs[..n], strategy) + (if Legal(cp.board, dirs[n]) then [Child(cp, dirs[n], strategy)] else [])
  }

  const DIRS: seq<Dir> := [DN, RT, UP, LT]

  /** expand: one successor for every legal move, in the order down, right, up, left. */
  method Expand(cp: Node, strategy: Strategy) returns (succ: seq<Node>)
    requires IsBoard(cp.board)
    ensures succ == Children(cp, DIRS, strategy)
  {
    var p := FindBlank(cp.board);
    var i, j := p / N, p % N;
    succ := [];
    succ := TryMove(cp, succ, [], DN, i + 1 < N, strategy, [DN]);
    succ := TryMove(cp, succ, [DN], RT, j + 1 < N, strategy, [DN, RT]);
    succ := TryMove(cp, succ, [DN, RT], UP, i - 1 >= 0, strategy, [DN, RT, UP]);
    succ := TryMove(cp, succ, [DN, RT, UP], LT, j - 1 >= 0, strategy, DIRS);
  }

  /** Appends the successor for one more direction, if there is one. */
  method TryMove(cp: Node, succ: seq<Node>, ghost dirs: seq<Dir>, dir: Dir, can: bool, strategy: Strategy,
                 ghost after: seq<Dir>) returns (r: seq<Node>)
    requires after == dirs + [dir] && IsBoard(cp.board) && succ == Children(cp, dirs, strategy)
             && can == CanMove(Blank(cp.board), dir)
    ensures r == Children(cp, after, strategy)
  {
    assert after[..|dirs|] == dirs;
    r := succ;
    if can {
      r := r + [Child(cp, dir, strategy)];
    }
  }

  method FindBlank(b: Board) returns (p: int)
    requires IsBoard(b)
    ensures p == Blank(b)
  {
    p := 0;
    while b[p] != 0
      invariant 0 <= p <= Blank(b) && forall i :: 0 <= i < p ==> b[i] != 0
      decreases 16 - p
    {
      p := p + 1;
    }
  }

  /** The successors are boards, all different from each other and from their parent. */
  lemma {:induction false} ChildrenAreNew(cp: Node, dirs: seq<Dir>, strategy: Strategy)
    requires IsBoard(cp.board) && forall i, j :: 0 <= i < j < |dirs| ==> dirs[i] != dirs[j]
    ensures var s := Children(cp, dirs, strategy);
            && AllBoards(s) && Distinct(s) && !HasBoard(s, cp.board)
            && forall n :: n in s ==> ComesFrom(n, cp) && n.dir in dirs
  {
    if dirs != [] {
      var n := |dirs| - 1;
      ChildrenAreNew(cp, dirs[..n], strategy);
      var s := Children(cp, dirs[..n], strategy);
      if Legal(cp.board, dirs[n]) {
        MoveAndBack(cp.board, dirs[n]);
        forall m | m in s
          ensures m.board != Move(cp.board, dirs[n])
        {
          assert m.dir in dirs[..n];
          MovesDiffer(cp.board, m.dir, dirs[n]);
        }
      }
    }
  }

  // ---------------------------------------------------------------------------
  // filter
  // ---------------------------------------------------------------------------

  /** The nodes whose board is not in the list, in their order. */
  ghost function Fresh(succ: seq<Node>, list: seq<Node>): (r: seq<Node>)
    ensures forall n :: n in r <==> n in succ && !HasBoard(list, n.board)
  {
    if succ == [] then []
    else
      var n := |succ| - 1;
      Fresh(succ[..n], list) + (if HasBoard(list, succ[n].board) then [] else [succ[n]])
  }

  method Member(b: Board, list: seq<Node>) returns (found: bool)
    ensures found <==> HasBoard(list, b)
  {
    for t := 0 to |list|
      invariant forall k :: 0 <= k < t ==> list[k].board != b
    {
      if list[t].board == b {
        assert list[t] in list;
        return true;
      }
    }
    found := false;
  }

  lemma FreshStep(succ: seq<Node>, list: seq<Node>, k: nat)
    requires k < |succ|
    ensures Fresh(succ[..k + 1], list) == Fresh(succ[..k], list) + (if HasBoard(list, succ[k].board) then [] else [succ[k]])
  {
    assert succ[..k + 1][..k] == succ[..k];
  }

  /** What is left of the successors: the first `done` were looked at, of which `kept` stay. */
  ghost predicate Filtered(succ: seq<Node>, list: seq<Node>, done: nat, kept: seq<Node>, r: seq<Node>) {
    done <= |succ| && kept == Fresh(succ[..done], list) && r == kept + succ[done..]
  }

  /** filter: takes the nodes out that are in the list. */
  method Filter(succ: seq<Node>, list: seq<Node>) returns (r: seq<Node>)
    ensures r == Fresh(succ, list)
  {
    r := succ;
    var i := 0;
    ghost var done, kept: seq<Node> := 0, [];
    while i < |r|
      invariant i == |kept| && Filtered(succ, list, done, kept, r)
      decreases |succ| - done
    {
      OneFiltered(succ, list, done, kept, r);
      var found := Member(r[i].board, list);
      if found {
        r := r[..i] + r[i + 1..];
      } else {
        kept := kept + [r[i]];
        i := i + 1;
      }
      done := done + 1;
    }
    AllFiltered(succ, list, done, kept, r);
  }

  lemma OneFiltered(succ: seq<Node>, list: seq<Node>, done: nat, kept: seq<Node>, r: seq<Node>)
    requires Filtered(succ, list, done, kept, r) && |kept| < |r|
    ensures done < |succ| && r[|kept|] == succ[done]
    ensures if HasBoard(list, succ[done].board)
            then Filtered(succ, list, done + 1, kept, r[..|kept|] + r[|kept| + 1..])
            else Filtered(succ, list, done + 1, kept + [succ[done]], r)
  {
    FreshStep(succ, list, done);
    CutOut(kept, succ, done);
    KeepOne(kept, succ, done);
  }

  lemma CutOut(f: seq<Node>, succ: seq<Node>, k: nat)
    requires k < |succ|
    ensures var r := f + succ[k..]; r[..|f|] + r[|f| + 1..] == f + succ[k + 1..]
  {
    var r := f + succ[k..];
    assert r[..|f|] == f && r[|f| + 1..] == succ[k + 1..];
  }

  lemma KeepOne(f: seq<Node>, succ: seq<Node>, k: nat)
    requires k < |succ|
    ensures f + succ[k..] == f + [succ[k]] + succ[k + 1..] && (f + succ[k..])[|f|] == succ[k]
  {
    assert succ[k..] == [succ[k]] + succ[k + 1..];
  }

  lemma AllFiltered(succ: seq<Node>, list: seq<Node>, done: nat, kept: seq<Node>, r: seq<Node>)
    requires Filtered(succ, list, done, kept, r) && |r| <= |kept|
    ensures r == Fresh(succ, list)
  {
    assert succ[done..] == [] && succ[..done] == succ;
  }

  lemma {:induction false} FreshKeepsDistinct(succ: seq<Node>, list: seq<Node>)
    requires Distinct(succ)
    ensures Distinct(Fresh(succ, list))
  {
    if succ != [] {
      var n := |succ| - 1;
      var init := Fresh(succ[..n], list);
      FreshKeepsDistinct(succ[..n], list);
      forall i | 0 <= i < |init|
        ensures init[i].board != succ[n].board
      {
        assert init[i] in succ[..n];
      }
    }
  }

  lemma FreshIsDisjoint(succ: seq<Node>, list: seq<Node>)
    ensures Disjoint(Fresh(succ, list), list)
  {
    var r := Fresh(succ, list);
    forall n, m | n in r && m in list
      ensures n.board != m.board
    {
      assert !HasBoard(list, n.board);
    }
  }

  // ---------------------------------------------------------------------------
  // One turn of the main loop keeps the invariant
  // ---------------------------------------------------------------------------

  lemma {:induction false} DistinctCount(s: seq<Node>, n: Node)
    requires Distinct(s)
    ensures multiset(s)[n] <= 1
  {
    if s != [] {
      var k := |s| - 1;
      DistinctCount(s[..k], n);
      assert s == s[..k] + [s[k]];
      assert s[k] !in s[..k];
    }
  }

  lemma PermutationDistinct(p: seq<Node>, s: seq<Node>)
    requires Distinct(s) && multiset(p) == multiset(s)
    ensures Distinct(p)
  {
    forall i, j | 0 <= i < j < |p|
      ensures p[i].board != p[j].board
    {
      assert p[i] in multiset(p) && p[j] in multiset(p);
      assert p[i] in s && p[j] in s;
      assert p == p[..j] + p[j..] && p[i] in p[..j] && p[j] in p[j..];
      DistinctCount(s, p[i]);
    }
  }

  lemma DistinctConcat(a: seq<Node>, b: seq<Node>)
    requires Distinct(a) && Distinct(b) && Disjoint(a, b)
    ensures Distinct(a + b)
  {
    forall i, j | 0 <= i < j < |a + b|
      ensures (a + b)[i].board != (a + b)[j].board
    {
      if i < |a| <= j {
        assert a[i] in a && b[j - |a|] in b;
      }
    }
  }

  lemma SameElements(p: seq<Node>, a: seq<Node>, b: seq<Node>)
    requires multiset(p) == multiset(a) + multiset(b)
    ensures forall n :: n in p <==> n in a || n in b
  {
    forall n
      ensures n in p <==> n in a || n in b
    {
      assert n in p <==> n in multiset(p);
      assert n in a <==> n in multiset(a);
      assert n in b <==> n in multiset(b);
    }
  }

  /** Nothing that was explained loses its explanation. */
  lemma StillExplained(n: Node, start: Board, closed: seq<Node>, cp: Node, upto: nat)
    requires Explained(n, start, closed, upto) && upto <= |closed|
    ensures Explained(n, start, closed + [cp], upto) && Explained(n, start, closed + [cp], |closed| + 1)
  {
    if n.board != start {
      var i :| 0 <= i < upto && i < |closed| && ComesFrom(n, closed[i]);
      assert (closed + [cp])[i] == closed[i];
    }
  }

  lemma NewlyExplained(n: Node, start: Board, closed: seq<Node>, cp: Node)
    requires ComesFrom(n, cp)
    ensures Explained(n, start, closed + [cp], |closed| + 1)
  {
    assert (closed + [cp])[|closed|] == cp;
  }

  /** What the invariant says of the first open node and the rest. */
  lemma FirstOpen(start: Board, cp: Node, open: seq<Node>, closed: seq<Node>)
    requires SearchInv(start, [cp] + open, closed)
    ensures IsBoard(cp.board) && Explained(cp, start, closed, |closed|) && !HasBoard(closed, cp.board)
            && !HasBoard(open, cp.board)
    ensures SearchInv(start, open, closed)
  {
    var whole := [cp] + open;
    assert whole[0] == cp && cp in whole && forall n :: n in open ==> n in whole;
    assert forall i :: 0 <= i < |open| ==> open[i] == whole[i + 1];
    forall n | n in open
      ensures n.board != cp.board
    {
      var i :| 0 <= i < |open| && open[i] == n;
      assert whole[i + 1] == n;
    }
  }

  /** `cp` is expanded, its successors are filtered against both lists and merged, and it is closed. */
  lemma StepKeepsInv(start: Board, cp: Node, open: seq<Node>, closed: seq<Node>, all: seq<Node>, succ: seq<Node>,
                     open': seq<Node>)
    requires SearchInv(start, [cp] + open, closed)
    requires AllBoards(all) && Distinct(all) && !HasBoard(all, cp.board) && forall n :: n in all ==> ComesFrom(n, cp)
    requires succ == Fresh(Fresh(all, open), closed) && multiset(open') == multiset(succ) + multiset(open)
    ensures SearchInv(start, open', closed + [cp])
  {
    FirstOpen(start, cp, open, closed);
    SuccessorsAreNew(open, closed, all, succ);
    OpenStaysDistinct(open, succ, open');
    SameElements(open', succ, open);
    OpenStaysExplained(start, cp, open, closed, succ, open');
    ClosedStaysExplained(start, cp, closed);
    DistinctConcat(closed, [cp]);
  }

  lemma SuccessorsAreNew(open: seq<Node>, closed: seq<Node>, all: seq<Node>, succ: seq<Node>)
    requires Distinct(all) && succ == Fresh(Fresh(all, open), closed)
    ensures Distinct(succ) && Disjoint(succ, open) && Disjoint(succ, closed) && forall n :: n in succ ==> n in all
  {
    FreshKeepsDistinct(all, open);
    FreshKeepsDistinct(Fresh(all, open), closed);
    FreshIsDisjoint(all, open);
    FreshIsDisjoint(Fresh(all, open), closed);
  }

  lemma OpenStaysDistinct(open: seq<Node>, succ: seq<Node>, open': seq<Node>)
    requires Distinct(succ) && Distinct(open) && Disjoint(succ, open)
             && multiset(open') == multiset(succ) + multiset(open)
    ensures Distinct(open')
  {
    DistinctConcat(succ, open);
    PermutationDistinct(open', succ + open);
  }

  lemma OpenStaysExplained(start: Board, cp: Node, open: seq<Node>, closed: seq<Node>, succ: seq<Node>,
                           open': seq<Node>)
    requires (forall n :: n in open ==> Explained(n, start, closed, |closed|)) && (forall n :: n in succ ==> ComesFrom(n, cp))
    requires forall n :: n in open' <==> n in succ || n in open
    ensures forall n :: n in open' ==> Explained(n, start, closed + [cp], |closed| + 1)
  {
    forall n | n in open'
      ensures Explained(n, start, closed + [cp], |closed| + 1)
    {
      if n in open {
        StillExplained(n, start, closed, cp, |closed|);
      } else {
        NewlyExplained(n, start, closed, cp);
      }
    }
  }

  lemma ClosedStaysExplained(start: Board, cp: Node, closed: seq<Node>)
    requires Explained(cp, start, closed, |closed|)
    requires forall i :: 0 <= i < |closed| ==> Explained(closed[i], start, closed, i)
    ensures forall i :: 0 <= i < |closed + [cp]| ==> Explained((closed + [cp])[i], start, closed + [cp], i)
  {
    forall i | 0 <= i < |closed + [cp]|
      ensures Explained((closed + [cp])[i], start, closed + [cp], i)
    {
      StillExplained((closed + [cp])[i], start, closed, cp, i);
    }
  }
}
