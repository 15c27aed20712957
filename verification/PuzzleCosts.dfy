/** The costs by which the informed strategies of the puzzle search sort (main.c): find_h and move(). */
module PuzzleCosts {
  import opened Puzzle
  import opened PuzzleSearch

  /** Where a tile is in the goal. */
  function Home(x: int): (k: int) { if x == 0 then 15 else x - 1 }

  /** How far the tile at `i` is from home. */
  function Away(x: int, i: nat): (d: nat) { Gap(i / N, Home(x) / N) + Gap(i % N, Home(x) % N) }

  lemma {:induction false} ZeroSoFar(b: Board, n: nat)
    requires IsBoard(b) && n <= 16
    ensures Distance(b, n) == 0 <==> forall i :: 0 <= i < n ==> Home(b[i]) == i
  {
    if n > 0 {
      ZeroSoFar(b, n - 1);
      assert Distance(b, n) == Distance(b, n - 1) + Away(b[n - 1], n - 1);
    }
  }

  /** The distance is zero at the goal and nowhere else. */
  lemma ZeroAtGoal(b: Board)
    requires IsBoard(b)
    ensures Distance(b, 16) == 0 <==> b == Goal()
  {
    ZeroSoFar(b, 16);
    var g := Goal();
    if forall i :: 0 <= i < 16 ==> Home(b[i]) == i {
      assert b == g;
    }
  }

  /** Two boards that differ in two places only. */
  lemma {:induction false} DistanceDiffers(b: Board, r: Board, p: int, q: int, n: nat)
    requires IsBoard(b) && IsBoard(r) && n <= 16 && 0 <= p < 16 && 0 <= q < 16 && p != q
    requires forall i :: 0 <= i < 16 && i != p && i != q ==> r[i] == b[i]
    ensures Distance(r, n) - Distance(b, n)
            == (if p < n then Away(r[p], p) - Away(b[p], p) else 0) + (if q < n then Away(r[q], q) - Away(b[q], q) else 0)
  {
    if n > 0 {
      DistanceDiffers(b, r, p, q, n - 1);
      assert Distance(b, n) == Distance(b, n - 1) + Away(b[n - 1], n - 1);
      assert Distance(r, n) == Distance(r, n - 1) + Away(r[n - 1], n - 1);
    }
  }

  /** A step to a neighbouring place is one nearer to home or one farther from it. */
  lemma OneStep(x: int, p: int, dir: Dir)
    requires 0 <= p < 16 && 0 <= x < 16 && CanMove(p, dir)
    ensures 0 <= Target(p, dir) < 16 && Away(x, Target(p, dir)) - Away(x, p) in {-1, 1}
  {
    var q := Target(p, dir);
    assert dir.DN? || dir.UP? ==> q % N == p % N && (q / N - p / N) in {-1, 1};
    assert dir.RT? || dir.LT? ==> q / N == p / N && (q % N - p % N) in {-1, 1};
  }

  /** The tile and the blank both count, so a move changes the distance by two or not at all. */
  lemma MoveDistance(b: Board, dir: Dir)
    requires Legal(b, dir)
    ensures IsBoard(Move(b, dir)) && Distance(Move(b, dir), 16) - Distance(b, 16) in {-2, 0, 2}
  {
    var p, r := Blank(b), Move(b, dir);
    var q := Target(p, dir);
    MoveAndBack(b, dir);
    DistanceDiffers(b, r, p, q, 16);
    OneStep(0, p, dir);
    OneStep(b[q], p, dir);
  }

  /** Next to the goal it is already two: it can exceed the number of moves that are left. */
  lemma TwoNextToGoal(b: Board, dir: Dir)
    requires Legal(b, dir) && Move(b, dir) == Goal()
    ensures Distance(b, 16) == 2
  {
    MoveAndBack(b, dir);
    MoveDistance(b, dir);
    ZeroAtGoal(Move(b, dir));
    ZeroAtGoal(b);
  }

  /** What a successor records: one move more than its parent, the distance, and their sum; the other strategies
      record nothing. */
  ghost predicate Recorded(n: Node, cp: Node, strategy: Strategy) {
    if strategy.ASTAR? || strategy.BEST? then IsBoard(n.board) && n.g == cp.g + 1 && n.h == Distance(n.board, 16) && n.f == n.g + n.h
    else n.f == n.g == n.h == 0
  }

  lemma {:induction false} ChildrenRecord(cp: Node, dirs: seq<Dir>, strategy: Strategy)
    requires IsBoard(cp.board)
    ensures forall n :: n in Children(cp, dirs, strategy) ==> Recorded(n, cp, strategy)
  {
    if dirs != [] {
      var n := |dirs| - 1;
      ChildrenRecord(cp, dirs[..n], strategy);
      if Legal(cp.board, dirs[n]) {
        MoveAndBack(cp.board, dirs[n]);
      }
    }
  }
}
