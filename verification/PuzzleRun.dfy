/** The turns of the puzzle search (main.c) as a run of its two lists, and the turn in which it stops. */
module PuzzleRun {
  import opened Puzzle
  import opened PuzzleMerge
  import opened PuzzleSearch

  datatype Lists = Lists(open: seq<Node>, closed: seq<Node>)

  /** The lists with which the search begins. */
  function FirstLists(start: Board): (l: Lists) { Lists([Node(start, DN, 0, 0, 0)], []) }

  /** The successors of the first open node that are on neither list. */
  ghost function NewNodes(l: Lists, strategy: Strategy): (s: seq<Node>) {
    if l.open == [] || !IsBoard(l.open[0].board) then []
    else Fresh(Fresh(Children(l.open[0], DIRS, strategy), l.open[1..]), l.closed)
  }

  /** The only node that the test for the goal looks at is the goal. */
  ghost predicate GoalFirst(l: Lists, strategy: Strategy) {
    NewNodes(l, strategy) != [] && NewNodes(l, strategy)[0].board == Goal()
  }

  ghost predicate Turn(a: Lists, b: Lists, strategy: Strategy) {
    && a.open != [] && b.closed == a.closed + [a.open[0]]
    && MergedInto(NewNodes(a, strategy), a.open[1..], strategy, b.open)
  }

  ghost function Turns(strategy: Strategy): (f: (Lists, Lists) -> bool) { (a, b) => Turn(a, b, strategy) }

  ghost function GoalTest(strategy: Strategy): (f: Lists -> bool) { l => GoalFirst(l, strategy) }

  /** The run from one pair of lists to another stops with the first turn whose first new node is the goal, if there
      is one. */
  ghost predicate StopsAtGoal(run: seq<Lists>, strategy: Strategy, from: Lists, to: Lists, found: bool) {
    StopsAt(run, Turns(strategy), GoalTest(strategy), from, to, found)
  }

  /** A run that has not come to the goal. */
  ghost predicate NoGoalYet(run: seq<Lists>, strategy: Strategy, from: Lists, to: Lists) {
    Begun(run, Turns(strategy), GoalTest(strategy), from, to)
  }

  // ---------------------------------------------------------------------------
  // Runs of any turns
  // ---------------------------------------------------------------------------

  ghost predicate IsRun<T>(run: seq<T>, turn: (T, T) -> bool) {
    run != [] && forall i {:trigger turn(run[i], run[i + 1])} :: 0 <= i < |run| - 1 ==> turn(run[i], run[i + 1])
  }

  ghost predicate NoneBefore<T>(run: seq<T>, goal: T -> bool, n: int) {
    forall i {:trigger goal(run[i])} :: 0 <= i < n && i < |run| ==> !goal(run[i])
  }

  ghost predicate StopsAt<T>(run: seq<T>, turn: (T, T) -> bool, goal: T -> bool, from: T, to: T, found: bool) {
    && |run| >= 2 && IsRun(run, turn) && run[0] == from && run[|run| - 1] == to
    && NoneBefore(run, goal, |run| - 2) && (found <==> goal(run[|run| - 2]))
  }

  ghost predicate Begun<T>(run: seq<T>, turn: (T, T) -> bool, goal: T -> bool, from: T, to: T) {
    IsRun(run, turn) && run[0] == from && run[|run| - 1] == to && NoneBefore(run, goal, |run| - 1)
  }

  lemma RunGrows<T>(run: seq<T>, turn: (T, T) -> bool, goal: T -> bool, from: T, to: T, next: T)
    requires Begun(run, turn, goal, from, to) && turn(to, next)
    ensures StopsAt(run + [next], turn, goal, from, next, goal(to))
    ensures (run + [next])[|run + [next]| - 2] == to
    ensures !goal(to) ==> Begun(run + [next], turn, goal, from, next)
  {
    var now, n := run + [next], |run| - 1;
    assert now[n] == to && now[n + 1] == next;
    forall i | 0 <= i < n
      ensures turn(now[i], now[i + 1]) && !goal(now[i])
    {
      assert now[i] == run[i] && now[i + 1] == run[i + 1] && turn(run[i], run[i + 1]) && !goal(run[i]);
    }
  }

  lemma StopsAtOnce<T>(run: seq<T>, turn: (T, T) -> bool, goal: T -> bool, from: T, to: T, found: bool)
    requires StopsAt(run, turn, goal, from, to, found) && goal(from)
    ensures found && |run| == 2 && run[|run| - 2] == from
  {
    assert goal(run[0]);
  }

  /** The node is the first new one of the last turn. */
  ghost predicate FirstNew(cp: Node, run: seq<Lists>, strategy: Strategy) {
    |run| >= 2 && NewNodes(run[|run| - 2], strategy) != [] && cp == NewNodes(run[|run| - 2], strategy)[0]
  }

  lemma NextTurn(run: seq<Lists>, strategy: Strategy, from: Lists, to: Lists, next: Lists, found: bool, cp: Node)
    requires NoGoalYet(run, strategy, from, to) && Turn(to, next, strategy) && (found <==> GoalFirst(to, strategy))
    requires found ==> cp == NewNodes(to, strategy)[0]
    ensures StopsAtGoal(run + [next], strategy, from, next, found) && (found ==> FirstNew(cp, run + [next], strategy))
    ensures !found ==> NoGoalYet(run + [next], strategy, from, next)
  {
    RunGrows(run, Turns(strategy), GoalTest(strategy), from, to, next);
  }

  // ---------------------------------------------------------------------------
  // Goals nearby
  // ---------------------------------------------------------------------------

  lemma {:induction false} NothingFiltered(s: seq<Node>)
    ensures Fresh(s, []) == s
  {
    if s != [] {
      var n := |s| - 1;
      assert s == s[..n] + [s[n]];
      NothingFiltered(s[..n]);
      calc {
        Fresh(s, []);
        { assert !HasBoard([], s[n].board); }
        Fresh(s[..n], []) + [s[n]];
        s[..n] + [s[n]];
        s;
      }
    }
  }

  lemma LastMove(start: Board, dir: Dir)
    requires Legal(start, dir) && Move(start, dir) == Goal()
    ensures dir == DN || (dir == RT && !Legal(start, DN))
  {
    MoveAndBack(start, dir);
    GoalIsBoard();
    assert Target(Blank(start), dir) == 15;
  }

  lemma FirstNewNodes(start: Board, strategy: Strategy)
    requires IsBoard(start)
    ensures NewNodes(FirstLists(start), strategy) == Children(Node(start, DN, 0, 0, 0), DIRS, strategy)
  {
    var first := Node(start, DN, 0, 0, 0);
    assert [first][1..] == [];
    NothingFiltered(Children(first, DIRS, strategy));
  }

  /** A goal one move away is the first successor of the start. */
  lemma OneMoveAway(start: Board, dir: Dir, strategy: Strategy)
    requires Legal(start, dir) && Move(start, dir) == Goal()
    ensures var l := FirstLists(start);
            GoalFirst(l, strategy) && NewNodes(l, strategy)[0].dir == dir
  {
    LastMove(start, dir);
    FirstNewNodes(start, strategy);
    FirstChild(Node(start, DN, 0, 0, 0), strategy, dir);
  }

  lemma FirstChild(n: Node, strategy: Strategy, dir: Dir)
    requires IsBoard(n.board) && Legal(n.board, dir) && (dir == DN || (dir == RT && !Legal(n.board, DN)))
    ensures var all := Children(n, DIRS, strategy); all != [] && all[0] == Child(n, dir, strategy)
  {
    assert DIRS[..3] == [DN, RT, UP] && [DN, RT, UP][..2] == [DN, RT] && [DN, RT][..1] == [DN] && [DN][..0] == [];
    assert Children(n, [], strategy) == [];
    assert Children(n, [DN], strategy) == if Legal(n.board, DN) then [Child(n, DN, strategy)] else [];
    var two := Children(n, [DN, RT], strategy);
    assert two != [] && two[0] == Child(n, dir, strategy);
    assert Children(n, [DN, RT, UP], strategy)[0] == two[0];
  }
}
