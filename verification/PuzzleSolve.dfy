/** The main loop of the puzzle (main.c) and the path it prints. */
module PuzzleSolve {
  import opened Puzzle
  import opened PuzzleCoverage
  import opened PuzzleMerge
  import opened PuzzleRun
  import opened PuzzleSearch

  // ---------------------------------------------------------------------------
  // The path back
  // ---------------------------------------------------------------------------

  /** The moves in the order in which they are printed: the last one stored comes first. */
  function Printed(path: seq<Dir>): (dirs: seq<Dir>)
    ensures |dirs| == |path|
  {
    if path == [] then [] else [path[|path| - 1]] + Printed(path[..|path| - 1])
  }

  /** The switch of find_parent: the swap that undoes a move. */
  method Undo(b: Board, dir: Dir, ghost parent: Board) returns (r: Board)
    requires Legal(parent, dir) && Move(parent, dir) == b
    ensures r == parent
  {
    MoveAndBack(parent, dir);
    var p := FindBlank(b);
    match dir {
      case DN => r := Swap(b, p, p - 4);
      case RT => r := Swap(b, p, p - 1);
      case UP => r := Swap(b, p, p + 4);
      case LT => r := Swap(b, p, p + 1);
    }
  }

  /** The part of the invariant that speaks of the closed list. */
  ghost predicate ClosedOk(start: Board, closed: seq<Node>) {
    && AllBoards(closed) && Distinct(closed)
    && forall i {:trigger Explained(closed[i], start, closed, i)} :: 0 <= i < |closed| ==> Explained(closed[i], start, closed, i)
  }

  ghost predicate OnPath(n: Node, start: Board, closed: seq<Node>, upto: nat) {
    IsBoard(n.board) && upto <= |closed| && Explained(n, start, closed, upto)
  }

  /** find_parent: undoes the move of a node and takes the rest from the closed node with that board;
      `j` is its position.  A `shared` node is itself the last closed one, so the list changes with it. */
  method FindParent(cp: Node, closed: seq<Node>, shared: bool, ghost upto: nat) returns (r: Node, ghost j: nat)
    requires Distinct(closed) && HasParent(cp, closed, upto) && (shared ==> upto < |closed|)
    ensures j < upto && j < |closed| && r == closed[j] && ComesFrom(cp, r)
  {
    ghost var i :| 0 <= i < upto && i < |closed| && ComesFrom(cp, closed[i]);
    var board := Undo(cp.board, cp.dir, closed[i].board);
    var list := closed;
    if shared {
      list := closed[|closed| - 1 := cp.(board := board)];
    }
    var k := 0;
    while list[k].board != board
      invariant 0 <= k <= i
      decreases |list| - k
    {
      k := k + 1;
    }
    r, j := Node(board, list[k].dir, list[k].f, list[k].g, list[k].h), k;
  }

  /** Where the search for the parent of the first node has to end. */
  function PathEnd(closed: seq<Node>, shared: bool): (upto: nat) {
    if shared && closed != [] then |closed| - 1 else |closed|
  }

  /** The node is the start after its recorded move, which is not the board of the start. */
  ghost predicate OneMoveFrom(start: Board, n: Node) { Legal(start, n.dir) && n.board == Move(start, n.dir) != start }

  /** The walk back from `cp` has come to `tp`, over these moves. */
  ghost predicate Walked(start: Board, cp: Node, tp: Node, moves: seq<Dir>) {
    && Play(tp.board, Printed(moves)) == Now(cp.board) && (moves == [] ==> tp == cp)
    && (OneMoveFrom(start, cp) ==> moves == [] || (moves == [cp.dir] && tp.board == start))
  }

  lemma WalkOn(start: Board, cp: Node, tp: Node, parent: Node, moves: seq<Dir>)
    requires Walked(start, cp, tp, moves) && tp.board != start && ComesFrom(tp, parent)
    ensures Walked(start, cp, parent, moves + [tp.dir])
  {
    OneMoreMove(parent.board, tp.dir, tp.board, moves);
    if OneMoveFrom(start, cp) {
      MoveAndBack(start, tp.dir);
      MoveAndBack(parent.board, tp.dir);
    }
  }

  /** find_path: the moves from the start board to `cp`, stored backwards, unless there are more than
      fit; `from` is the board at which it stopped. */
  method FindPath(cp: Node, start: Board, closed: seq<Node>, shared: bool, path: array<Dir>)
    returns (pathCnt: nat, ghost from: Board)
    requires ClosedOk(start, closed) && path.Length == MAX_PATH && OnPath(cp, start, closed, PathEnd(closed, shared))
    requires shared ==> closed != [] && cp == closed[|closed| - 1]
    modifies path
    ensures pathCnt <= MAX_PATH && Play(from, Printed(path[..pathCnt])) == Now(cp.board)
    ensures pathCnt < MAX_PATH ==> from == start
    ensures OneMoveFrom(start, cp) ==> path[..pathCnt] == [cp.dir]
  {
    var tp := cp;
    ghost var upto: nat := PathEnd(closed, shared);
    pathCnt := 0;
    while tp.board != start
      invariant pathCnt < MAX_PATH && OnPath(tp, start, closed, upto) && upto <= PathEnd(closed, shared)
      invariant Walked(start, cp, tp, path[..pathCnt])
      decreases MAX_PATH - pathCnt
    {
      var dir := tp.dir;
      ghost var before, node := path[..pathCnt], tp;
      tp, upto := FindParent(tp, closed, shared, upto);
      WalkOn(start, cp, node, tp, before);
      ClosedIsOnPath(start, closed, upto);
      path[pathCnt] := dir;
      pathCnt := pathCnt + 1;
      assert path[..pathCnt] == before + [dir];
      if pathCnt >= MAX_PATH {
        break;
      }
    }
    from := tp.board;
  }

  lemma ClosedIsOnPath(start: Board, closed: seq<Node>, j: nat)
    requires ClosedOk(start, closed) && j < |closed|
    ensures OnPath(closed[j], start, closed, j)
  {
    assert closed[j] in closed && Explained(closed[j], start, closed, j);
  }

  lemma OneMoreMove(b: Board, dir: Dir, moved: Board, path: seq<Dir>)
    requires Legal(b, dir) && moved == Move(b, dir)
    ensures Play(b, Printed(path + [dir])) == Play(moved, Printed(path))
  {
    var dirs := Printed(path + [dir]);
    assert (path + [dir])[..|path|] == path;
    assert dirs[0] == dir && dirs[1..] == Printed(path);
  }

  // ---------------------------------------------------------------------------
  // There are finitely many boards
  // ---------------------------------------------------------------------------

  ghost function Arrangements(n: nat): (s: set<Board>) {
    if n == 0 then {[]} else set a, x | a in Arrangements(n - 1) && 0 <= x < 16 :: a + [x]
  }

  lemma {:induction false} IsArrangement(b: Board, n: nat)
    requires |b| == n && forall i :: 0 <= i < n ==> 0 <= b[i] < 16
    ensures b in Arrangements(n)
  {
    if n > 0 {
      IsArrangement(b[..n - 1], n - 1);
      assert b == b[..n - 1] + [b[n - 1]];
    }
  }

  ghost function BoardsOf(list: seq<Node>): (s: set<Board>) { set n | n in list :: n.board }

  lemma {:induction false} CountBoards(list: seq<Node>)
    requires Distinct(list)
    ensures |BoardsOf(list)| == |list|
  {
    if list == [] {
      assert BoardsOf(list) == {};
    } else {
      var init, last := list[..|list| - 1], list[|list| - 1];
      CountBoards(init);
      assert list == init + [last];
      assert BoardsOf(list) == BoardsOf(init) + {last.board};
      assert last.board !in BoardsOf(init);
    }
  }

  lemma ClosedIsBounded(closed: seq<Node>)
    requires Distinct(closed) && AllBoards(closed)
    ensures |closed| <= |Arrangements(16)|
  {
    CountBoards(closed);
    forall b | b in BoardsOf(closed)
      ensures b in Arrangements(16)
    {
      IsArrangement(b, 16);
    }
    SubsetSize(BoardsOf(closed), Arrangements(16));
  }

  lemma {:induction false} SubsetSize(a: set<Board>, b: set<Board>)
    requires a <= b
    ensures |a| <= |b|
    decreases a
  {
    if a != {} {
      var x :| x in a;
      SubsetSize(a - {x}, b - {x});
    }
  }

  // ---------------------------------------------------------------------------
  // The search
  // ---------------------------------------------------------------------------

  datatype Outcome = NotSolvable | StartIsGoal | Found | OpenIsEmpty

  class Search {
    var open: seq<Node>
    var closed: seq<Node>
    const path: array<Dir>
    var pathCnt: nat

    constructor ()
      ensures path.Length == MAX_PATH && fresh(path)
    {
      open, closed := [], [];
      path := new Dir[MAX_PATH](_ => DN);
      pathCnt := 0;
    }

    /** The body of the main loop up to the test for the goal. */
    method Step(start: Board, strategy: Strategy) returns (succ: seq<Node>)
      requires Good(start, open, closed) && open != []
      modifies `open, `closed
      ensures Good(start, open, closed) && closed == old(closed + [open[0]])
      ensures forall n :: n in succ ==> n in open
      ensures Turn(old(Lists(open, closed)), Lists(open, closed), strategy)
      ensures succ == NewNodes(old(Lists(open, closed)), strategy)
    {
      var cp, open' := open[0], open;
      succ, open' := Successors(start, cp, open, closed, strategy);
      open, closed := open', closed + [cp];
    }

    /** main: it ends, and a goal that it reports comes with the moves that lead there from the start,
        if there are fewer than MAX_PATH of them.  It reports one if and only if the first new node of a turn is
        the goal, and stops with that turn; `run` are the lists turn by turn.  When the open list runs empty, the
        moves lead to the board that was expanded last. */
    method Solve(start: Board, strategy: Strategy) returns (outcome: Outcome, ghost run: seq<Lists>)
      requires IsBoard(start) && path.Length == MAX_PATH
      modifies this, path
      ensures outcome == NotSolvable <==> !Solvable(start)
      ensures outcome == NotSolvable ==> NeverGoal(start)
      ensures outcome == StartIsGoal <==> start == Goal()
      ensures outcome in {Found, OpenIsEmpty} ==> SearchInv(start, open, closed) && pathCnt <= MAX_PATH
      ensures outcome == Found && pathCnt < MAX_PATH ==> Play(start, Printed(path[..pathCnt])) == Now(Goal())
      ensures outcome == OpenIsEmpty ==> AllReached(start, closed) && closed != []
      ensures outcome == OpenIsEmpty && pathCnt < MAX_PATH ==>
                Play(start, Printed(path[..pathCnt])) == Now(closed[|closed| - 1].board)
      ensures outcome in {Found, OpenIsEmpty} ==>
                StopsAtGoal(run, strategy, FirstLists(start), Lists(open, closed), outcome == Found)
      ensures forall dir :: Legal(start, dir) && Move(start, dir) == Goal() ==> outcome == Found && path[..pathCnt] == [dir]
    {
      run := [];
      var solvable := CheckSolvable(start);
      Verdicts(start);
      if !solvable {
        outcome := NotSolvable;
      } else {
        open, closed := [Node(start, DN, 0, 0, 0)], [];
        if start == Goal() {
          outcome := StartIsGoal;
        } else {
          StartIsGood(start);
          outcome, run := SearchFrom(start, strategy);
        }
      }
      NeighboursOfGoal(start);
    }

    /** The search, and what it reports. */
    method SearchFrom(start: Board, strategy: Strategy) returns (outcome: Outcome, ghost run: seq<Lists>)
      requires Good(start, open, closed) && open != [] && path.Length == MAX_PATH
      modifies this, path
      ensures pathCnt <= MAX_PATH && Reported(start, open, closed, outcome, pathCnt, path[..pathCnt])
      ensures StopsAtGoal(run, strategy, old(Lists(open, closed)), Lists(open, closed), outcome == Found)
      ensures old(Lists(open, closed)) == FirstLists(start) ==> StraightToGoal(start, outcome, path[..pathCnt])
    {
      var cp;
      cp, outcome, run := Loop(start, strategy);
      OneMoveOnly(run, strategy, start, cp, outcome, old(Lists(open, closed)), Lists(open, closed), path[..pathCnt]);
      SearchEnds(start, open, closed, cp, outcome, pathCnt, path[..pathCnt]);
    }

    /** The main loop and the call of find_path behind it; `cp` is where the loop ends. */
    method Loop(start: Board, strategy: Strategy) returns (cp: Node, outcome: Outcome, ghost run: seq<Lists>)
      requires Good(start, open, closed) && open != [] && path.Length == MAX_PATH
      modifies this, path
      ensures Good(start, open, closed) && outcome in {Found, OpenIsEmpty} && pathCnt <= MAX_PATH
      ensures StopsAtGoal(run, strategy, old(Lists(open, closed)), Lists(open, closed), outcome == Found)
      ensures outcome == Found ==> FirstNew(cp, run, strategy)
      ensures OneMoveFrom(start, cp) ==> path[..pathCnt] == [cp.dir]
      ensures Ends(cp, outcome == Found, open, closed) && (outcome == OpenIsEmpty ==> open == [])
      ensures pathCnt < MAX_PATH ==> Play(start, Printed(path[..pathCnt])) == Now(cp.board)
    {
      cp, outcome, run := Turns(start, strategy);
      pathCnt := PathTo(cp, start, open, closed, outcome, path);
    }

    /** One turn with the test for the goal; `cp` is the goal, or the node that was expanded. */
    method OneTurn(start: Board, strategy: Strategy) returns (cp: Node, found: bool)
      requires Good(start, open, closed) && open != []
      modifies `open, `closed
      ensures Good(start, open, closed) && |old(closed)| < |closed| <= |Arrangements(16)|
      ensures Ends(cp, found, open, closed)
      ensures Turn(old(Lists(open, closed)), Lists(open, closed), strategy)
      ensures found <==> GoalFirst(old(Lists(open, closed)), strategy)
      ensures found ==> cp == NewNodes(old(Lists(open, closed)), strategy)[0]
    {
      cp := open[0];
      var succ := Step(start, strategy);
      ClosedIsBounded(closed);
      found := succ != [] && succ[0].board == Goal();
      if found {
        assert succ[0] in open;
        cp := succ[0];
      }
    }

    /** The turns of the main loop; `cp` is where it ends. */
    method Turns(start: Board, strategy: Strategy) returns (cp: Node, outcome: Outcome, ghost run: seq<Lists>)
      requires Good(start, open, closed) && open != []
      modifies `open, `closed
      ensures Good(start, open, closed) && outcome in {Found, OpenIsEmpty}
      ensures Ends(cp, outcome == Found, open, closed) && (outcome == OpenIsEmpty ==> open == [])
      ensures StopsAtGoal(run, strategy, old(Lists(open, closed)), Lists(open, closed), outcome == Found)
      ensures outcome == Found ==> FirstNew(cp, run, strategy)
    {
      cp, outcome := open[0], OpenIsEmpty;
      ghost var from, lists := Lists(open, closed), Lists(open, closed);
      run := [lists];
      while open != []
        invariant Good(start, open, closed) && outcome == OpenIsEmpty && lists == Lists(open, closed)
        invariant NoGoalYet(run, strategy, from, lists)
        invariant open == [] ==> Ends(cp, false, open, closed) && StopsAtGoal(run, strategy, from, lists, false)
        decreases |Arrangements(16)| - |closed|
      {
        var found;
        cp, found := OneTurn(start, strategy);
        NextTurn(run, strategy, from, lists, Lists(open, closed), found, cp);
        lists := Lists(open, closed);
        run := run + [lists];
        if found {
          outcome := Found;
          break;
        }
      }
    }
  }

  /** Where the main loop ends: at the goal, or at the node that was expanded last. */
  ghost predicate Ends(cp: Node, found: bool, open: seq<Node>, closed: seq<Node>) {
    if found then cp in open && cp.board == Goal() else closed != [] && cp == closed[|closed| - 1]
  }

  /** What the test at the start of main means. */
  lemma Verdicts(start: Board)
    requires IsBoard(start)
    ensures !Solvable(start) ==> NeverGoal(start)
    ensures start == Goal() ==> Solvable(start)
  {
    GoalIsSolvable();
    if !Solvable(start) {
      Unreachable(start);
    }
  }

  /** The moves that lead to where the main loop has ended. */
  method PathTo(cp: Node, start: Board, ghost open: seq<Node>, closed: seq<Node>, outcome: Outcome, path: array<Dir>)
    returns (pathCnt: nat)
    requires Good(start, open, closed) && path.Length == MAX_PATH
    requires if outcome == OpenIsEmpty then closed != [] && cp == closed[|closed| - 1] else cp in open
    modifies path
    ensures pathCnt <= MAX_PATH && (pathCnt < MAX_PATH ==> Play(start, Printed(path[..pathCnt])) == Now(cp.board))
    ensures OneMoveFrom(start, cp) ==> path[..pathCnt] == [cp.dir]
  {
    LastIsOnPath(start, open, closed, cp, outcome);
    ghost var from;
    pathCnt, from := FindPath(cp, start, closed, outcome == OpenIsEmpty, path);
  }

  /** A goal that is one move away is found at once. */
  ghost predicate StraightToGoal(start: Board, outcome: Outcome, moves: seq<Dir>) {
    forall dir :: Legal(start, dir) && Move(start, dir) == Goal() != start ==> outcome == Found && moves == [dir]
  }

  lemma OneMoveOnly(run: seq<Lists>, strategy: Strategy, start: Board, cp: Node, outcome: Outcome, from: Lists,
                    to: Lists, moves: seq<Dir>)
    requires StopsAtGoal(run, strategy, from, to, outcome == Found)
    requires outcome == Found ==> FirstNew(cp, run, strategy)
    requires OneMoveFrom(start, cp) ==> moves == [cp.dir]
    ensures from == FirstLists(start) ==> StraightToGoal(start, outcome, moves)
  {
    if from == FirstLists(start) {
      forall dir | Legal(start, dir) && Move(start, dir) == Goal() != start
        ensures outcome == Found && moves == [dir]
      {
        OneMoveAway(start, dir, strategy);
        StopsAtOnce(run, Turns(strategy), GoalTest(strategy), from, to, outcome == Found);
      }
    }
  }

  /** Boards one move from the goal are solvable, and not the goal. */
  lemma NeighbourOfGoal(start: Board, dir: Dir)
    requires Legal(start, dir) && Move(start, dir) == Goal()
    ensures Solvable(start) && start != Goal()
  {
    MoveAndBack(start, dir);
    MoveKeepsSolvable(start, dir);
    GoalIsSolvable();
  }

  lemma NeighboursOfGoal(start: Board)
    ensures forall dir :: Legal(start, dir) && Move(start, dir) == Goal() ==> Solvable(start) && start != Goal()
  {
    forall dir | Legal(start, dir) && Move(start, dir) == Goal()
      ensures Solvable(start) && start != Goal()
    {
      NeighbourOfGoal(start, dir);
    }
  }

  /** What a search has found when it is over. */
  ghost predicate Reported(start: Board, open: seq<Node>, closed: seq<Node>, outcome: Outcome, pathCnt: nat,
                           moves: seq<Dir>)
  {
    && outcome in {Found, OpenIsEmpty} && SearchInv(start, open, closed)
    && (outcome == Found && pathCnt < MAX_PATH ==> Play(start, Printed(moves)) == Now(Goal()))
    && (outcome == OpenIsEmpty ==> AllReached(start, closed) && closed != [])
    && (outcome == OpenIsEmpty && pathCnt < MAX_PATH ==>
          closed != [] && Play(start, Printed(moves)) == Now(closed[|closed| - 1].board))
  }

  lemma SearchEnds(start: Board, open: seq<Node>, closed: seq<Node>, cp: Node, outcome: Outcome, pathCnt: nat,
                   moves: seq<Dir>)
    requires Good(start, open, closed) && outcome in {Found, OpenIsEmpty}
    requires Ends(cp, outcome == Found, open, closed) && (outcome == OpenIsEmpty ==> open == [])
    requires pathCnt < MAX_PATH ==> Play(start, Printed(moves)) == Now(cp.board)
    ensures Reported(start, open, closed, outcome, pathCnt, moves)
  {
    if outcome == OpenIsEmpty {
      AllReachableAreClosed(start, closed);
    }
  }

  /** What find_path needs: the goal that was found is open, and the last expanded node is closed. */
  lemma LastIsOnPath(start: Board, open: seq<Node>, closed: seq<Node>, cp: Node, outcome: Outcome)
    requires Good(start, open, closed)
    requires if outcome == OpenIsEmpty then closed != [] && cp == closed[|closed| - 1] else cp in open
    ensures ClosedOk(start, closed) && OnPath(cp, start, closed, PathEnd(closed, outcome == OpenIsEmpty))
  {
    if outcome == OpenIsEmpty {
      assert cp in closed && Explained(closed[|closed| - 1], start, closed, |closed| - 1);
    }
  }

  ghost predicate NeverGoal(start: Board) { forall dirs :: Play(start, dirs) != Now(Goal()) }

  /** Every board that moves lead to from the start is on the list. */
  ghost predicate AllReached(start: Board, closed: seq<Node>) {
    forall dirs :: Play(start, dirs).Now? ==> HasBoard(closed, Play(start, dirs).board)
  }

  lemma StartIsGood(start: Board)
    requires IsBoard(start)
    ensures Good(start, [Node(start, DN, 0, 0, 0)], [])
  {
    var first := Node(start, DN, 0, 0, 0);
    assert first in [first] && Known([first], [], start);
  }

  lemma Unreachable(start: Board)
    requires IsBoard(start) && !Solvable(start)
    ensures NeverGoal(start)
  {
    forall dirs
      ensures Play(start, dirs) != Now(Goal())
    {
      UnsolvableNeverReachesGoal(start, dirs);
    }
  }

  lemma AllReachableAreClosed(start: Board, closed: seq<Node>)
    requires Covered(start, [], closed)
    ensures AllReached(start, closed)
  {
    forall dirs | Play(start, dirs).Now?
      ensures HasBoard(closed, Play(start, dirs).board)
    {
      ReachableIsClosed(start, closed, start, dirs);
    }
  }

  /** The invariant of the search. */
  ghost predicate Good(start: Board, open: seq<Node>, closed: seq<Node>) {
    SearchInv(start, open, closed) && Covered(start, open, closed) && CostsAreNatural(open)
  }

  lemma GoodIsBoard(start: Board, cp: Node, open: seq<Node>, closed: seq<Node>)
    requires Good(start, [cp] + open, closed)
    ensures IsBoard(cp.board) && cp.g >= 0 && CostsAreNatural(open)
  {
    assert ([cp] + open)[0] == cp && cp in [cp] + open;
    assert forall n :: n in open ==> n in [cp] + open;
  }

  lemma SuccessorCosts(cp: Node, open: seq<Node>, closed: seq<Node>, strategy: Strategy, succ: seq<Node>)
    requires IsBoard(cp.board) && cp.g >= 0 && succ == Fresh(Fresh(Children(cp, DIRS, strategy), open), closed)
    ensures CostsAreNatural(succ)
  {
    ChildCosts(cp, DIRS, strategy);
  }

  /** expand, and filter against both lists. */
  method NewSuccessors(cp: Node, rest: seq<Node>, closed: seq<Node>, strategy: Strategy) returns (succ: seq<Node>)
    requires IsBoard(cp.board) && cp.g >= 0
    ensures succ == Fresh(Fresh(Children(cp, DIRS, strategy), rest), closed) && CostsAreNatural(succ)
  {
    var all := Expand(cp, strategy);
    succ := Filter(all, rest);
    succ := Filter(succ, closed);
    SuccessorCosts(cp, rest, closed, strategy, succ);
  }

  /** The successors of the first open node that are on neither list, and the open list with them. */
  method Successors(start: Board, cp: Node, open: seq<Node>, closed: seq<Node>, strategy: Strategy)
    returns (succ: seq<Node>, open': seq<Node>)
    requires Good(start, open, closed) && open != [] && cp == open[0]
    ensures Good(start, open', closed + [cp]) && forall n :: n in succ ==> n in open'
    ensures succ == NewNodes(Lists(open, closed), strategy) && MergedInto(succ, open[1..], strategy, open')
  {
    var rest := open[1..];
    assert open == [cp] + rest;
    GoodIsBoard(start, cp, rest, closed);
    succ := NewSuccessors(cp, rest, closed, strategy);
    NothingToMerge(rest, strategy);
    open' := rest;
    if succ != [] {
      open' := Merge(succ, rest, strategy);
    }
    TurnKeepsGood(start, cp, rest, closed, strategy, succ, open');
  }

  /** One turn of the main loop. */
  lemma TurnKeepsGood(start: Board, cp: Node, open: seq<Node>, closed: seq<Node>, strategy: Strategy, succ: seq<Node>,
                      open': seq<Node>)
    requires Good(start, [cp] + open, closed) && IsBoard(cp.board) && cp.g >= 0 && CostsAreNatural(open)
    requires succ == Fresh(Fresh(Children(cp, DIRS, strategy), open), closed)
    requires multiset(open') == multiset(succ) + multiset(open)
    ensures Good(start, open', closed + [cp]) && forall n :: n in succ ==> n in open'
  {
    TurnKeepsInv(start, cp, open, closed, strategy, succ, open');
    TurnKeepsCovered(start, cp, open, closed, strategy, succ, open');
    SuccessorCosts(cp, open, closed, strategy, succ);
    SameElements(open', succ, open);
  }

  lemma AllChildrenAreNew(cp: Node, strategy: Strategy)
    requires IsBoard(cp.board)
    ensures var all := Children(cp, DIRS, strategy);
            AllBoards(all) && Distinct(all) && !HasBoard(all, cp.board) && forall n :: n in all ==> ComesFrom(n, cp)
  {
    ChildrenAreNew(cp, DIRS, strategy);
  }

  lemma TurnKeepsInv(start: Board, cp: Node, open: seq<Node>, closed: seq<Node>, strategy: Strategy, succ: seq<Node>,
                     open': seq<Node>)
    requires SearchInv(start, [cp] + open, closed) && IsBoard(cp.board)
    requires succ == Fresh(Fresh(Children(cp, DIRS, strategy), open), closed)
    requires multiset(open') == multiset(succ) + multiset(open)
    ensures SearchInv(start, open', closed + [cp])
  {
    AllChildrenAreNew(cp, strategy);
    StepKeepsInv(start, cp, open, closed, Children(cp, DIRS, strategy), succ, open');
  }

  lemma TurnKeepsCovered(start: Board, cp: Node, open: seq<Node>, closed: seq<Node>, strategy: Strategy,
                         succ: seq<Node>, open': seq<Node>)
    requires Covered(start, [cp] + open, closed) && IsBoard(cp.board)
    requires succ == Fresh(Fresh(Children(cp, DIRS, strategy), open), closed)
    requires multiset(open') == multiset(succ) + multiset(open)
    ensures Covered(start, open', closed + [cp])
  {
    ExpandFindsAll(cp, strategy);
    StepKeepsCovered(start, cp, open, closed, Children(cp, DIRS, strategy), succ, open');
  }

  ghost predicate CostsAreNatural(list: seq<Node>) { forall n :: n in list ==> n.f >= 0 && n.g >= 0 && n.h >= 0 }

  lemma {:induction false} ChildCosts(cp: Node, dirs: seq<Dir>, strategy: Strategy)
    requires IsBoard(cp.board) && cp.g >= 0
    ensures CostsAreNatural(Children(cp, dirs, strategy))
  {
    if dirs != [] {
      ChildCosts(cp, dirs[..|dirs| - 1], strategy);
    }
  }
}
