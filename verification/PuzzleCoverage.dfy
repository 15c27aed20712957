/** The search of the puzzle (main.c) overlooks no board: what is one move away from a closed board is
    always on one of the lists. */
module PuzzleCoverage {
  import opened Puzzle
  import opened PuzzleSearch

  ghost predicate Known(open: seq<Node>, closed: seq<Node>, b: Board) { HasBoard(open, b) || HasBoard(closed, b) }

  /** All boards one legal move away from `b` are on the lists. */
  ghost predicate MovesKnown(open: seq<Node>, closed: seq<Node>, b: Board) {
    forall dir :: Legal(b, dir) ==> Known(open, closed, Move(b, dir))
  }

  /** The start is on one of the lists, and with every closed board all boards one move away. */
  ghost predicate Covered(start: Board, open: seq<Node>, closed: seq<Node>) {
    Known(open, closed, start) && forall n :: n in closed ==> MovesKnown(open, closed, n.board)
  }

  ghost predicate MovesIn(all: seq<Node>, b: Board) { forall dir :: Legal(b, dir) ==> HasBoard(all, Move(b, dir)) }

  lemma {:induction false} ChildrenAreAll(cp: Node, dirs: seq<Dir>, strategy: Strategy, dir: Dir)
    requires dir in dirs && Legal(cp.board, dir)
    ensures HasBoard(Children(cp, dirs, strategy), Move(cp.board, dir))
  {
    var n := |dirs| - 1;
    var before, now := Children(cp, dirs[..n], strategy), Children(cp, dirs, strategy);
    if dir == dirs[n] {
      var c := Child(cp, dir, strategy);
      assert c in now && c.board == Move(cp.board, dir);
    } else {
      assert dir in dirs[..n];
      ChildrenAreAll(cp, dirs[..n], strategy, dir);
      var c :| c in before && c.board == Move(cp.board, dir);
      assert c in now;
    }
  }

  /** A board that was known stays known, and so does every successor. */
  lemma StaysKnown(cp: Node, open: seq<Node>, closed: seq<Node>, all: seq<Node>, succ: seq<Node>, open': seq<Node>,
                   b: Board)
    requires succ == Fresh(Fresh(all, open), closed) && multiset(open') == multiset(succ) + multiset(open)
    requires Known([cp] + open, closed, b) || HasBoard(all, b)
    ensures Known(open', closed + [cp], b)
  {
    SameElements(open', succ, open);
    assert cp in closed + [cp] && forall n :: n in closed ==> n in closed + [cp];
    if HasBoard([cp] + open, b) {
      var n :| n in [cp] + open && n.board == b;
      assert n == cp || n in open;
    } else if HasBoard(closed, b) {
      var n :| n in closed && n.board == b;
      assert n in closed + [cp];
    } else {
      var n :| n in all && n.board == b;
      assert n in Fresh(all, open) && n in succ;
    }
  }

  /** The boards one move away from a closed board stay known. */
  lemma MovesStayKnown(cp: Node, open: seq<Node>, closed: seq<Node>, all: seq<Node>, succ: seq<Node>, open': seq<Node>,
                       b: Board)
    requires succ == Fresh(Fresh(all, open), closed) && multiset(open') == multiset(succ) + multiset(open)
    requires MovesKnown([cp] + open, closed, b) || MovesIn(all, b)
    ensures MovesKnown(open', closed + [cp], b)
  {
    forall dir | Legal(b, dir)
      ensures Known(open', closed + [cp], Move(b, dir))
    {
      StaysKnown(cp, open, closed, all, succ, open', Move(b, dir));
    }
  }

  lemma ExpandFindsAll(cp: Node, strategy: Strategy)
    requires IsBoard(cp.board)
    ensures MovesIn(Children(cp, DIRS, strategy), cp.board)
  {
    forall dir | Legal(cp.board, dir)
      ensures HasBoard(Children(cp, DIRS, strategy), Move(cp.board, dir))
    {
      assert dir in DIRS;
      ChildrenAreAll(cp, DIRS, strategy, dir);
    }
  }

  lemma StepKeepsCovered(start: Board, cp: Node, open: seq<Node>, closed: seq<Node>, all: seq<Node>, succ: seq<Node>,
                         open': seq<Node>)
    requires MovesIn(all, cp.board) && Covered(start, [cp] + open, closed)
    requires succ == Fresh(Fresh(all, open), closed) && multiset(open') == multiset(succ) + multiset(open)
    ensures Covered(start, open', closed + [cp])
  {
    StaysKnown(cp, open, closed, all, succ, open', start);
    forall n | n in closed + [cp]
      ensures MovesKnown(open', closed + [cp], n.board)
    {
      assert n in closed || n == cp;
      MovesStayKnown(cp, open, closed, all, succ, open', n.board);
    }
  }

  /** With nothing left to expand, every board that can be reached from a closed one is closed. */
  lemma {:induction false} ReachableIsClosed(start: Board, closed: seq<Node>, b: Board, dirs: seq<Dir>)
    requires Covered(start, [], closed) && HasBoard(closed, b) && Play(b, dirs).Now?
    ensures HasBoard(closed, Play(b, dirs).board)
    decreases |dirs|
  {
    if dirs != [] {
      var n :| n in closed && n.board == b;
      assert MovesKnown([], closed, n.board) && Known([], closed, Move(b, dirs[0]));
      ReachableIsClosed(start, closed, Move(b, dirs[0]), dirs[1..]);
    }
  }
}
