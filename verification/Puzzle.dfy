/** The fifteen puzzle (main.c): boards, moves, and the test by inversions whether a board can be
    solved. */
module Puzzle {

  const N := 4

  datatype Dir = DN | RT | UP | LT

  /** The board row by row; 0 is the blank. */
  type Board = seq<int>

  predicate IsBoard(b: Board) {
    && |b| == 16 && (forall i :: 0 <= i < 16 ==> 0 <= b[i] < 16)
    && (forall i, j :: 0 <= i < j < 16 ==> b[i] != b[j])
    && 0 in b
  }

  /** The tiles in order, and the blank last. */
  function Goal(): (b: Board)
    ensures |b| == 16
  {
    seq(16, i => if i == 15 then 0 else i + 1)
  }

  function Blank(b: Board): (p: int)
    requires IsBoard(b)
    ensures 0 <= p < 16 && b[p] == 0
  {
    BlankExists(b);
    var p :| 0 <= p < 16 && b[p] == 0;
    p
  }

  lemma BlankExists(b: Board)
    requires IsBoard(b)
    ensures exists p :: 0 <= p < 16 && b[p] == 0
  {
  }

  /** Where the blank would go. */
  function Target(p: int, dir: Dir): (q: int) {
    match dir case DN => p + 4 case RT => p + 1 case UP => p - 4 case LT => p - 1
  }

  predicate CanMove(p: int, dir: Dir) {
    match dir case DN => p / 4 + 1 < N case RT => p % 4 + 1 < N case UP => p / 4 - 1 >= 0 case LT => p % 4 - 1 >= 0
  }

  function Swap(b: Board, p: int, q: int): (r: Board)
    requires |b| == 16 && 0 <= p < 16 && 0 <= q < 16
    ensures |r| == 16
  {
    b[p := b[q]][q := b[p]]
  }

  function Toggle(dir: Dir): (r: Dir) {
    match dir case DN => UP case RT => LT case UP => DN case LT => RT
  }

  predicate Legal(b: Board, dir: Dir) { IsBoard(b) && CanMove(Blank(b), dir) }

  function Move(b: Board, dir: Dir): (r: Board)
    requires Legal(b, dir)
    ensures |r| == 16
  {
    Swap(b, Blank(b), Target(Blank(b), dir))
  }

  /** A move takes boards to boards, can be undone by the opposite move, and that gives the board back. */
  lemma MoveAndBack(b: Board, dir: Dir)
    requires Legal(b, dir)
    ensures var r := Move(b, dir);
            && IsBoard(r) && Blank(r) == Target(Blank(b), dir) && r != b
            && Legal(r, Toggle(dir)) && Move(r, Toggle(dir)) == b
  {
    var p, q := Blank(b), Target(Blank(b), dir);
    var r := Move(b, dir);
    assert r[q] == 0 && r[p] == b[q];
    assert b[p] == 0 && b[q] != 0;
    forall i, j | 0 <= i < j < 16
      ensures r[i] != r[j]
    {
      var i', j' := if i == p then q else if i == q then p else i, if j == p then q else if j == q then p else j;
      assert r[i] == b[i'] && r[j] == b[j'] && i' != j';
    }
    assert IsBoard(r) && Blank(r) == q;
    assert Move(r, Toggle(dir)) == Swap(r, q, p) == b;
  }

  function Rows(dir: Dir): (d: int) { if dir.DN? then 1 else if dir.UP? then -1 else 0 }

  function Columns(dir: Dir): (d: int) { if dir.RT? then 1 else if dir.LT? then -1 else 0 }

  /** By rows and columns: the blank goes one row down, one column to the right, one row up or one column to the left,
      as long as it stays on the board, and the tile that was there takes its place. */
  lemma BlankSlides(b: Board, dir: Dir)
    requires IsBoard(b)
    ensures Legal(b, dir) <==> 0 <= Blank(b) / 4 + Rows(dir) < 4 && 0 <= Blank(b) % 4 + Columns(dir) < 4
    ensures Legal(b, dir) ==>
              var r, p, q := Move(b, dir), Blank(b), 4 * (Blank(b) / 4 + Rows(dir)) + Blank(b) % 4 + Columns(dir);
              && 0 <= q < 16 && r[q] == 0 && r[p] == b[q]
              && forall i :: 0 <= i < 16 && i != p && i != q ==> r[i] == b[i]
  {
    var p := Blank(b);
    assert p == 4 * (p / 4) + p % 4;
  }

  /** Different moves lead to different boards. */
  lemma MovesDiffer(b: Board, dir: Dir, other: Dir)
    requires Legal(b, dir) && Legal(b, other) && dir != other
    ensures Move(b, dir) != Move(b, other)
  {
    MoveAndBack(b, dir);
    MoveAndBack(b, other);
  }

  // ---------------------------------------------------------------------------
  // Inversions
  // ---------------------------------------------------------------------------

  /** How many of `s`, the blank not counted, are below `x`. */
  function Below(x: int, s: seq<int>): (n: nat) {
    if s == [] then 0 else (if x > s[0] && s[0] != 0 then 1 else 0) + Below(x, s[1..])
  }

  function Inversions(s: seq<int>): (n: nat) {
    if s == [] then 0 else Below(s[0], s[1..]) + Inversions(s[1..])
  }

  /** solvable(): blank row odd and inversions even, or the other way round. */
  predicate Solvable(b: Board)
    requires IsBoard(b)
  {
    (Inversions(b) % 2 == 1) != ((Blank(b) / 4) % 2 == 1)
  }

  method CheckSolvable(b: Board) returns (solvable: bool)
    requires IsBoard(b)
    ensures solvable <==> Solvable(b)
  {
    var lst := new int[16];
    var blankRow := 0;
    var idx := 0;
    while idx < 16
      invariant 0 <= idx <= 16 && lst[..idx] == b[..idx]
      invariant Blank(b) < idx ==> blankRow == Blank(b) / 4
    {
      lst[idx] := b[idx];
      if lst[idx] == 0 {
        blankRow := idx / 4;
      }
      idx := idx + 1;
    }
    ghost var s := lst[..];
    assert s == b;
    var total := 0;
    for i := 0 to 15
      invariant lst[..] == s && total + Inversions(s[i..]) == Inversions(s)
    {
      var cnt := 0;
      for j := i + 1 to 16
        invariant lst[..] == s && cnt + Below(s[i], s[j..]) == Below(s[i], s[i + 1..])
      {
        assert s[j..][0] == s[j] && s[j..][1..] == s[j + 1..];
        if lst[i] > lst[j] {
          if lst[j] != 0 {
            cnt := cnt + 1;
          }
        }
      }
      assert s[16..] == [] && s[i..][1..] == s[i + 1..];
      total := total + cnt;
    }
    assert Inversions(s[15..]) == 0;
    if total % 2 == 1 && blankRow % 2 != 1 {
      solvable := true;
    } else if total % 2 != 1 && blankRow % 2 == 1 {
      solvable := true;
    } else {
      solvable := false;
    }
  }

  // ---------------------------------------------------------------------------
  // Moves keep the parity
  // ---------------------------------------------------------------------------

  lemma {:induction false} BelowConcat(x: int, s: seq<int>, t: seq<int>)
    ensures Below(x, s + t) == Below(x, s) + Below(x, t)
  {
    if s == [] {
      assert s + t == t;
    } else {
      BelowConcat(x, s[1..], t);
      assert (s + t)[1..] == s[1..] + t;
    }
  }

  /** The blank takes part in no inversion. */
  lemma {:induction false} WithoutBlank(a: seq<int>, c: seq<int>)
    requires forall i :: 0 <= i < |c| ==> c[i] >= 0
    ensures Inversions(a + [0] + c) == Inversions(a + c)
  {
    if a == [] {
      assert a + [0] + c == [0] + c && a + c == c && ([0] + c)[1..] == c;
      NothingBelow(c);
    } else {
      WithoutBlank(a[1..], c);
      assert (a + [0] + c)[1..] == a[1..] + [0] + c && (a + c)[1..] == a[1..] + c;
      BelowConcat(a[0], a[1..] + [0], c);
      BelowConcat(a[0], a[1..], [0]);
      BelowConcat(a[0], a[1..], c);
    }
  }

  lemma {:induction false} NothingBelow(c: seq<int>)
    requires forall i :: 0 <= i < |c| ==> c[i] >= 0
    ensures Below(0, c) == 0
  {
    if c != [] {
      NothingBelow(c[1..]);
    }
  }

  /** Two neighbouring tiles that change places make or undo one inversion. */
  lemma {:induction false} SwapNeighbours(a: seq<int>, x: int, y: int, c: seq<int>)
    requires x != y && x > 0 && y > 0
    ensures Inversions(a + [x, y] + c) % 2 != Inversions(a + [y, x] + c) % 2
  {
    if a == [] {
      var s, t := [x, y] + c, [y, x] + c;
      assert a + [x, y] + c == s && a + [y, x] + c == t;
      assert s[1..] == [y] + c && t[1..] == [x] + c && ([y] + c)[1..] == c && ([x] + c)[1..] == c;
    } else {
      SwapNeighbours(a[1..], x, y, c);
      assert (a + [x, y] + c)[1..] == a[1..] + [x, y] + c && (a + [y, x] + c)[1..] == a[1..] + [y, x] + c;
      BelowConcat(a[0], a[1..] + [x, y], c);
      BelowConcat(a[0], a[1..] + [y, x], c);
      BelowConcat(a[0], a[1..], [x, y]);
      BelowConcat(a[0], a[1..], [y, x]);
      assert Below(a[0], [x, y]) == Below(a[0], [y, x]);
    }
  }

  /** A tile that passes three others changes the parity. */
  lemma PassThree(a: seq<int>, x: int, t: seq<int>, c: seq<int>)
    requires |t| == 3 && x > 0 && forall i :: 0 <= i < 3 ==> t[i] > 0 && t[i] != x
    ensures Inversions(a + [x] + t + c) % 2 != Inversions(a + t + [x] + c) % 2
  {
    SwapNeighbours(a, x, t[0], [t[1], t[2]] + c);
    SwapNeighbours(a + [t[0]], x, t[1], [t[2]] + c);
    SwapNeighbours(a + [t[0], t[1]], x, t[2], c);
    assert a + [x] + t + c == a + [x, t[0]] + ([t[1], t[2]] + c);
    assert a + [t[0], x] + ([t[1], t[2]] + c) == a + [t[0]] + [x, t[1]] + ([t[2]] + c);
    assert a + [t[0]] + [t[1], x] + ([t[2]] + c) == a + [t[0], t[1]] + [x, t[2]] + c;
    assert a + [t[0], t[1]] + [t[2], x] + c == a + t + [x] + c;
  }

  /** Without the blank, the rows of a board before and after the blank at `p`. */
  lemma BlankAt(b: Board, p: int)
    requires IsBoard(b) && 0 <= p < 16 && b[p] == 0
    ensures Inversions(b) == Inversions(b[..p] + b[p + 1..])
  {
    assert b == b[..p] + [0] + b[p + 1..];
    WithoutBlank(b[..p], b[p + 1..]);
  }

  lemma Sideways(b: Board)
    requires Legal(b, RT)
    ensures Inversions(Move(b, RT)) == Inversions(b)
  {
    var p, r := Blank(b), Move(b, RT);
    MoveAndBack(b, RT);
    BlankAt(b, p);
    BlankAt(r, p + 1);
    assert b[..p] + b[p + 1..] == r[..p + 1] + r[p + 2..];
  }

  /** The board without the blank before and after the blank moves down: one tile passes three others. */
  lemma TilePasses(b: Board, r: Board, p: nat)
    requires |b| == 16 && p < 12 && r == Swap(b, p, p + 4)
    ensures var a, t, x, c := b[..p], b[p + 1..p + 4], b[p + 4], b[p + 5..];
            b[..p] + b[p + 1..] == a + t + [x] + c && r[..p + 4] + r[p + 5..] == a + [x] + t + c
  {
  }

  lemma Downwards(b: Board)
    requires Legal(b, DN)
    ensures Inversions(Move(b, DN)) % 2 != Inversions(b) % 2
  {
    var p, r := Blank(b), Move(b, DN);
    MoveAndBack(b, DN);
    BlankAt(b, p);
    BlankAt(r, p + 4);
    TilePasses(b, r, p);
    var t := b[p + 1..p + 4];
    assert forall i :: 0 <= i < 3 ==> t[i] == b[p + 1 + i];
    PassThree(b[..p], b[p + 4], t, b[p + 5..]);
  }

  lemma BlankRow(p: int, dir: Dir)
    requires 0 <= p < 16 && CanMove(p, dir)
    ensures (Target(p, dir) / 4) % 2 != (p / 4) % 2 <==> dir.DN? || dir.UP?
  {
  }

  /** Every legal move keeps the test. */
  lemma MoveKeepsSolvable(b: Board, dir: Dir)
    requires Legal(b, dir)
    ensures IsBoard(Move(b, dir)) && (Solvable(Move(b, dir)) <==> Solvable(b))
  {
    MoveAndBack(b, dir);
    var r := Move(b, dir);
    BlankRow(Blank(b), dir);
    match dir
    case DN => Downwards(b);
    case RT => Sideways(b);
    case UP => Downwards(r);
    case LT => Sideways(r);
  }

  lemma GoalIsBoard()
    ensures IsBoard(Goal()) && Blank(Goal()) == 15
  {
    var g := Goal();
    assert g[15] == 0;
  }

  lemma GoalInversions()
    ensures Inversions(Goal()) == 0
  {
    var g := Goal();
    var tiles, nothing := g[..15], [];
    assert forall i :: 0 <= i < 15 ==> tiles[i] == i + 1;
    Increasing(tiles);
    WithoutBlank(tiles, nothing);
    assert tiles + nothing == tiles && g == tiles + [0] + nothing;
  }

  lemma GoalIsSolvable()
    ensures IsBoard(Goal()) && Solvable(Goal())
  {
    GoalIsBoard();
    GoalInversions();
  }

  lemma {:induction false} Increasing(s: seq<int>)
    requires forall i, j :: 0 <= i < j < |s| ==> s[i] < s[j]
    ensures Inversions(s) == 0
  {
    if s != [] {
      Increasing(s[1..]);
      NoneBelow(s[0], s[1..]);
    }
  }

  lemma {:induction false} NoneBelow(x: int, s: seq<int>)
    requires forall i :: 0 <= i < |s| ==> x < s[i]
    ensures Below(x, s) == 0
  {
    if s != [] {
      NoneBelow(x, s[1..]);
    }
  }

  /** Playing a list of moves; None when one of them is not legal. */
  datatype Played = Illegal | Now(board: Board)

  function Play(b: Board, dirs: seq<Dir>): (r: Played)
    decreases |dirs|
  {
    if dirs == [] then Now(b)
    else if Legal(b, dirs[0]) then Play(Move(b, dirs[0]), dirs[1..])
    else Illegal
  }

  /** No run of moves from a board judged unsolvable ever reaches the goal. */
  lemma {:induction false} UnsolvableNeverReachesGoal(b: Board, dirs: seq<Dir>)
    requires IsBoard(b) && !Solvable(b)
    ensures Play(b, dirs) != Now(Goal())
    decreases |dirs|
  {
    GoalIsSolvable();
    if dirs != [] && Legal(b, dirs[0]) {
      MoveKeepsSolvable(b, dirs[0]);
      UnsolvableNeverReachesGoal(Move(b, dirs[0]), dirs[1..]);
    }
  }
}
