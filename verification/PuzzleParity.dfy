/** The test of solvable() (main.c) turns half of the boards away: exchanging two tiles flips it. */
module PuzzleParity {
  import opened Puzzle

  /** A tile that passes others, the blank not among them, changes the parity once for each. */
  lemma {:induction false} PassTiles(a: seq<int>, x: int, t: seq<int>, c: seq<int>)
    requires x > 0 && forall i :: 0 <= i < |t| ==> t[i] > 0 && t[i] != x
    ensures (Inversions(a + [x] + t + c) + |t|) % 2 == Inversions(a + t + [x] + c) % 2
    decreases |t|
  {
    if t == [] {
      assert a + [x] + t + c == a + t + [x] + c;
    } else {
      SwapNeighbours(a, x, t[0], t[1..] + c);
      PassTiles(a + [t[0]], x, t[1..], c);
      assert a + [x] + t + c == a + [x, t[0]] + (t[1..] + c);
      assert a + [t[0], x] + (t[1..] + c) == a + [t[0]] + [x] + t[1..] + c;
      assert a + [t[0]] + t[1..] + [x] + c == a + t + [x] + c;
    }
  }

  /** Two tiles that change places across others. */
  lemma ExchangeAcross(a: seq<int>, x: int, t: seq<int>, y: int, c: seq<int>)
    requires x > 0 && y > 0 && x != y && forall i :: 0 <= i < |t| ==> t[i] > 0 && t[i] != x && t[i] != y
    ensures Inversions(a + [x] + t + [y] + c) % 2 != Inversions(a + [y] + t + [x] + c) % 2
  {
    PassTiles(a, x, t + [y], c);
    PassTiles(a, y, t, [x] + c);
    assert a + [x] + (t + [y]) + c == a + [x] + t + [y] + c;
    assert a + (t + [y]) + [x] + c == a + t + [y] + ([x] + c);
    assert a + [y] + t + ([x] + c) == a + [y] + t + [x] + c;
  }

  predicate Tiles(b: seq<int>) {
    (forall i :: 0 <= i < |b| ==> b[i] > 0) && forall i, j :: 0 <= i < j < |b| ==> b[i] != b[j]
  }

  lemma ExchangeTiles(s: seq<int>, p: nat, q: nat)
    requires p < q < |s| && Tiles(s)
    ensures Inversions(s[p := s[q]][q := s[p]]) % 2 != Inversions(s) % 2
  {
    var a, t, c := s[..p], s[p + 1..q], s[q + 1..];
    ExchangeAcross(a, s[p], t, s[q], c);
    assert s == a + [s[p]] + t + [s[q]] + c;
    assert s[p := s[q]][q := s[p]] == a + [s[q]] + t + [s[p]] + c;
  }

  lemma SwapIsBoard(b: Board, p: nat, q: nat)
    requires IsBoard(b) && p < q < 16 && b[p] != 0 && b[q] != 0
    ensures IsBoard(Swap(b, p, q)) && Blank(Swap(b, p, q)) == Blank(b)
  {
    var r := Swap(b, p, q);
    forall i, j | 0 <= i < j < 16
      ensures r[i] != r[j]
    {
      var i', j' := if i == p then q else if i == q then p else i, if j == p then q else if j == q then p else j;
      assert r[i] == b[i'] && r[j] == b[j'] && i' != j';
    }
    assert r[Blank(b)] == 0;
  }

  function Dropped(b: seq<int>, z: nat): (s: seq<int>)
    requires z < |b|
    ensures |s| == |b| - 1 && forall i :: 0 <= i < |s| ==> s[i] == b[if i < z then i else i + 1]
  {
    b[..z] + b[z + 1..]
  }

  lemma DropAndSwap(b: Board, z: nat, p: nat, q: nat)
    requires |b| == 16 && p < q < 16 && z < 16 && z != p && z != q
    ensures var p', q' := if p < z then p else p - 1, if q < z then q else q - 1;
            && p' < q' < 15
            && Dropped(Swap(b, p, q), z) == Dropped(b, z)[p' := Dropped(b, z)[q']][q' := Dropped(b, z)[p']]
  {
  }

  lemma DropIsTiles(b: Board)
    requires IsBoard(b)
    ensures Tiles(Dropped(b, Blank(b)))
  {
    var z := Blank(b);
    assert forall i :: 0 <= i < 16 && i != z ==> b[i] != b[z];
  }

  /** Exchanging two tiles of a board turns a solvable one into one that is not, and back. */
  lemma ExchangeFlips(b: Board, p: nat, q: nat)
    requires IsBoard(b) && p < q < 16 && b[p] != 0 && b[q] != 0
    ensures IsBoard(Swap(b, p, q)) && (Solvable(Swap(b, p, q)) <==> !Solvable(b))
  {
    var r, z := Swap(b, p, q), Blank(b);
    SwapIsBoard(b, p, q);
    BlankAt(b, z);
    BlankAt(r, z);
    DropIsTiles(b);
    DropAndSwap(b, z, p, q);
    ExchangeTiles(Dropped(b, z), if p < z then p else p - 1, if q < z then q else q - 1);
  }

  /** The goal with its last two tiles exchanged, which no moves reach. */
  lemma FourteenFifteen()
    ensures var b := Swap(Goal(), 13, 14); IsBoard(b) && !Solvable(b)
  {
    GoalIsSolvable();
    ExchangeFlips(Goal(), 13, 14);
  }
}
