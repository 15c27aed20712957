/** Which cells of a distributed array a rank owns, and the type map that selects them
    (ompi/datatype/ompi_datatype_create_darray.c, section 4.1.4 of MPI-3.1). */
module DarrayMap {
  import opened Arithmetic
  import opened Cells
  import opened Darray
  import opened Options
  import opened TypeMap

  // ---------------------------------------------------------------------------
  // The cells of a rank
  // ---------------------------------------------------------------------------

  /** The dimension that is the `k`-th fastest. */
  function Nth(n: nat, k: int, fortran: bool): (i: int) { if fortran then k else n - 1 - k }

  function AxisOf(d: Dim, coord: int): (a: Axis) {
    Axis(d.gsize, x => Legal(d) && 0 <= x < d.gsize && OwnerOf(d, x) == coord)
  }

  /** The part of the array at a position in the process grid. */
  ghost function Axes(dims: seq<Dim>, coords: seq<int>, fortran: bool): (axes: seq<Axis>)
    requires AllLegal(dims) && |coords| == |dims|
    ensures |axes| == |dims| && Sized(axes)
    ensures forall k :: 0 <= k < |axes| ==>
              var i := Nth(|dims|, k, fortran); axes[k] == AxisOf(dims[i], coords[i])
  {
    seq(|dims|, k requires 0 <= k < |dims| => AxisOf(dims[Nth(|dims|, k, fortran)], coords[Nth(|dims|, k, fortran)]))
  }

  /** The index of linear cell `x` in each dimension, the fastest first. */
  function CellOf(axes: seq<Axis>, x: int): (cell: seq<int>)
    requires Sized(axes)
    ensures |cell| == |axes|
  {
    if axes == [] then []
    else
      var init := axes[..|axes| - 1];
      CellOf(init, x % Volume(init)) + [x / Volume(init)]
  }

  lemma {:induction false} WithinIsEverywhere(axes: seq<Axis>, x: int)
    requires Sized(axes)
    ensures Within(axes, x) <==> forall k :: 0 <= k < |axes| ==> axes[k].has(CellOf(axes, x)[k])
  {
    if axes != [] {
      var n := |axes| - 1;
      var v := Volume(axes[..n]);
      WithinIsEverywhere(axes[..n], x % v);
      assert forall k :: 0 <= k < n ==> CellOf(axes, x)[k] == CellOf(axes[..n], x % v)[k] && axes[..n][k] == axes[k];
    }
  }

  lemma {:induction false} CellIsInside(axes: seq<Axis>, x: int)
    requires Sized(axes) && 0 <= x < Volume(axes)
    ensures forall k :: 0 <= k < |axes| ==> 0 <= CellOf(axes, x)[k] < axes[k].size
  {
    if axes != [] {
      var n := |axes| - 1;
      var v := Volume(axes[..n]);
      DivMod(x, v);
      assert x < axes[n].size * v;
      Lexicographic(x / v, x % v, axes[n].size, 0, v);
      CellIsInside(axes[..n], x % v);
    }
  }

  /** The sizes alone say where a cell is. */
  lemma {:induction false} CellBySizes(a: seq<Axis>, b: seq<Axis>, x: int)
    requires Sized(a) && Sized(b) && |a| == |b| && forall k :: 0 <= k < |a| ==> a[k].size == b[k].size
    ensures Volume(a) == Volume(b) && CellOf(a, x) == CellOf(b, x)
  {
    if a != [] {
      var n := |a| - 1;
      CellBySizes(a[..n], b[..n], x);
      CellBySizes(a[..n], b[..n], x % Volume(a[..n]));
    }
  }

  /** The position that owns a cell: the owner of its index in each dimension. */
  ghost function Owner(dims: seq<Dim>, cell: seq<int>, fortran: bool): (coords: seq<int>)
    requires AllLegal(dims) && |cell| == |dims|
    ensures |coords| == |dims|
    ensures forall i :: 0 <= i < |dims| ==> coords[i] == OwnerOf(dims[i], cell[Nth(|dims|, i, fortran)])
  {
    seq(|dims|, i requires 0 <= i < |dims| => OwnerOf(dims[i], cell[Nth(|dims|, i, fortran)]))
  }

  lemma HasIfOwner(dims: seq<Dim>, coords: seq<int>, fortran: bool, x: int, i: int)
    requires AllLegal(dims) && |coords| == |dims| && 0 <= i < |dims| && 0 <= x < Volume(Axes(dims, coords, fortran))
    ensures var axes, k := Axes(dims, coords, fortran), Nth(|dims|, i, fortran);
            && 0 <= k < |dims| && Nth(|dims|, k, fortran) == i
            && (axes[k].has(CellOf(axes, x)[k]) <==> coords[i] == OwnerOf(dims[i], CellOf(axes, x)[k]))
  {
    var axes, k := Axes(dims, coords, fortran), Nth(|dims|, i, fortran);
    assert Nth(|dims|, k, fortran) == i;
    CellIsInside(axes, x);
    assert axes[k] == AxisOf(dims[i], coords[i]);
  }

  lemma OwnsByCoords(dims: seq<Dim>, coords: seq<int>, fortran: bool, x: int, cell: seq<int>)
    requires AllLegal(dims) && |coords| == |dims| && cell == CellOf(Axes(dims, coords, fortran), x)
    requires 0 <= x < Volume(Axes(dims, coords, fortran))
    ensures Within(Axes(dims, coords, fortran), x) <==> coords == Owner(dims, cell, fortran)
  {
    var axes, n := Axes(dims, coords, fortran), |dims|;
    WithinIsEverywhere(axes, x);
    if Within(axes, x) {
      forall i | 0 <= i < n
        ensures coords[i] == Owner(dims, cell, fortran)[i]
      {
        HasIfOwner(dims, coords, fortran, x, i);
      }
    } else {
      var k :| 0 <= k < n && !axes[k].has(cell[k]);
      var i := Nth(n, k, fortran);
      assert Nth(n, i, fortran) == k;
      HasIfOwner(dims, coords, fortran, x, i);
      assert coords[i] != Owner(dims, cell, fortran)[i];
    }
  }

  /** The whole array. */
  ghost function Whole(dims: seq<Dim>, fortran: bool): (axes: seq<Axis>)
    requires AllLegal(dims)
    ensures |axes| == |dims| && Sized(axes)
    ensures forall k :: 0 <= k < |axes| ==> axes[k].size == dims[Nth(|dims|, k, fortran)].gsize
  {
    seq(|dims|, k requires 0 <= k < |dims| => Axis(dims[Nth(|dims|, k, fortran)].gsize, _ => true))
  }

  lemma OwnerIsInGrid(dims: seq<Dim>, fortran: bool, x: int)
    requires AllLegal(dims) && 0 <= x < Volume(Whole(dims, fortran))
    ensures InGrid(Owner(dims, CellOf(Whole(dims, fortran), x), fortran), Grid(dims))
  {
    var all := Whole(dims, fortran);
    var cell := CellOf(all, x);
    CellIsInside(all, x);
    forall i | 0 <= i < |dims|
      ensures 0 <= Owner(dims, cell, fortran)[i] < dims[i].psize
    {
      var k := Nth(|dims|, i, fortran);
      assert Nth(|dims|, k, fortran) == i && 0 <= cell[k] < all[k].size;
      OwnerInGrid(dims[i], cell[k]);
    }
  }

  lemma OwnsIfOwner(dims: seq<Dim>, coords: seq<int>, fortran: bool, x: int)
    requires AllLegal(dims) && |coords| == |dims| && 0 <= x < Volume(Whole(dims, fortran))
    ensures Within(Axes(dims, coords, fortran), x) <==> coords == Owner(dims, CellOf(Whole(dims, fortran), x), fortran)
  {
    CellBySizes(Whole(dims, fortran), Axes(dims, coords, fortran), x);
    OwnsByCoords(dims, coords, fortran, x, CellOf(Whole(dims, fortran), x));
  }

  /** Every cell of the array belongs to exactly one rank. */
  lemma DarrayPartition(dims: seq<Dim>, fortran: bool, x: int) returns (owner: int)
    requires AllLegal(dims) && 0 <= x < Volume(Whole(dims, fortran))
    ensures 0 <= owner < GridSize(Grid(dims))
    ensures forall rank :: 0 <= rank < GridSize(Grid(dims)) ==>
              (Within(Axes(dims, Coords(rank, Grid(dims)), fortran), x) <==> rank == owner)
  {
    var ps := Grid(dims);
    var coords := Owner(dims, CellOf(Whole(dims, fortran), x), fortran);
    OwnerIsInGrid(dims, fortran, x);
    owner := RankOf(coords, ps);
    CoordsToRankToCoords(coords, ps);
    forall rank | 0 <= rank < GridSize(ps)
      ensures Within(Axes(dims, Coords(rank, ps), fortran), x) <==> rank == owner
    {
      RankToCoordsToRank(rank, ps);
      OwnsIfOwner(dims, Coords(rank, ps), fortran, x);
    }
  }

  // ---------------------------------------------------------------------------
  // The map of one dimension
  // ---------------------------------------------------------------------------

  /** What block() and cyclic() build from the map `m` of a row: runs of copies one `step` apart. */
  function PieceMap(m: seq<Entry>, p: Piece, step: int): (r: seq<Entry>)
    requires Regular(p)
  {
    Runs(m, p, step, p.count) + Copies(m, p.rem, p.count * p.stride * step, step)
  }

  function Runs(m: seq<Entry>, p: Piece, step: int, n: nat): (r: seq<Entry>)
    requires Regular(p)
  {
    Copies(Copies(m, p.blk, 0, step), n, 0, p.stride * step)
  }

  lemma BetweenRuns(p: Piece, x: int, i: int)
    requires Regular(p) && 0 <= i < p.count
    requires p.offset + i * p.stride + p.blk <= x < p.offset + i * p.stride + p.stride
    ensures !Selects(p, x)
  {
    if Selects(p, x) {
      var a: int, b: int :| InRuns(p, a, b) && x == At(p, a, b);
      var y := x - p.offset;
      DivisionIsUnique(y, p.stride, a, b);
      DivisionIsUnique(y, p.stride, i, y - i * p.stride);
    }
  }

  lemma InsideRun(p: Piece, x: int, i: int)
    requires Regular(p)
    requires p.offset + i * p.stride <= x < p.offset + i * p.stride + (if i < p.count then p.blk else p.rem)
             && 0 <= i <= p.count
    ensures Selects(p, x)
  {
    assert InRuns(p, i, x - p.offset - i * p.stride) && x == At(p, i, x - p.offset - i * p.stride);
  }

  lemma OutsideRuns(p: Piece, x: int)
    requires Regular(p) && (x < p.offset || x >= p.offset + p.count * p.stride + p.rem)
    ensures !Selects(p, x)
  {
    if Selects(p, x) {
      var i: int, j: int :| InRuns(p, i, j) && x == At(p, i, j);
      Lexicographic(0, 0, i, j, p.stride);
      Lexicographic(i, j, p.count, p.rem, p.stride);
    }
  }

  /** The full runs, each followed by a gap. */
  lemma {:induction false} FullRuns(m: seq<Entry>, has: int -> bool, p: Piece, step: int, n: nat, at: int)
    requires Regular(p) && n <= p.count && at == n * p.stride && forall x :: has(x) <==> Selects(p, x)
    ensures at >= 0
    ensures Rows(m, has, p.offset, p.offset + at, step) == Shift(Runs(m, p, step, n), p.offset * step)
    decreases n
  {
    if n > 0 {
      var before := at - p.stride;
      assert before == (n - 1) * p.stride;
      FullRuns(m, has, p, step, n - 1, before);
      OneRun(m, has, p, step, n - 1, before);
      RowsSplit(m, has, p.offset, p.offset + before, p.offset + at, step);
    }
  }

  lemma OneRun(m: seq<Entry>, has: int -> bool, p: Piece, step: int, i: nat, at: int)
    requires Regular(p) && i < p.count && at == i * p.stride && forall x :: has(x) <==> Selects(p, x)
    ensures Shift(Runs(m, p, step, i), p.offset * step) + Rows(m, has, p.offset + at, p.offset + at + p.stride, step)
            == Shift(Runs(m, p, step, i + 1), p.offset * step)
  {
    var lo := p.offset + at;
    forall x | lo <= x < lo + p.blk
      ensures has(x)
    {
      InsideRun(p, x, i);
    }
    forall x | lo + p.blk <= x < lo + p.stride
      ensures !has(x)
    {
      BetweenRuns(p, x, i);
    }
    RunThenNone(m, has, lo, p.blk, lo + p.stride, step);
    RunAt(m, p.blk, p.offset, i, p.stride, at, step);
    RunsStep(m, p, step, i);
    ShiftConcat(Runs(m, p, step, i), Shift(Copies(m, p.blk, 0, step), i * (p.stride * step)), p.offset * step);
  }

  lemma RunsStep(m: seq<Entry>, p: Piece, step: int, i: nat)
    requires Regular(p)
    ensures Runs(m, p, step, i + 1) == Runs(m, p, step, i) + Shift(Copies(m, p.blk, 0, step), i * (p.stride * step))
  {
  }

  /** A run at row `offset + at`, counted from the first row. */
  lemma RunAt(m: seq<Entry>, n: nat, offset: int, i: int, stride: int, at: int, step: int)
    requires at == i * stride
    ensures Copies(m, n, (offset + at) * step, step) == Shift(Shift(Copies(m, n, 0, step), i * (stride * step)), offset * step)
    ensures Copies(m, n, (offset + at) * step, step) == Shift(Copies(m, n, i * stride * step, step), offset * step)
  {
    var d := i * (stride * step);
    Regroup(at, i, stride, 0, step);
    assert (offset + at) * step == d + offset * step && i * stride * step == d;
    CopiesShift(m, n, 0, step, d);
    CopiesShift(m, n, d, step, offset * step);
  }

  /** The rows that a piece selects are its map, moved to the first row. */
  lemma RowsOfPiece(m: seq<Entry>, has: int -> bool, p: Piece, size: nat, step: int)
    requires Regular(p) && (forall x :: has(x) <==> Selects(p, x)) && forall x :: Selects(p, x) ==> 0 <= x < size
    ensures Rows(m, has, 0, size, step) == Shift(PieceMap(m, p, step), p.offset * step)
  {
    var at := p.count * p.stride;
    ProductSign(p.count, p.stride);
    var lo := p.offset + at;
    var top := Max(size, lo + p.rem);
    FromFirst(m, has, p, size, top, step);
    RowsSplit(m, has, p.offset, lo, top, step);
    FullRuns(m, has, p, step, p.count, at);
    LastRun(m, has, p, step, top, at);
    ShiftConcat(Runs(m, p, step, p.count), Copies(m, p.rem, p.count * p.stride * step, step), p.offset * step);
  }

  /** Nothing is selected before the first run, nor beyond the last index. */
  lemma {:induction false} FromFirst(m: seq<Entry>, has: int -> bool, p: Piece, size: nat, top: int, step: int)
    requires Regular(p) && (forall x :: has(x) <==> Selects(p, x)) && forall x :: Selects(p, x) ==> 0 <= x < size
    requires size <= top && p.offset <= top
    ensures Rows(m, has, 0, size, step) == Rows(m, has, p.offset, top, step)
  {
    RowsSplit(m, has, 0, size, top, step);
    RowsNone(m, has, size, top, step);
    forall x | 0 <= x < p.offset
      ensures !has(x)
    {
      OutsideRuns(p, x);
    }
    RowsSplit(m, has, 0, p.offset, top, step);
    RowsNone(m, has, 0, p.offset, step);
    calc {
      Rows(m, has, 0, size, step);
      Rows(m, has, 0, size, step) + Rows(m, has, size, top, step);
      Rows(m, has, 0, top, step);
      Rows(m, has, 0, p.offset, step) + Rows(m, has, p.offset, top, step);
      Rows(m, has, p.offset, top, step);
    }
  }

  lemma LastRun(m: seq<Entry>, has: int -> bool, p: Piece, step: int, top: int, at: int)
    requires Regular(p) && (forall x :: has(x) <==> Selects(p, x)) && at == p.count * p.stride
    requires p.offset + at + p.rem <= top
    ensures Rows(m, has, p.offset + at, top, step)
            == Shift(Copies(m, p.rem, p.count * p.stride * step, step), p.offset * step)
  {
    var lo := p.offset + at;
    forall x | lo <= x < lo + p.rem
      ensures has(x)
    {
      InsideRun(p, x, p.count);
    }
    forall x | lo + p.rem <= x < top
      ensures !has(x)
    {
      OutsideRuns(p, x);
    }
    RunThenNone(m, has, lo, p.rem, top, step);
    RunAt(m, p.rem, p.offset, p.count, p.stride, at, step);
  }

  lemma PieceMapShift(m: seq<Entry>, p: Piece, step: int, s: int)
    requires Regular(p)
    ensures PieceMap(Shift(m, s), p, step) == Shift(PieceMap(m, p, step), s)
  {
    var run := Copies(m, p.blk, 0, step);
    CopiesShift(m, p.blk, 0, step, s);
    CopiesShift(run, p.count, 0, p.stride * step, s);
    assert Copies(Shift(m, s), p.blk, 0, step) == Shift(run, s);
    CopiesShift(m, p.rem, p.count * p.stride * step, step, s);
    ShiftConcat(Runs(m, p, step, p.count), Copies(m, p.rem, p.count * p.stride * step, step), s);
  }

  /** One dimension more: if the nested map `last`, moved to `displ`, is the part of the faster dimensions,
      then so is the new one. */
  lemma DimensionAdded(m: seq<Entry>, e: int, axes: seq<Axis>, k: nat, p: Piece, last: seq<Entry>, displ: int, v: int,
                       step: int, displ': int)
    requires Sized(axes) && k < |axes| && v == Volume(axes[..k]) && Regular(p)
    requires step == v * e && displ' == displ + v * p.offset
    requires (forall x :: axes[k].has(x) <==> Selects(p, x)) && forall x :: Selects(p, x) ==> 0 <= x < axes[k].size
    requires Part(m, e, axes[..k]) == Shift(last, displ * e)
    ensures Part(m, e, axes[..k + 1]) == Shift(PieceMap(last, p, step), displ' * e)
  {
    var now := axes[..k + 1];
    assert now[..k] == axes[..k];
    PartIsRows(m, e, now);
    RowsOfPiece(Shift(last, displ * e), axes[k].has, p, axes[k].size, step);
    PieceMapShift(last, p, step, displ * e);
    ShiftTwice(PieceMap(last, p, step), displ * e, p.offset * step);
    assert displ * e + p.offset * step == displ' * e by {
      Spread(displ, p.offset, v, e);
      assert p.offset * v == v * p.offset;
    }
  }
}
