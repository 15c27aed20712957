/** When ompi_datatype_create_darray (ompi/datatype/ompi_datatype_create_darray.c) lays out the part of a rank
    as section 4.1.4 of MPI-3.1 demands. */
module DarrayFit {
  import opened Arithmetic
  import opened Cells
  import opened Constructors
  import opened Darray
  import opened DarrayMap
  import opened Options
  import opened TypeMap

  // ---------------------------------------------------------------------------
  // How many indices of a dimension are taken
  // ---------------------------------------------------------------------------

  function Count(has: int -> bool, n: nat): (c: nat) {
    if n == 0 then 0 else Count(has, n - 1) + (if has(n - 1) then 1 else 0)
  }

  function Taken(a: Axis): (c: nat)
    requires a.size >= 0
  {
    Count(a.has, a.size)
  }

  /** The rows that a piece selects. */
  function RowsIn(p: Piece): (c: nat)
    requires Regular(p)
  {
    ProductSign(p.count, p.blk);
    p.count * p.blk + p.rem
  }

  lemma {:induction false} RowsOfOne(x: Entry, has: int -> bool, n: nat, step: int)
    ensures |Rows([x], has, 0, n, step)| == Count(has, n)
  {
    if n > 0 {
      RowsOfOne(x, has, n - 1, step);
    }
  }

  lemma PieceMapLength(m: seq<Entry>, p: Piece, step: int)
    requires Regular(p)
    ensures |PieceMap(m, p, step)| == RowsIn(p) * |m|
  {
    var run := Copies(m, p.blk, 0, step);
    CopiesLength(m, p.blk, 0, step);
    CopiesLength(run, p.count, 0, p.stride * step);
    CopiesLength(m, p.rem, p.count * p.stride * step, step);
    Gather(p.count, p.blk, p.rem, |m|);
  }

  lemma Gather(a: int, b: int, c: int, n: int)
    ensures a * (b * n) + c * n == (a * b + c) * n
  {
  }

  /** A piece has as many rows as indices are taken. */
  lemma TakenByPiece(p: Piece, a: Axis)
    requires Regular(p) && a.size >= 0
    requires (forall x :: a.has(x) <==> Selects(p, x)) && forall x :: Selects(p, x) ==> 0 <= x < a.size
    ensures RowsIn(p) == Taken(a)
  {
    var x := Entry(0, 0);
    RowsOfOne(x, a.has, a.size, 1);
    RowsOfPiece([x], a.has, p, a.size, 1);
    PieceMapLength([x], p, 1);
  }

  lemma {:induction false} CountBounds(has: int -> bool, n: nat)
    ensures 0 <= Count(has, n) <= n
  {
    if n > 0 {
      CountBounds(has, n - 1);
    }
  }

  // ---------------------------------------------------------------------------
  // The condition
  // ---------------------------------------------------------------------------

  /** Blocks of more than one index, dealt out in turn. */
  predicate BlockCyclic(d: Dim) { d.distrib.Cyclic? && d.darg.Some? && d.darg.value > 1 }

  /** Copies of a row are put `step` bytes apart if that is its extent, or if there is only one; a dimension
      that is not block-cyclic names the distance, which may be anything but -1. */
  predicate StepFits(d: Dim, rows: nat, extent: int, step: int) {
    extent == step || rows <= 1 || (!BlockCyclic(d) && (step != -1 || (d.distrib.Cyclic? && d.psize > 1)))
  }

  /** The extent of the datatype after a dimension: cyclic() sets that of the whole dimension, block()
      leaves that of its run. */
  function NextExtent(d: Dim, rows: nat, extent: int, step: int, grain: int): (r: int)
    requires grain > 0
  {
    if d.distrib.Cyclic? then step * d.gsize
    else RepeatedExtent(extent, rows, if step == -1 then extent else step, grain)
  }

  /** The dimension that is the `k`-th fastest. */
  function DimAt(dims: seq<Dim>, fortran: bool, k: nat): (d: Dim)
    requires k < |dims|
  {
    dims[Nth(|dims|, k, fortran)]
  }

  /** The bytes from one row of the `k`-th fastest dimension to the next. */
  function Step(axes: seq<Axis>, e: int, k: nat): (step: int)
    requires Sized(axes) && k <= |axes|
  {
    Volume(axes[..k]) * e
  }

  /** The extent after `k` dimensions. */
  function ExtentAfter(dims: seq<Dim>, axes: seq<Axis>, fortran: bool, e: int, grain: int, k: nat): (r: int)
    requires |axes| == |dims| && Sized(axes) && grain > 0 && k <= |dims|
  {
    if k == 0 then e
    else
      var before := ExtentAfter(dims, axes, fortran, e, grain, k - 1);
      NextExtent(DimAt(dims, fortran, k - 1), Taken(axes[k - 1]), before, Step(axes, e, k - 1), grain)
  }

  predicate FitsAt(dims: seq<Dim>, axes: seq<Axis>, fortran: bool, e: int, grain: int, k: nat)
    requires |axes| == |dims| && Sized(axes) && grain > 0 && k < |dims|
  {
    StepFits(DimAt(dims, fortran, k), Taken(axes[k]), ExtentAfter(dims, axes, fortran, e, grain, k), Step(axes, e, k))
  }

  predicate AllFit(dims: seq<Dim>, axes: seq<Axis>, fortran: bool, e: int, grain: int, k: nat)
    requires |axes| == |dims| && Sized(axes) && grain > 0 && k <= |dims|
  {
    forall j :: 0 <= j < k ==> FitsAt(dims, axes, fortran, e, grain, j)
  }

  /** Nothing is taken in one of the first `k` dimensions. */
  predicate NoRows(axes: seq<Axis>, k: nat)
    requires Sized(axes) && k <= |axes|
  {
    exists j :: 0 <= j < k && Taken(axes[j]) == 0
  }

  /** The part of the rank has no elements, or every dimension fits. */
  predicate Works(m: seq<Entry>, dims: seq<Dim>, axes: seq<Axis>, fortran: bool, e: int, grain: int, k: nat)
    requires |axes| == |dims| && Sized(axes) && grain > 0 && k <= |dims|
  {
    m == [] || NoRows(axes, k) || AllFit(dims, axes, fortran, e, grain, k)
  }

  // ---------------------------------------------------------------------------
  // What the loop keeps
  // ---------------------------------------------------------------------------

  /** What the loop has reached after `k` dimensions: a map as long as the part, which is the part moved to
      the origin if and only if all went well. */
  ghost predicate Reached(m: seq<Entry>, e: int, axes: seq<Axis>, k: nat, last: seq<Entry>, displ: int, v: int,
                          ok: bool)
    requires Sized(axes) && k <= |axes|
  {
    var part := Part(m, e, axes[..k]);
    && v == Volume(axes[..k]) && |last| == |part|
    && (part == [] <==> m == [] || NoRows(axes, k))
    && (Shift(last, displ * e) == part <==> ok)
  }

  lemma ReachedFirst(m: seq<Entry>, e: int, axes: seq<Axis>)
    requires Sized(axes)
    ensures Reached(m, e, axes, 0, m, 0, 1, true)
  {
    assert axes[..0] == [];
    PartOfNothing(m, e);
    ShiftTwice(m, 0, 0);
  }

  /** A map that begins with another. */
  predicate StartsWith(r: seq<Entry>, m: seq<Entry>) { |m| <= |r| && r[..|m|] == m }

  lemma CopiesStart(m: seq<Entry>, n: nat, e: int)
    requires n >= 1
    ensures StartsWith(Copies(m, n, 0, e), m)
  {
    CopiesConcat(m, 1, n - 1, 0, e);
    CopiesOnce(m, 0, e);
    ShiftTwice(m, 0, 0);
  }

  lemma PieceMapStart(m: seq<Entry>, p: Piece, step: int)
    requires Regular(p) && RowsIn(p) >= 1
    ensures StartsWith(PieceMap(m, p, step), m)
  {
    if p.count >= 1 {
      CopiesStart(m, p.blk, step);
      CopiesStart(Copies(m, p.blk, 0, step), p.count, p.stride * step);
    } else {
      assert p.count == 0 && p.count * p.stride * step == 0;
      CopiesStart(m, p.rem, step);
      assert Runs(m, p, step, 0) == [];
    }
  }

  lemma ShiftBack(a: seq<Entry>, b: seq<Entry>, d: int)
    ensures Shift(Shift(b, -d), d) == b
    ensures Shift(a, d) == Shift(b, d) <==> a == b
  {
    ShiftTwice(a, d, -d);
    ShiftTwice(b, d, -d);
    ShiftTwice(b, -d, d);
  }

  /** What one dimension does to the map `last` of a row: it is right for this map if there is nothing to
      repeat or the distance fits, and in any case it has the right length and begins with `last`. */
  ghost predicate RowsLaid(r: seq<Entry>, last: seq<Entry>, p: Piece, step: int, fits: bool)
    requires Regular(p)
  {
    && |r| == |PieceMap(last, p, step)|
    && (RowsIn(p) >= 1 ==> StartsWith(r, last))
    && (r == PieceMap(last, p, step) <==> last == [] || fits)
  }

  /** A wrong map stays wrong unless nothing is left of it. */
  lemma LaidOn(r: seq<Entry>, last: seq<Entry>, t: seq<Entry>, p: Piece, step: int, fits: bool)
    requires Regular(p) && RowsLaid(r, last, p, step, fits) && |last| == |t|
    ensures var made := PieceMap(t, p, step);
            && |r| == |made| && (made == [] <==> t == [] || RowsIn(p) == 0)
            && (r == made <==> made == [] || (last == t && fits))
  {
    PieceMapLength(t, p, step);
    PieceMapLength(last, p, step);
    ProductIsZero(RowsIn(p), |t|);
    if RowsIn(p) >= 1 {
      PieceMapStart(t, p, step);
    }
  }

  lemma ProductIsZero(a: nat, b: nat)
    ensures a * b == 0 <==> a == 0 || b == 0
  {
  }

  lemma ReachedNext(m: seq<Entry>, e: int, axes: seq<Axis>, k: nat, p: Piece, last: seq<Entry>, displ: int, v: int,
                    ok: bool, r: seq<Entry>, fits: bool, step: int, displ': int, v': int)
    requires Sized(axes) && k < |axes| && Regular(p) && Reached(m, e, axes, k, last, displ, v, ok)
    requires step == v * e && displ' == displ + v * p.offset && v' == v * axes[k].size
    requires (forall x :: axes[k].has(x) <==> Selects(p, x)) && forall x :: Selects(p, x) ==> 0 <= x < axes[k].size
    requires RowsLaid(r, last, p, step, fits)
    ensures Reached(m, e, axes, k + 1, r, displ', v', m == [] || NoRows(axes, k + 1) || (ok && fits))
  {
    var part, d := Part(m, e, axes[..k]), displ * e;
    var t := Shift(part, -d);
    ShiftBack(last, t, d);
    ShiftBack(t, part, d);
    DimensionAdded(m, e, axes, k, p, t, displ, v, step, displ');
    ShiftBack(r, PieceMap(t, p, step), displ' * e);
    LaidOn(r, last, t, p, step, fits);
    TakenByPiece(p, axes[k]);
    NoRowsNext(axes, k);
    VolumeNext(axes, k);
  }

  lemma NoRowsNext(axes: seq<Axis>, k: nat)
    requires Sized(axes) && k < |axes|
    ensures NoRows(axes, k + 1) <==> NoRows(axes, k) || Taken(axes[k]) == 0
  {
  }

  lemma VolumeNext(axes: seq<Axis>, k: nat)
    requires Sized(axes) && k < |axes|
    ensures Volume(axes[..k + 1]) == Volume(axes[..k]) * axes[k].size
  {
    assert axes[..k + 1][..k] == axes[..k];
  }

  lemma WorksNext(m: seq<Entry>, dims: seq<Dim>, axes: seq<Axis>, fortran: bool, e: int, grain: int, k: nat)
    requires |axes| == |dims| && Sized(axes) && grain > 0 && k < |dims|
    ensures Works(m, dims, axes, fortran, e, grain, k + 1) <==>
            m == [] || NoRows(axes, k + 1)
            || (Works(m, dims, axes, fortran, e, grain, k) && FitsAt(dims, axes, fortran, e, grain, k))
  {
    NoRowsNext(axes, k);
  }
}
