/** Parts of an array, given dimension by dimension, as type maps: all cells in their order in memory, of
    which those in the part are kept (sections 4.1.3 and 4.1.4 of MPI-3.1). */
module Cells {
  import opened Arithmetic
  import opened TypeMap

  /** One dimension, and which of its indices belong to the part.  Dimensions are listed from the fastest
      varying to the slowest. */
  datatype Axis = Axis(size: int, has: int -> bool)

  predicate Sized(axes: seq<Axis>) { forall i :: 0 <= i < |axes| ==> axes[i].size >= 1 }

  function Volume(axes: seq<Axis>): (v: int)
    requires Sized(axes)
    ensures v >= 1
  {
    if axes == [] then 1 else Volume(axes[..|axes| - 1]) * axes[|axes| - 1].size
  }

  /** The coordinates of linear cell `x` all belong to the part. */
  predicate Within(axes: seq<Axis>, x: int)
    requires Sized(axes)
  {
    if axes == [] then true
    else
      var init, d := axes[..|axes| - 1], axes[|axes| - 1];
      d.has(x / Volume(init)) && Within(init, x % Volume(init))
  }

  function Cell(m: seq<Entry>, e: int, axes: seq<Axis>, x: nat): (r: seq<Entry>)
    requires Sized(axes)
  {
    if Within(axes, x) then Shift(m, x * e) else []
  }

  /** The first `n` cells of the whole array, of which those in the part are kept. */
  function Scan(m: seq<Entry>, e: int, axes: seq<Axis>, n: nat): (r: seq<Entry>)
    requires Sized(axes)
  {
    if n == 0 then [] else Scan(m, e, axes, n - 1) + Cell(m, e, axes, n - 1)
  }

  /** The part of the array. */
  function Part(m: seq<Entry>, e: int, axes: seq<Axis>): (r: seq<Entry>)
    requires Sized(axes)
  {
    Scan(m, e, axes, Volume(axes))
  }

  /** The map `m` at each of the rows from `lo` up to `hi` that is taken. */
  function Rows(m: seq<Entry>, has: int -> bool, lo: int, hi: int, step: int): (r: seq<Entry>)
    requires lo <= hi
    decreases hi - lo
  {
    if lo == hi then [] else Rows(m, has, lo, hi - 1, step) + (if has(hi - 1) then Shift(m, (hi - 1) * step) else [])
  }

  // ---------------------------------------------------------------------------
  // Cell by cell or row by row
  // ---------------------------------------------------------------------------

  function RowPart(m: seq<Entry>, e: int, axes: seq<Axis>, row: nat, n: nat): (r: seq<Entry>)
    requires Sized(axes) && axes != []
  {
    var init, d := axes[..|axes| - 1], axes[|axes| - 1];
    if d.has(row) then Shift(Scan(m, e, init, n), row * (Volume(init) * e)) else []
  }

  /** The cell `n` of a row that belongs to the part; the row begins at cell `at`. */
  lemma RowCell(m: seq<Entry>, e: int, init: seq<Axis>, row: nat, v: int, n: nat, at: nat)
    requires Sized(init) && at == row * v
    ensures Shift(Scan(m, e, init, n + 1), row * (v * e))
            == Shift(Scan(m, e, init, n), row * (v * e)) + (if Within(init, n) then Shift(m, (at + n) * e) else [])
  {
    assert (row * v + n) * e == n * e + row * (v * e);
    ShiftTwice(m, n * e, row * (v * e));
    ShiftConcat(Scan(m, e, init, n), Cell(m, e, init, n), row * (v * e));
  }

  lemma RowPartStep(m: seq<Entry>, e: int, axes: seq<Axis>, row: nat, n: nat, at: nat)
    requires Sized(axes) && axes != [] && n < Volume(axes[..|axes| - 1]) && at == row * Volume(axes[..|axes| - 1])
    ensures RowPart(m, e, axes, row, n + 1) == RowPart(m, e, axes, row, n) + Cell(m, e, axes, at + n)
  {
    CellOfRow(axes, row, n, at);
    RowCell(m, e, axes[..|axes| - 1], row, Volume(axes[..|axes| - 1]), n, at);
  }

  lemma CellOfRow(axes: seq<Axis>, row: nat, k: nat, at: nat)
    requires Sized(axes) && axes != [] && k < Volume(axes[..|axes| - 1]) && at == row * Volume(axes[..|axes| - 1])
    ensures Within(axes, at + k) <==> axes[|axes| - 1].has(row) && Within(axes[..|axes| - 1], k)
  {
    DivisionIsUnique(at + k, Volume(axes[..|axes| - 1]), row, k);
  }

  lemma ScanStep(m: seq<Entry>, e: int, axes: seq<Axis>, x: nat)
    requires Sized(axes)
    ensures Scan(m, e, axes, x + 1) == Scan(m, e, axes, x) + Cell(m, e, axes, x)
  {
  }

  lemma OneMoreCell(m: seq<Entry>, e: int, axes: seq<Axis>, row: nat, n: nat, at: nat, x: nat)
    requires Sized(axes) && axes != [] && n < Volume(axes[..|axes| - 1]) && at == row * Volume(axes[..|axes| - 1])
    requires x == at + n && Scan(m, e, axes, x) == Scan(m, e, axes, at) + RowPart(m, e, axes, row, n)
    ensures Scan(m, e, axes, x + 1) == Scan(m, e, axes, at) + RowPart(m, e, axes, row, n + 1)
  {
    var all, part, cell := Scan(m, e, axes, at), RowPart(m, e, axes, row, n), Cell(m, e, axes, x);
    calc {
      Scan(m, e, axes, x + 1);
      { ScanStep(m, e, axes, x); }
      (all + part) + cell;
      all + (part + cell);
      { RowPartStep(m, e, axes, row, n, at); }
      all + RowPart(m, e, axes, row, n + 1);
    }
  }

  /** Scanning the first `n` cells of one row of the array. */
  lemma {:induction false} ScanRow(m: seq<Entry>, e: int, axes: seq<Axis>, row: nat, n: nat, at: nat)
    requires Sized(axes) && axes != [] && n <= Volume(axes[..|axes| - 1]) && at == row * Volume(axes[..|axes| - 1])
    ensures Scan(m, e, axes, at + n) == Scan(m, e, axes, at) + RowPart(m, e, axes, row, n)
  {
    if n == 0 {
      EmptyRowPart(m, e, axes, row);
    } else {
      ScanRow(m, e, axes, row, n - 1, at);
      OneMoreCell(m, e, axes, row, n - 1, at, at + n - 1);
    }
  }

  lemma EmptyRowPart(m: seq<Entry>, e: int, axes: seq<Axis>, row: nat)
    requires Sized(axes) && axes != []
    ensures RowPart(m, e, axes, row, 0) == []
  {
  }

  /** Scanning whole rows. */
  lemma {:induction false} ScanRows(m: seq<Entry>, e: int, axes: seq<Axis>, rows: nat, v: int, at: nat)
    requires Sized(axes) && axes != [] && v == Volume(axes[..|axes| - 1]) && at == rows * v
    ensures Scan(m, e, axes, at) == Rows(Part(m, e, axes[..|axes| - 1]), axes[|axes| - 1].has, 0, rows, v * e)
  {
    if rows > 0 {
      var before := at - v;
      assert (rows - 1) * v == rows * v - v;
      ProductSign(rows - 1, v);
      ScanRows(m, e, axes, rows - 1, v, before);
      ScanRow(m, e, axes, rows - 1, v, before);
    }
  }

  /** A part is the rows of it, each being a part of one dimension less. */
  lemma PartIsRows(m: seq<Entry>, e: int, axes: seq<Axis>)
    requires Sized(axes) && axes != []
    ensures var init, d := axes[..|axes| - 1], axes[|axes| - 1];
            Part(m, e, axes) == Rows(Part(m, e, init), d.has, 0, d.size, Volume(init) * e)
  {
    var init, d := axes[..|axes| - 1], axes[|axes| - 1];
    assert d.size * Volume(init) == Volume(init) * d.size;
    ScanRows(m, e, axes, d.size, Volume(init), Volume(axes));
  }

  lemma PartOfNothing(m: seq<Entry>, e: int)
    ensures Part(m, e, []) == m
  {
    assert Scan(m, e, [], 0) == [];
    ShiftTwice(m, 0, 0);
    assert Scan(m, e, [], 1) == Shift(m, 0);
  }

  // ---------------------------------------------------------------------------
  // Rows
  // ---------------------------------------------------------------------------

  lemma {:induction false} RowsSplit(m: seq<Entry>, has: int -> bool, lo: int, mid: int, hi: int, step: int)
    requires lo <= mid <= hi
    ensures Rows(m, has, lo, hi, step) == Rows(m, has, lo, mid, step) + Rows(m, has, mid, hi, step)
    decreases hi - mid
  {
    if mid < hi {
      RowsSplit(m, has, lo, mid, hi - 1, step);
      var a, b := Rows(m, has, lo, mid, step), Rows(m, has, mid, hi - 1, step);
      var c := if has(hi - 1) then Shift(m, (hi - 1) * step) else [];
      assert (a + b) + c == a + (b + c);
    }
  }

  lemma {:induction false} RowsNone(m: seq<Entry>, has: int -> bool, lo: int, hi: int, step: int)
    requires lo <= hi && forall x :: lo <= x < hi ==> !has(x)
    ensures Rows(m, has, lo, hi, step) == []
    decreases hi - lo
  {
    if lo < hi {
      RowsNone(m, has, lo, hi - 1, step);
    }
  }

  lemma {:induction false} RowsAll(m: seq<Entry>, has: int -> bool, lo: int, n: nat, step: int)
    requires forall x :: lo <= x < lo + n ==> has(x)
    ensures Rows(m, has, lo, lo + n, step) == Copies(m, n, lo * step, step)
    decreases n
  {
    if n > 0 {
      RowsAll(m, has, lo, n - 1, step);
      Spread(lo, n - 1, 1, step);
    }
  }

  /** One run of rows. */
  lemma RowsRun(m: seq<Entry>, has: int -> bool, start: int, n: nat, size: int, step: int)
    requires 0 <= start && start + n <= size && forall x :: 0 <= x < size ==> (has(x) <==> start <= x < start + n)
    ensures Rows(m, has, 0, size, step) == Copies(m, n, start * step, step)
  {
    RowsSplit(m, has, 0, start, size, step);
    RowsSplit(m, has, start, start + n, size, step);
    RowsNone(m, has, 0, start, step);
    RowsAll(m, has, start, n, step);
    RowsNone(m, has, start + n, size, step);
  }

  /** A run of rows, and then none. */
  lemma RunThenNone(m: seq<Entry>, has: int -> bool, lo: int, n: nat, hi: int, step: int)
    requires lo + n <= hi && (forall x :: lo <= x < lo + n ==> has(x)) && forall x :: lo + n <= x < hi ==> !has(x)
    ensures Rows(m, has, lo, hi, step) == Copies(m, n, lo * step, step)
  {
    RowsSplit(m, has, lo, lo + n, hi, step);
    RowsAll(m, has, lo, n, step);
    RowsNone(m, has, lo + n, hi, step);
  }
}
