/** Which cell of an array an index vector names, in the order of the arguments and for both storage orders
    (ompi/datatype/ompi_datatype_create_darray.c, ompi_datatype_create_subarray.c; sections 4.1.3 and 4.1.4 of
    MPI-3.1): in C order the last index varies fastest, in Fortran order the first. */
module CellOrder {
  import opened Arithmetic
  import opened Cells
  import Darray
  import DarrayMap
  import Subarray

  // ---------------------------------------------------------------------------
  // Linear cells
  // ---------------------------------------------------------------------------

  ghost predicate Inside(idx: seq<int>, sizes: seq<int>) {
    |idx| == |sizes| && forall j :: 0 <= j < |sizes| ==> 0 <= idx[j] < sizes[j]
  }

  /** C order. */
  function RowMajor(idx: seq<int>, sizes: seq<int>): (x: int)
    requires |idx| == |sizes|
  {
    if sizes == [] then 0
    else
      var n := |sizes| - 1;
      RowMajor(idx[..n], sizes[..n]) * sizes[n] + idx[n]
  }

  /** Fortran order. */
  function ColumnMajor(idx: seq<int>, sizes: seq<int>): (x: int)
    requires |idx| == |sizes|
  {
    if sizes == [] then 0 else idx[0] + sizes[0] * ColumnMajor(idx[1..], sizes[1..])
  }

  function Linear(fortran: bool, idx: seq<int>, sizes: seq<int>): (x: int)
    requires |idx| == |sizes|
  {
    if fortran then ColumnMajor(idx, sizes) else RowMajor(idx, sizes)
  }

  function Reversed(s: seq<int>): (r: seq<int>)
    ensures |r| == |s| && forall j :: 0 <= j < |s| ==> r[j] == s[|s| - 1 - j]
  {
    seq(|s|, j requires 0 <= j < |s| => s[|s| - 1 - j])
  }

  /** The one order is the other one read backwards. */
  lemma {:induction false} RowsAreColumns(idx: seq<int>, sizes: seq<int>)
    requires |idx| == |sizes|
    ensures RowMajor(idx, sizes) == ColumnMajor(Reversed(idx), Reversed(sizes))
  {
    if sizes != [] {
      var n := |sizes| - 1;
      RowsAreColumns(idx[..n], sizes[..n]);
      assert Reversed(idx)[1..] == Reversed(idx[..n]) && Reversed(sizes)[1..] == Reversed(sizes[..n]);
    }
  }

  /** The rank of a position in the process grid is its cell in C order. */
  lemma {:induction false} RankIsRowMajor(idx: seq<int>, sizes: seq<int>)
    requires |idx| == |sizes| && Darray.Sizes(sizes)
    ensures Darray.RankOf(idx, sizes) == RowMajor(idx, sizes)
  {
    if sizes != [] {
      var n := |sizes| - 1;
      RankIsRowMajor(idx[..n], sizes[..n]);
      LastIndexFastest(idx, sizes);
    }
  }

  lemma {:induction false} LastIndexFastest(idx: seq<int>, sizes: seq<int>)
    requires |idx| == |sizes| > 0 && Darray.Sizes(sizes)
    ensures var n := |sizes| - 1;
            && Darray.RankOf(idx, sizes) == Darray.RankOf(idx[..n], sizes[..n]) * sizes[n] + idx[n]
            && Darray.GridSize(sizes) == Darray.GridSize(sizes[..n]) * sizes[n]
  {
    var n := |sizes| - 1;
    if n == 0 {
      assert sizes[1..] == [] && idx[1..] == [] && sizes[..0] == [] && idx[..0] == [];
    } else {
      LastIndexFastest(idx[1..], sizes[1..]);
      assert sizes[1..][..n - 1] == sizes[..n][1..] && idx[1..][..n - 1] == idx[..n][1..];
      var v := Darray.GridSize(sizes[..n][1..]);
      assert Darray.RankOf(idx[..n], sizes[..n]) == idx[0] * v + Darray.RankOf(idx[..n][1..], sizes[..n][1..]);
      Reorder(idx[0], v, sizes[n]);
      assert Darray.GridSize(sizes[..n]) == sizes[0] * v;
      Regrouped(idx[0], v, sizes[n], Darray.RankOf(idx[..n][1..], sizes[..n][1..]));
      Regrouped(sizes[0], v, sizes[n], 0);
    }
  }

  lemma Regrouped(a: int, v: int, s: int, r: int)
    ensures (a * v + r) * s == a * (v * s) + r * s
  {
  }

  // ---------------------------------------------------------------------------
  // Cells of a part
  // ---------------------------------------------------------------------------

  function SizesOf(axes: seq<Axis>): (sizes: seq<int>)
    ensures |sizes| == |axes| && forall k :: 0 <= k < |axes| ==> sizes[k] == axes[k].size
  {
    seq(|axes|, k requires 0 <= k < |axes| => axes[k].size)
  }

  /** The slowest index, split off. */
  lemma {:induction false} SlowestIndex(idx: seq<int>, axes: seq<Axis>)
    requires Sized(axes) && |idx| == |axes| > 0
    ensures var n := |axes| - 1;
            ColumnMajor(idx, SizesOf(axes))
            == idx[n] * Volume(axes[..n]) + ColumnMajor(idx[..n], SizesOf(axes[..n]))
  {
    var n, s := |axes| - 1, SizesOf(axes);
    if n == 0 {
      assert idx[1..] == [] && s[1..] == [] && axes[..0] == [] && idx[..0] == [];
    } else {
      SlowestIndex(idx[1..], axes[1..]);
      assert SizesOf(axes[1..]) == s[1..] && SizesOf(axes[..n])[1..] == SizesOf(axes[1..][..n - 1]);
      assert idx[1..][..n - 1] == idx[..n][1..] && axes[1..][..n - 1] == axes[..n][1..];
      FastestSize(axes[..n]);
      var v := Volume(axes[..n][1..]);
      Gathered(s[0], idx[n], v, ColumnMajor(idx[..n][1..], SizesOf(axes[..n])[1..]));
    }
  }

  lemma Gathered(s: int, i: int, v: int, c: int)
    ensures s * (i * v + c) == i * (s * v) + s * c
  {
  }

  lemma {:induction false} FastestSize(axes: seq<Axis>)
    requires Sized(axes) && axes != []
    ensures Volume(axes) == axes[0].size * Volume(axes[1..])
  {
    var n := |axes| - 1;
    if n == 0 {
      assert axes[..0] == [] && axes[1..] == [];
    } else {
      FastestSize(axes[..n]);
      assert axes[..n][1..] == axes[1..][..n - 1];
    }
  }

  /** An index vector names a cell of the array, and belongs to the part if every index does. */
  lemma {:induction false} WithinByIndex(idx: seq<int>, axes: seq<Axis>)
    requires Sized(axes) && Inside(idx, SizesOf(axes))
    ensures 0 <= ColumnMajor(idx, SizesOf(axes)) < Volume(axes)
    ensures Within(axes, ColumnMajor(idx, SizesOf(axes))) <==> forall k :: 0 <= k < |axes| ==> axes[k].has(idx[k])
  {
    if axes != [] {
      var n := |axes| - 1;
      var v, rest := Volume(axes[..n]), ColumnMajor(idx[..n], SizesOf(axes[..n]));
      assert SizesOf(axes[..n]) == SizesOf(axes)[..n];
      WithinByIndex(idx[..n], axes[..n]);
      SlowestIndex(idx, axes);
      DivisionIsUnique(idx[n] * v + rest, v, idx[n], rest);
      Lexicographic(idx[n], rest, axes[n].size, 0, v);
      ProductSign(idx[n], v);
      assert forall k :: 0 <= k < n ==> axes[..n][k] == axes[k] && idx[..n][k] == idx[k];
    }
  }

  /** Where dimension `j` of the arguments stands among axes that run from the fastest to the slowest. */
  function AxisAt(n: nat, j: int, fortran: bool): (k: int) { if fortran then j else n - 1 - j }

  ghost predicate Arranged(axes: seq<Axis>, fortran: bool, sizes: seq<int>) {
    |axes| == |sizes| && forall j :: 0 <= j < |sizes| ==> axes[AxisAt(|axes|, j, fortran)].size == sizes[j]
  }

  /** The indices from the fastest varying to the slowest. */
  function FastestFirst(fortran: bool, idx: seq<int>): (fast: seq<int>)
    ensures |fast| == |idx|
    ensures forall j :: 0 <= j < |idx| ==> fast[AxisAt(|idx|, j, fortran)] == idx[j]
  {
    var r := Reversed(idx);
    assert forall j :: 0 <= j < |idx| ==> r[|idx| - 1 - j] == idx[j];
    if fortran then idx else r
  }

  lemma LinearByAxes(axes: seq<Axis>, fortran: bool, idx: seq<int>, sizes: seq<int>)
    requires Sized(axes) && Arranged(axes, fortran, sizes) && Inside(idx, sizes)
    ensures Inside(FastestFirst(fortran, idx), SizesOf(axes))
    ensures Linear(fortran, idx, sizes) == ColumnMajor(FastestFirst(fortran, idx), SizesOf(axes))
  {
    if fortran {
      assert forall j :: 0 <= j < |sizes| ==> AxisAt(|axes|, j, true) == j;
      assert SizesOf(axes) == sizes;
    } else {
      RowsAreColumns(idx, sizes);
      forall k | 0 <= k < |sizes|
        ensures SizesOf(axes)[k] == Reversed(sizes)[k]
      {
        assert AxisAt(|axes|, |axes| - 1 - k, false) == k;
      }
      assert SizesOf(axes) == Reversed(sizes);
    }
  }

  lemma CellByIndex(axes: seq<Axis>, fortran: bool, idx: seq<int>, sizes: seq<int>)
    requires Sized(axes) && Arranged(axes, fortran, sizes) && Inside(idx, sizes)
    ensures 0 <= Linear(fortran, idx, sizes) < Volume(axes)
    ensures Within(axes, Linear(fortran, idx, sizes))
            <==> forall j :: 0 <= j < |sizes| ==> axes[AxisAt(|axes|, j, fortran)].has(idx[j])
  {
    var fast, n := FastestFirst(fortran, idx), |axes|;
    LinearByAxes(axes, fortran, idx, sizes);
    WithinByIndex(fast, axes);
    if !forall k :: 0 <= k < n ==> axes[k].has(fast[k]) {
      var k :| 0 <= k < n && !axes[k].has(fast[k]);
      var j := AxisAt(n, k, fortran);
      assert AxisAt(n, j, fortran) == k && fast[k] == idx[j];
    }
  }

  /** Every cell of the array has an index vector. */
  lemma IndexOfCell(axes: seq<Axis>, fortran: bool, sizes: seq<int>, x: int) returns (idx: seq<int>)
    requires Sized(axes) && Arranged(axes, fortran, sizes) && 0 <= x < Volume(axes)
    ensures Inside(idx, sizes) && Linear(fortran, idx, sizes) == x
  {
    var fast, n := DarrayMap.CellOf(axes, x), |axes|;
    DarrayMap.CellIsInside(axes, x);
    CellIsColumn(axes, x);
    idx := seq(n, j requires 0 <= j < n => fast[AxisAt(n, j, fortran)]);
    forall k | 0 <= k < n
      ensures FastestFirst(fortran, idx)[k] == fast[k]
    {
      var j := AxisAt(n, k, fortran);
      assert AxisAt(n, j, fortran) == k && FastestFirst(fortran, idx)[k] == idx[j];
    }
    assert FastestFirst(fortran, idx) == fast;
    LinearByAxes(axes, fortran, idx, sizes);
  }

  lemma {:induction false} CellIsColumn(axes: seq<Axis>, x: int)
    requires Sized(axes) && 0 <= x < Volume(axes)
    ensures ColumnMajor(DarrayMap.CellOf(axes, x), SizesOf(axes)) == x
  {
    if axes != [] {
      var n := |axes| - 1;
      var v, cell := Volume(axes[..n]), DarrayMap.CellOf(axes, x);
      DivMod(x, v);
      CellIsColumn(axes[..n], x % v);
      assert cell[..n] == DarrayMap.CellOf(axes[..n], x % v);
      SlowestIndex(cell, axes);
    }
  }

  // ---------------------------------------------------------------------------
  // Distributed arrays and subarrays
  // ---------------------------------------------------------------------------

  ghost function GlobalSizes(dims: seq<Darray.Dim>): (sizes: seq<int>)
    ensures |sizes| == |dims| && forall j :: 0 <= j < |dims| ==> sizes[j] == dims[j].gsize
  {
    seq(|dims|, j requires 0 <= j < |dims| => dims[j].gsize)
  }

  lemma DarrayArranged(dims: seq<Darray.Dim>, coords: seq<int>, fortran: bool)
    requires Darray.AllLegal(dims) && |coords| == |dims|
    ensures Arranged(DarrayMap.Axes(dims, coords, fortran), fortran, GlobalSizes(dims))
    ensures forall j :: 0 <= j < |dims| ==>
              DarrayMap.Axes(dims, coords, fortran)[AxisAt(|dims|, j, fortran)] == DarrayMap.AxisOf(dims[j], coords[j])
  {
    forall j | 0 <= j < |dims|
      ensures DarrayMap.Axes(dims, coords, fortran)[AxisAt(|dims|, j, fortran)] == DarrayMap.AxisOf(dims[j], coords[j])
    {
    }
  }

  /** A cell belongs to the part at a position of the process grid if and only if, in every dimension, its index
      belongs to the process there. */
  lemma CellOfRank(dims: seq<Darray.Dim>, coords: seq<int>, fortran: bool, idx: seq<int>)
    requires Darray.AllLegal(dims) && |coords| == |dims| && Inside(idx, GlobalSizes(dims))
    ensures var axes, x := DarrayMap.Axes(dims, coords, fortran), Linear(fortran, idx, GlobalSizes(dims));
            && 0 <= x < Volume(axes)
            && (Within(axes, x) <==> forall j :: 0 <= j < |dims| ==> Darray.OwnerOf(dims[j], idx[j]) == coords[j])
  {
    var axes, n := DarrayMap.Axes(dims, coords, fortran), |dims|;
    DarrayArranged(dims, coords, fortran);
    CellByIndex(axes, fortran, idx, GlobalSizes(dims));
    forall j | 0 <= j < n
      ensures axes[AxisAt(n, j, fortran)].has(idx[j]) <==> Darray.OwnerOf(dims[j], idx[j]) == coords[j]
    {
      assert 0 <= idx[j] < GlobalSizes(dims)[j];
    }
  }

  /** And every cell is one that an index vector names. */
  lemma EveryCellOfArray(dims: seq<Darray.Dim>, coords: seq<int>, fortran: bool, x: int) returns (idx: seq<int>)
    requires Darray.AllLegal(dims) && |coords| == |dims| && 0 <= x < Volume(DarrayMap.Axes(dims, coords, fortran))
    ensures Inside(idx, GlobalSizes(dims)) && Linear(fortran, idx, GlobalSizes(dims)) == x
  {
    DarrayArranged(dims, coords, fortran);
    idx := IndexOfCell(DarrayMap.Axes(dims, coords, fortran), fortran, GlobalSizes(dims), x);
  }

  lemma BoxArranged(sizes: seq<int>, subs: seq<int>, starts: seq<int>, order: Subarray.Order)
    requires |sizes| == |subs| == |starts| && Subarray.AllLegal(Subarray.Dims(sizes, subs, starts, order))
    ensures var axes := Subarray.Axes(Subarray.Dims(sizes, subs, starts, order));
            && Sized(axes) && Arranged(axes, order.Fortran?, sizes)
            && forall j :: 0 <= j < |sizes| ==>
                 axes[AxisAt(|sizes|, j, order.Fortran?)] == Subarray.AxisOf(Subarray.Dim(sizes[j], subs[j], starts[j]))
  {
    var dims, n := Subarray.Dims(sizes, subs, starts, order), |sizes|;
    forall j | 0 <= j < n
      ensures Subarray.Axes(dims)[AxisAt(n, j, order.Fortran?)] == Subarray.AxisOf(Subarray.Dim(sizes[j], subs[j], starts[j]))
    {
      assert dims[AxisAt(n, j, order.Fortran?)] == Subarray.Dim(sizes[j], subs[j], starts[j]);
    }
  }

  /** A cell belongs to the box if and only if every index lies between its start and its end. */
  lemma CellOfBox(sizes: seq<int>, subs: seq<int>, starts: seq<int>, order: Subarray.Order, idx: seq<int>)
    requires |sizes| == |subs| == |starts| && Subarray.AllLegal(Subarray.Dims(sizes, subs, starts, order))
    requires Inside(idx, sizes)
    ensures var axes, x := Subarray.Axes(Subarray.Dims(sizes, subs, starts, order)), Linear(order.Fortran?, idx, sizes);
            && 0 <= x < Volume(axes)
            && (Within(axes, x) <==> forall j :: 0 <= j < |sizes| ==> starts[j] <= idx[j] < starts[j] + subs[j])
  {
    BoxArranged(sizes, subs, starts, order);
    CellByIndex(Subarray.Axes(Subarray.Dims(sizes, subs, starts, order)), order.Fortran?, idx, sizes);
  }

  lemma EveryCellOfBox(sizes: seq<int>, subs: seq<int>, starts: seq<int>, order: Subarray.Order, x: int)
    returns (idx: seq<int>)
    requires |sizes| == |subs| == |starts| && Subarray.AllLegal(Subarray.Dims(sizes, subs, starts, order))
    requires 0 <= x < Volume(Subarray.Axes(Subarray.Dims(sizes, subs, starts, order)))
    ensures Inside(idx, sizes) && Linear(order.Fortran?, idx, sizes) == x
  {
    BoxArranged(sizes, subs, starts, order);
    idx := IndexOfCell(Subarray.Axes(Subarray.Dims(sizes, subs, starts, order)), order.Fortran?, sizes, x);
  }
}
