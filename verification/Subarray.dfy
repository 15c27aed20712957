/** Subarray datatypes (ompi/datatype/ompi_datatype_create_subarray.c) select exactly the cells of a
    box, in the order in which the cells of the whole array lie in memory (section 4.1.3 of MPI-3.1). */
module Subarray {
  import opened Arithmetic
  import Cells
  import opened TypeMap
  import opened Constructors

  /** One dimension; dimensions are listed from the fastest varying to the slowest. */
  datatype Dim = Dim(size: int, sub: int, start: int)

  datatype Order = C | Fortran

  /** What the MPI interface demands of the three arrays. */
  predicate Legal(d: Dim) { 1 <= d.sub <= d.size && 0 <= d.start <= d.size - d.sub }

  predicate AllLegal(dims: seq<Dim>) { forall i :: 0 <= i < |dims| ==> Legal(dims[i]) }

  function Volume(dims: seq<Dim>): (v: int)
    requires AllLegal(dims)
    ensures v >= 1
  {
    if dims == [] then 1 else Volume(dims[..|dims| - 1]) * dims[|dims| - 1].size
  }

  // ---------------------------------------------------------------------------
  // The meaning
  // ---------------------------------------------------------------------------

  /** A dimension of the box; selected are `sub` indices from `start` on. */
  function AxisOf(d: Dim): (a: Cells.Axis) { Cells.Axis(d.size, x => d.start <= x < d.start + d.sub) }

  /** The box as a part of the array. */
  function Axes(dims: seq<Dim>): (axes: seq<Cells.Axis>)
    requires AllLegal(dims)
    ensures |axes| == |dims| && Cells.Sized(axes)
  {
    seq(|dims|, i requires 0 <= i < |dims| => AxisOf(dims[i]))
  }

  /** The box row by row, the rows next to each other. */
  function Box(m: seq<Entry>, e: int, dims: seq<Dim>): (r: seq<Entry>)
    requires AllLegal(dims)
  {
    if dims == [] then m
    else
      var init, d := dims[..|dims| - 1], dims[|dims| - 1];
      var row := Volume(init) * e;
      Copies(Box(m, e, init), d.sub, d.start * row, row)
  }

  lemma {:induction false} SameVolume(dims: seq<Dim>)
    requires AllLegal(dims)
    ensures Cells.Volume(Axes(dims)) == Volume(dims)
  {
    if dims != [] {
      SameVolume(dims[..|dims| - 1]);
      assert Axes(dims)[..|dims| - 1] == Axes(dims[..|dims| - 1]);
    }
  }

  /** Row by row or cell by cell, the box is the same. */
  lemma {:induction false} BoxIsScan(m: seq<Entry>, e: int, dims: seq<Dim>)
    requires AllLegal(dims)
    ensures Box(m, e, dims) == Cells.Part(m, e, Axes(dims))
  {
    if dims == [] {
      Cells.PartOfNothing(m, e);
    } else {
      var init, d := dims[..|dims| - 1], dims[|dims| - 1];
      BoxIsScan(m, e, init);
      SameVolume(init);
      assert Axes(dims)[..|dims| - 1] == Axes(init);
      Cells.PartIsRows(m, e, Axes(dims));
      Cells.RowsRun(Box(m, e, init), AxisOf(d).has, d.start, d.sub, d.size, Volume(init) * e);
    }
  }

  // ---------------------------------------------------------------------------
  // The construction
  // ---------------------------------------------------------------------------

  /** The box moved to the origin, as the constructor nests it. */
  function Nested(m: seq<Entry>, e: int, dims: seq<Dim>): (r: seq<Entry>)
    requires AllLegal(dims)
  {
    if dims == [] then m
    else
      var init := dims[..|dims| - 1];
      Copies(Nested(m, e, init), dims[|dims| - 1].sub, 0, Volume(init) * e)
  }

  /** The linear cell at which the box starts. */
  function Displ(dims: seq<Dim>): (d: int)
    requires AllLegal(dims)
  {
    if dims == [] then 0 else Displ(dims[..|dims| - 1]) + dims[|dims| - 1].start * Volume(dims[..|dims| - 1])
  }

  lemma {:induction false} BoxIsShifted(m: seq<Entry>, e: int, dims: seq<Dim>)
    requires AllLegal(dims)
    ensures Box(m, e, dims) == Shift(Nested(m, e, dims), Displ(dims) * e)
  {
    if dims == [] {
      ShiftTwice(m, 0, 0);
    } else {
      var init, d := dims[..|dims| - 1], dims[|dims| - 1];
      var row := Volume(init) * e;
      BoxIsShifted(m, e, init);
      CopiesShift(Nested(m, e, init), d.sub, d.start * row, row, Displ(init) * e);
      CopiesShift(Nested(m, e, init), d.sub, 0, row, Displ(dims) * e);
      Spread(Displ(init), d.start, Volume(init), e);
    }
  }

  lemma {:induction false} NestedIsEmpty(m: seq<Entry>, e: int, dims: seq<Dim>)
    requires AllLegal(dims)
    ensures Nested(m, e, dims) == [] <==> m == []
  {
    if dims != [] {
      var init, d := dims[..|dims| - 1], dims[|dims| - 1];
      NestedIsEmpty(m, e, init);
      CopiesLength(Nested(m, e, init), d.sub, 0, Volume(init) * e);
    }
  }

  /** The one family on which the constructor fails: the old type has extent -1, which the alignment `align`
      (1 if the user has set the upper bound) rounds up on the way, and from the third dimension on there
      is a first one of more than one cell of which more than one is selected. */
  predicate Works(m: seq<Entry>, e: int, align: int, dims: seq<Dim>)
    requires AllLegal(dims)
  {
    e != -1 || align == 1 || m == [] || forall k :: 2 <= k < |dims| ==> !Trips(dims, k)
  }

  predicate Trips(dims: seq<Dim>, k: int)
    requires AllLegal(dims) && 0 <= k < |dims|
  {
    Volume(dims[..k]) == 1 && dims[k].sub >= 2
  }

  lemma NestedStep(m: seq<Entry>, e: int, dims: seq<Dim>, k: nat)
    requires AllLegal(dims) && k < |dims|
    ensures Nested(m, e, dims[..k + 1]) == Copies(Nested(m, e, dims[..k]), dims[k].sub, 0, Volume(dims[..k]) * e)
  {
    assert dims[..k + 1][..k] == dims[..k];
  }

  lemma VolumeStep(dims: seq<Dim>, k: nat)
    requires AllLegal(dims) && k < |dims|
    ensures Volume(dims[..k + 1]) == Volume(dims[..k]) * dims[k].size
    ensures Displ(dims[..k + 1]) == Displ(dims[..k]) + Volume(dims[..k]) * dims[k].start
  {
    assert dims[..k + 1][..k] == dims[..k];
  }

  lemma WorksStep(m: seq<Entry>, e: int, align: int, dims: seq<Dim>, k: nat)
    requires AllLegal(dims) && 2 <= k < |dims|
    ensures Works(m, e, align, dims[..k + 1]) <==>
            Works(m, e, align, dims[..k]) && (e != -1 || align == 1 || m == [] || !Trips(dims, k))
  {
    var now, before := dims[..k + 1], dims[..k];
    assert forall j :: 0 <= j <= k ==> now[..j] == dims[..j];
    assert forall j :: 0 <= j < k ==> before[..j] == dims[..j];
    assert forall j :: 0 <= j <= k ==> Trips(now, j) == Trips(dims, j);
    assert forall j :: 0 <= j < k ==> Trips(before, j) == Trips(dims, j);
  }

  lemma StrideIsMinusOne(v: int, e: int)
    requires v >= 1
    ensures v * e == -1 <==> v == 1 && e == -1
  {
    if e >= 0 {
      assert v * e >= 0;
    } else if v >= 2 {
      assert v * e <= 2 * e;
    }
  }

  /** What the loop has reached after `k` dimensions. */
  ghost predicate Done(m: seq<Entry>, e: int, align: int, dims: seq<Dim>, k: nat, last: seq<Entry>, size: int,
                       displ: int)
    requires AllLegal(dims) && k <= |dims|
  {
    && size == Volume(dims[..k]) && displ == Displ(dims[..k])
    && (last == Nested(m, e, dims[..k]) <==> Works(m, e, align, dims[..k]))
    && (!Works(m, e, align, dims[..k]) ==> size >= 2)
  }

  lemma Grows(a: int, b: int)
    requires a >= 1 && b >= 1
    ensures a * b >= a && a * b >= b
  {
    assert a * (b - 1) == a * b - a && (a - 1) * b == a * b - b;
  }

  lemma RightSoFar(nest: seq<Entry>, e: int, align: int, n: int, le: int, size: int, r: seq<Entry>)
    requires size >= 1 && n >= 1 && align >= 1 && (nest != [] && e == -1 && size == 1 ==> le == Rounded(-1, align))
    requires r == Copies(nest, n, 0, size * e) <==> StrideHonoured(nest, le, n, 1, size * e)
    ensures r == Copies(nest, n, 0, size * e) <==> e != -1 || align == 1 || nest == [] || size != 1 || n == 1
  {
    StrideIsMinusOne(size, e);
  }

  lemma StaysWrong(last: seq<Entry>, nest: seq<Entry>, e: int, n: int, le: int, size: int, r: seq<Entry>)
    requires size >= 2 && n >= 1 && last != nest
    requires r == Copies(last, n, 0, size * e) <==> StrideHonoured(last, le, n, 1, size * e)
    ensures r != Copies(nest, n, 0, size * e)
  {
    StrideIsMinusOne(size, e);
    if r == Copies(nest, n, 0, size * e) {
      CopiesInjective(last, nest, n, 0, size * e);
    }
  }

  /** One turn of the loop: `r` is what create_hvector returned for dimension `k`. */
  lemma DimensionAdded(m: seq<Entry>, e: int, align: int, dims: seq<Dim>, k: nat, last: seq<Entry>, le: int,
                       size: int, displ: int, r: seq<Entry>)
    requires AllLegal(dims) && 2 <= k < |dims| && align >= 1 && Done(m, e, align, dims, k, last, size, displ)
    requires m != [] && e == -1 && size == 1 ==> le == Rounded(-1, align)
    requires r == Copies(last, dims[k].sub, 0, size * e) <==> StrideHonoured(last, le, dims[k].sub, 1, size * e)
    ensures Done(m, e, align, dims, k + 1, r, size * dims[k].size, displ + size * dims[k].start)
  {
    var n := dims[k].sub;
    var nest := Nested(m, e, dims[..k]);
    VolumeStep(dims, k);
    WorksStep(m, e, align, dims, k);
    NestedIsEmpty(m, e, dims[..k]);
    Grows(size, dims[k].size);
    NestedStep(m, e, dims, k);
    if last == nest {
      RightSoFar(nest, e, align, n, le, size, r);
    } else {
      StaysWrong(last, nest, e, n, le, size, r);
    }
  }

  function Index(order: Order, n: nat, k: int): (i: int) { if order.C? then n - 1 - k else k }

  /** The dimensions in the order in which the constructor takes them. */
  function Dims(sizes: seq<int>, subs: seq<int>, starts: seq<int>, order: Order): (dims: seq<Dim>)
    requires |sizes| == |subs| == |starts|
    ensures |dims| == |sizes|
  {
    seq(|sizes|, k requires 0 <= k < |sizes| =>
      var i := Index(order, |sizes|, k); Dim(sizes[i], subs[i], starts[i]))
  }

  /** The first two dimensions come from one strided vector. */
  method FirstTwo(ghost dims: seq<Dim>, sub0: int, sub1: int, size0: int, oldType: Datatype) returns (r: Datatype)
    requires oldType.Valid() && Bounded(oldType) && AllLegal(dims) && |dims| >= 2
    requires sub0 == dims[0].sub && sub1 == dims[1].sub && size0 == dims[0].size
    ensures fresh(r) && r.Valid()
    ensures Done(oldType.tmap, oldType.Extent(), oldType.Rounding(), dims, 2, r.tmap,
                 dims[0].size * dims[1].size, dims[0].start + dims[1].start * dims[0].size)
    ensures dims[0].size * dims[1].size == 1 && oldType.tmap != [] ==> Bounded(r) && Started(r, oldType.Extent(), oldType.Rounding())
  {
    ghost var m, e := oldType.tmap, oldType.Extent();
    r := CreateVector(sub1, sub0, size0, oldType);
    TwoDimensions(m, e, dims);
    StridedIsNested(m, e, sub1, sub0, e * size0);
    StrideIsMinusOne(size0, e);
    if dims[0].size * dims[1].size == 1 {
      UnitFactors(dims[0].size, dims[1].size);
      RoundedTwice(e, oldType.Rounding());
    }
  }

  lemma TwoDimensions(m: seq<Entry>, e: int, dims: seq<Dim>)
    requires AllLegal(dims) && |dims| >= 2
    ensures Volume(dims[..2]) == dims[0].size * dims[1].size
    ensures Displ(dims[..2]) == dims[0].start + dims[1].start * dims[0].size
    ensures Nested(m, e, dims[..2]) == Copies(Copies(m, dims[0].sub, 0, e), dims[1].sub, 0, e * dims[0].size)
  {
    assert dims[..1] == [dims[0]];
    OneDimension(m, e, dims[..1]);
    VolumeStep(dims, 1);
    NestedStep(m, e, dims, 1);
    assert Volume(dims[..1]) * e == e * dims[0].size;
  }

  lemma UnitFactors(a: int, b: int)
    requires a >= 1 && b >= 1 && a * b == 1
    ensures a == 1 && b == 1
  {
    assert (a - 1) * b == a * b - b;
    assert (b - 1) * a == a * b - a;
  }

  /** ompi_datatype_create_subarray: exactly the cells of the box, in canonical order. */
  method CreateSubarray(sizes: seq<int>, subs: seq<int>, starts: seq<int>, order: Order, oldType: Datatype)
    returns (r: Datatype)
    requires |sizes| == |subs| == |starts| && AllLegal(Dims(sizes, subs, starts, order))
    requires oldType.Valid() && Bounded(oldType)
    ensures fresh(r) && r.Valid()
    ensures |sizes| == 0 ==> r.tmap == [] && r.lb == 0 && r.ub == 0
    ensures var dims := Dims(sizes, subs, starts, order);
            |sizes| > 0 ==>
              && r.lb == 0 && r.Extent() == Volume(dims) * oldType.Extent()
              && (r.tmap == Cells.Part(oldType.tmap, oldType.Extent(), Axes(dims))
                  <==> Works(oldType.tmap, oldType.Extent(), oldType.Rounding(), dims))
  {
    var ndims := |sizes|;
    var extent := oldType.Extent();
    var last: Datatype, size, displ;
    ghost var dims := Dims(sizes, subs, starts, order);
    if ndims == 0 {
      r := new Datatype();
      r.Resize(0, 0);
      return;
    } else if ndims == 1 {
      assert dims[0] == Dim(sizes[0], subs[0], starts[0]);
      last := CreateContiguous(subs[0], oldType);
      size, displ := sizes[0], starts[0];
      OneDimension(oldType.tmap, extent, dims);
    } else {
      last, size, displ := Dimensions(sizes, subs, starts, order, oldType);
    }
    r := Place(last, size, displ, extent, oldType.tmap, dims);
  }

  /** The end of the constructor: the nested datatype is put at its place. */
  method Place(last: Datatype, size: int, displ: int, extent: int, ghost m: seq<Entry>, ghost dims: seq<Dim>)
    returns (r: Datatype)
    requires last.Valid() && AllLegal(dims) && size == Volume(dims) && displ == Displ(dims)
    ensures fresh(r) && r.Valid() && r.lb == 0 && r.Extent() == size * extent
    ensures r.tmap == Cells.Part(m, extent, Axes(dims)) <==> last.tmap == Nested(m, extent, dims)
  {
    r := new Datatype();
    r.Append(last, 1, displ * extent, size * extent);
    r.Resize(0, size * extent);
    Placed(m, extent, dims, last.tmap, if size * extent == -1 then last.Extent() else size * extent);
  }

  lemma OneDimension(m: seq<Entry>, e: int, dims: seq<Dim>)
    requires AllLegal(dims) && |dims| == 1
    ensures Nested(m, e, dims) == Copies(m, dims[0].sub, 0, e) && Volume(dims) == dims[0].size
            && Displ(dims) == dims[0].start
  {
    assert dims[..0] == [];
  }

  /** Moving the nested type map to its place gives the box exactly when it was the right one. */
  lemma Placed(m: seq<Entry>, e: int, dims: seq<Dim>, last: seq<Entry>, f: int)
    requires AllLegal(dims)
    ensures Copies(last, 1, Displ(dims) * e, f) == Cells.Part(m, e, Axes(dims)) <==> last == Nested(m, e, dims)
  {
    var n := Nested(m, e, dims);
    BoxIsScan(m, e, dims);
    BoxIsShifted(m, e, dims);
    CopiesOnce(last, Displ(dims) * e, f);
    CopiesOnce(n, Displ(dims) * e, f);
    if Shift(last, Displ(dims) * e) == Shift(n, Displ(dims) * e) {
      CopiesInjective(last, n, 1, Displ(dims) * e, f);
    }
  }

  lemma RoundedTwice(e: int, a: int)
    requires a > 0
    ensures Rounded(Rounded(e, a), a) == Rounded(e, a) >= e
  {
    var r := Rounded(e, a);
    if e >= 0 {
      var q := if e % a != 0 then e / a + 1 else e / a;
      assert r == q * a + 0;
      DivisionIsUnique(r, a, q, 0);
    } else {
      var q := if Remainder(e, a) != 0 then 1 - (-e) / a else -((-e) / a);
      assert -e == ((-e) / a) * a + (-e) % a;
      assert r == q * a + 0 && -r == (-q) * a + 0;
      DivisionIsUnique(r, a, q, 0);
      DivisionIsUnique(-r, a, -q, 0);
    }
  }

  /** The body of the loop over the dimensions. */
  method AddDimension(sub: int, size: int, extent: int, last: Datatype,
                      ghost m: seq<Entry>, ghost align: int, ghost dims: seq<Dim>, ghost k: nat, ghost displ: int)
                        returns (r: Datatype)
    requires AllLegal(dims) && 2 <= k < |dims| && align >= 1 && sub == dims[k].sub && size >= 1
    requires last.Valid() && Done(m, extent, align, dims, k, last.tmap, size, displ)
    requires size == 1 && m != [] ==> Bounded(last) && Started(last, extent, align)
    ensures fresh(r) && r.Valid()
    ensures Done(m, extent, align, dims, k + 1, r.tmap, size * dims[k].size, displ + size * dims[k].start)
    ensures size * dims[k].size == 1 && m != [] ==> Bounded(r) && Started(r, extent, align)
  {
    r := CreateHvector(sub, 1, size * extent, last);
    SingleBlocks(last.tmap, last.Extent(), sub, size * extent);
    DimensionAdded(m, extent, align, dims, k, last.tmap, last.Extent(), size, displ, r.tmap);
    if size * dims[k].size == 1 {
      UnitFactors(size, dims[k].size);
      RoundedTwice(extent, align);
    }
  }

  /** The dimensions in their order, the first two at once. */
  method Dimensions(sizes: seq<int>, subs: seq<int>, starts: seq<int>, order: Order, oldType: Datatype)
    returns (last: Datatype, size: int, displ: int)
    requires |sizes| == |subs| == |starts| >= 2 && AllLegal(Dims(sizes, subs, starts, order))
    requires oldType.Valid() && Bounded(oldType)
    ensures var dims := Dims(sizes, subs, starts, order);
            && fresh(last) && last.Valid() && size == Volume(dims) && displ == Displ(dims)
            && (last.tmap == Nested(oldType.tmap, oldType.Extent(), dims)
                <==> Works(oldType.tmap, oldType.Extent(), oldType.Rounding(), dims))
  {
    var ndims, extent := |sizes|, oldType.Extent();
    var i, step, endLoop := 0, 1, ndims;
    if order.C? {
      i, step, endLoop := ndims - 1, -1, -1;
    }
    ghost var dims := Dims(sizes, subs, starts, order);
    assert dims[0] == Dim(sizes[i], subs[i], starts[i]);
    assert dims[1] == Dim(sizes[i + step], subs[i + step], starts[i + step]);
    last := FirstTwo(dims, subs[i], subs[i + step], sizes[i], oldType);
    size := sizes[i] * sizes[i + step];
    displ := starts[i] + starts[i + step] * sizes[i];
    last, size, displ := OtherDimensions(sizes, subs, starts, order, extent, i + 2 * step, step, endLoop, last, size, displ,
                                         oldType.tmap, oldType.Rounding());
    assert dims[..ndims] == dims;
  }

  /** The loop over the third and later dimensions. */
  method OtherDimensions(sizes: seq<int>, subs: seq<int>, starts: seq<int>, order: Order, extent: int, first: int,
                         step: int, endLoop: int, two: Datatype, size2: int, displ2: int,
                         ghost m: seq<Entry>, ghost align: int)
    returns (last: Datatype, size: int, displ: int)
    requires |sizes| == |subs| == |starts| >= 2 && AllLegal(Dims(sizes, subs, starts, order)) && align >= 1
    requires first == Index(order, |sizes|, 2) && endLoop == Index(order, |sizes|, |sizes|)
    requires step == if order.C? then -1 else 1
    requires two.Valid() && size2 >= 1 && Done(m, extent, align, Dims(sizes, subs, starts, order), 2, two.tmap, size2, displ2)
    requires size2 == 1 && m != [] ==> Bounded(two) && Started(two, extent, align)
    ensures last.Valid() && (last == two || fresh(last))
    ensures Done(m, extent, align, Dims(sizes, subs, starts, order), |sizes|, last.tmap, size, displ)
  {
    ghost var dims := Dims(sizes, subs, starts, order);
    last, size, displ := two, size2, displ2;
    var i := first;
    ghost var k := 2;
    while i != endLoop
      invariant 2 <= k <= |sizes| && i == Index(order, |sizes|, k)
      invariant last.Valid() && (last == two || fresh(last))
      invariant size >= 1 && Done(m, extent, align, dims, k, last.tmap, size, displ)
      invariant size == 1 && m != [] ==> Bounded(last) && Started(last, extent, align)
      decreases |sizes| - k
    {
      assert dims[k] == Dim(sizes[i], subs[i], starts[i]);
      last := AddDimension(subs[i], size, extent, last, m, align, dims, k, displ);
      displ := displ + size * starts[i];
      size := size * sizes[i];
      i, k := i + step, k + 1;
    }
  }

  /** As long as every dimension has size one, the datatype is one rounded-up copy of the old one. */
  ghost predicate Started(t: Datatype, e: int, align: int)
    requires align > 0
    reads t
  {
    t.kind.Data? && t.Rounding() == align && t.Extent() == Rounded(e, align)
  }

  /** A column of two in three dimensions. */
  function Column(): (dims: seq<Dim>) { [Dim(1, 1, 0), Dim(1, 1, 0), Dim(2, 2, 0)] }

  /** With extent -1 the alignment makes the difference. */
  lemma ColumnFails()
    ensures AllLegal(Column()) && Dims([1, 1, 2], [1, 1, 2], [0, 0, 0], Fortran) == Column()
    ensures !Works([Entry(0, 0)], -1, 4, Column()) && Works([Entry(0, 0)], -1, 1, Column())
  {
    var dims := Column();
    assert dims[..0] == [] && dims[..1][..0] == [];
    VolumeStep(dims, 0);
    VolumeStep(dims, 1);
    assert Trips(dims, 2);
  }

  /** Elements of extent -1 and alignment 4: the second one should lie one byte before the first. */
  method NegativeExtent() returns (r: Datatype)
    ensures AllLegal(Column())
    ensures r.tmap != Cells.Part([Entry(0, 0)], -1, Axes(Column()))
  {
    var oldType := new Datatype.Basic(0, 1, 4);
    oldType.Resize(0, -1);
    ColumnFails();
    r := CreateSubarray([1, 1, 2], [1, 1, 2], [0, 0, 0], Fortran, oldType);
  }
}
