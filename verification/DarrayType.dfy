/** Building the datatype of a distributed array (ompi/datatype/ompi_datatype_create_darray.c), one dimension
    after the other, the fastest first. */
module DarrayType {
  import opened Arithmetic
  import opened Cells
  import opened Constructors
  import opened Darray
  import opened DarrayFit
  import opened DarrayMap
  import opened DarrayRows
  import opened DarrayWhole
  import opened Options
  import opened TypeMap

  // ---------------------------------------------------------------------------
  // One dimension
  // ---------------------------------------------------------------------------

  /** The condition in terms of the dimension instead of the piece. */
  lemma FitsOfPiece(d: Dim, p: Piece, extent: int, step: int)
    requires Legal(d) && d.distrib.Cyclic? && Regular(p)
    requires var b := if d.darg.None? then 1 else d.darg.value; p.blk == b && p.stride == d.psize * b
    ensures CyclicFits(p, extent, step) <==> StepFits(d, RowsIn(p), extent, step)
  {
    if p.blk == 1 {
      MinusOneOnce(d.psize, step);
    }
  }

  /** The bounds of what a dimension makes of the datatype `last`. */
  ghost predicate Extended(r: Datatype, last: Datatype, d: Dim, rows: nat, step: int)
    requires last.Valid()
    reads r, last
  {
    SameGrain(r, last) && Bounded(r) && r.Extent() == NextExtent(d, rows, last.Extent(), step, last.Rounding())
  }

  /** block(), which also serves a dimension that is not distributed. */
  method BlockDimension(d: Dim, nprocs: int, rank: int, darg: Option<int>, first: bool, step: int, last: Datatype)
    returns (r: Datatype, p: Piece)
    requires d.gsize >= 1 && 0 <= rank < nprocs && (darg.Some? ==> darg.value >= 1) && !d.distrib.Cyclic?
    requires last.Valid() && (first ==> last.Extent() == step)
    ensures fresh(r) && r.Valid() && Regular(p)
    ensures forall x :: Selects(p, x) <==> 0 <= x < d.gsize && x / BlockSize(d.gsize, nprocs, darg) == rank
    ensures RowsLaid(r.tmap, last.tmap, p, step, StepFits(d, RowsIn(p), last.Extent(), step))
    ensures RowsIn(p) >= 1 && last.kind.Data? && Bounded(last) ==> Extended(r, last, d, RowsIn(p), step)
  {
    p := BlockPart(d.gsize, nprocs, rank, darg);
    r := BlockType(p, first, step, last);
  }

  method CyclicDimension(d: Dim, rank: int, step: int, last: Datatype) returns (r: Datatype, p: Piece)
    requires Legal(d) && 0 <= rank < d.psize && d.distrib.Cyclic? && last.Valid()
    ensures fresh(r) && r.Valid() && Regular(p)
    ensures forall x :: Selects(p, x) <==> 0 <= x < d.gsize && OwnerOf(d, x) == rank
    ensures RowsLaid(r.tmap, last.tmap, p, step, StepFits(d, RowsIn(p), last.Extent(), step))
    ensures RowsIn(p) >= 1 && last.kind.Data? && step * d.gsize >= LONG_MIN ==> Extended(r, last, d, RowsIn(p), step)
  {
    p := CyclicPart(d.gsize, d.psize, rank, d.darg);
    FitsOfPiece(d, p, last.Extent(), step);
    r := CyclicType(p, step, step * d.gsize, last);
  }

  /** What one dimension makes of the datatype `last`. */
  ghost predicate Turned(r: Datatype, last: Datatype, d: Dim, p: Piece, step: int)
    requires last.Valid() && Regular(p)
    reads r, last
  {
    && r.Valid() && RowsLaid(r.tmap, last.tmap, p, step, StepFits(d, RowsIn(p), last.Extent(), step))
    && (RowsIn(p) >= 1 && last.kind.Data? && Bounded(last) && step * d.gsize >= LONG_MIN ==>
          Extended(r, last, d, RowsIn(p), step))
  }

  /** The switch over the distributions: the piece of the dimension and the datatype with it. */
  method OneDimension(d: Dim, coord: int, fortran: bool, first: bool, step: int, last: Datatype)
    returns (r: Datatype, p: Piece)
    requires Legal(d) && 0 <= coord < d.psize && last.Valid() && (first ==> last.Extent() == step)
    ensures fresh(r) && Regular(p) && Turned(r, last, d, p, step)
    ensures forall x :: Selects(p, x) <==> 0 <= x < d.gsize && OwnerOf(d, x) == coord
  {
    match d.distrib
    case Block =>
      r, p := BlockDimension(d, d.psize, coord, d.darg, first, step, last);
    case Cyclic =>
      r, p := CyclicDimension(d, coord, step, last);
    case NoDistribution =>
      var nprocs, tmpRank := d.psize, coord;
      if fortran {
        nprocs, tmpRank := 1, 0;
      }
      r, p := BlockDimension(d, nprocs, tmpRank, None, first, step, last);
      OneBlock(d);
  }

  lemma OneBlock(d: Dim)
    requires d.gsize >= 1
    ensures forall x :: 0 <= x < d.gsize ==> x / BlockSize(d.gsize, 1, None) == 0
  {
    forall x | 0 <= x < d.gsize
      ensures x / BlockSize(d.gsize, 1, None) == 0
    {
      DivisionIsUnique(x, d.gsize, 0, x);
    }
  }

  // ---------------------------------------------------------------------------
  // The loop over the dimensions
  // ---------------------------------------------------------------------------

  /** The extents fit a long. */
  ghost predicate InRange(oldType: Datatype, axes: seq<Axis>)
    requires Sized(axes)
    reads oldType
  {
    Bounded(oldType) && Volume(axes) * oldType.Extent() >= LONG_MIN
  }

  lemma {:induction false} VolumeGrows(axes: seq<Axis>, k: nat)
    requires Sized(axes) && k <= |axes|
    ensures Volume(axes[..k]) <= Volume(axes)
    decreases |axes| - k
  {
    if k == |axes| {
      assert axes[..k] == axes;
    } else {
      VolumeNext(axes, k);
      ProductBound(axes[k].size, Volume(axes[..k]));
      VolumeGrows(axes, k + 1);
    }
  }

  lemma StepInRange(axes: seq<Axis>, e: int, k: nat)
    requires Sized(axes) && k < |axes| && Volume(axes) * e >= LONG_MIN
    ensures Step(axes, e, k) * axes[k].size >= LONG_MIN
  {
    StepNext(axes, e, k);
    VolumeGrows(axes, k + 1);
    SmallerProduct(Volume(axes[..k + 1]), Volume(axes), e, LONG_MIN);
  }

  lemma SmallerProduct(v: int, w: int, e: int, bound: int)
    requires 0 <= v <= w && w * e >= bound && bound <= 0
    ensures v * e >= bound
  {
    if e >= 0 {
      ProductSign(e, v);
    } else {
      ProductSign(-e, w - v);
    }
  }

  /** The bounds after `k` dimensions, as long as there is something to bound. */
  ghost predicate BoundsOk(dims: seq<Dim>, axes: seq<Axis>, fortran: bool, oldType: Datatype, k: nat, last: Datatype)
    requires |axes| == |dims| && Sized(axes) && k <= |dims| && oldType.Valid()
    reads last, oldType
  {
    oldType.tmap != [] && !NoRows(axes, k) ==>
      && SameGrain(last, oldType) && Bounded(last)
      && last.Extent() == ExtentAfter(dims, axes, fortran, oldType.Extent(), oldType.Rounding(), k)
  }

  /** The state of the loop after `k` dimensions. */
  ghost predicate LoopOk(dims: seq<Dim>, axes: seq<Axis>, fortran: bool, oldType: Datatype, k: nat, last: Datatype,
                         displ: int, volume: int)
    requires |axes| == |dims| && Sized(axes) && k <= |dims| && oldType.Valid()
    reads last, oldType
  {
    var m, e, grain := oldType.tmap, oldType.Extent(), oldType.Rounding();
    && last.Valid() && volume == Volume(axes[..k]) && (k == 0 ==> last.Extent() == e)
    && (InRange(oldType, axes) ==>
          && Reached(m, e, axes, k, last.tmap, displ, volume, Works(m, dims, axes, fortran, e, grain, k))
          && BoundsOk(dims, axes, fortran, oldType, k, last))
  }

  /** One turn of the loop, as far as the map is concerned. */
  lemma MapAdvances(m: seq<Entry>, dims: seq<Dim>, axes: seq<Axis>, fortran: bool, e: int, grain: int, k: nat, p: Piece,
                    last: seq<Entry>, extent: int, displ: int, v: int, r: seq<Entry>, step: int, displ': int, v': int)
    requires |axes| == |dims| && Sized(axes) && grain > 0 && k < |dims| && Regular(p)
    requires step == v * e && displ' == displ + v * p.offset && v' == v * axes[k].size
    requires Reached(m, e, axes, k, last, displ, v, Works(m, dims, axes, fortran, e, grain, k))
    requires (forall x :: axes[k].has(x) <==> Selects(p, x)) && forall x :: Selects(p, x) ==> 0 <= x < axes[k].size
    requires m != [] && !NoRows(axes, k) ==> extent == ExtentAfter(dims, axes, fortran, e, grain, k)
    requires RowsLaid(r, last, p, step, StepFits(DimAt(dims, fortran, k), RowsIn(p), extent, step))
    ensures Reached(m, e, axes, k + 1, r, displ', v', Works(m, dims, axes, fortran, e, grain, k + 1))
  {
    var d, ok := DimAt(dims, fortran, k), Works(m, dims, axes, fortran, e, grain, k);
    TakenByPiece(p, axes[k]);
    ReachedNext(m, e, axes, k, p, last, displ, v, ok, r, StepFits(d, RowsIn(p), extent, step), step, displ', v');
    WorksAdvances(m, dims, axes, fortran, e, grain, k, extent, step);
  }

  lemma WorksAdvances(m: seq<Entry>, dims: seq<Dim>, axes: seq<Axis>, fortran: bool, e: int, grain: int, k: nat,
                      extent: int, step: int)
    requires |axes| == |dims| && Sized(axes) && grain > 0 && k < |dims| && step == Step(axes, e, k)
    requires m != [] && !NoRows(axes, k) ==> extent == ExtentAfter(dims, axes, fortran, e, grain, k)
    ensures Works(m, dims, axes, fortran, e, grain, k + 1) <==>
            m == [] || NoRows(axes, k + 1)
            || (Works(m, dims, axes, fortran, e, grain, k)
                && StepFits(DimAt(dims, fortran, k), Taken(axes[k]), extent, step))
  {
    WorksNext(m, dims, axes, fortran, e, grain, k);
    NoRowsNext(axes, k);
  }

  /** One turn of the loop, as far as the bounds are concerned. */
  lemma BoundsAdvance(dims: seq<Dim>, axes: seq<Axis>, fortran: bool, oldType: Datatype, k: nat, last: Datatype,
                      r: Datatype, rows: nat, step: int)
    requires |axes| == |dims| && Sized(axes) && k < |dims| && oldType.Valid() && last.Valid()
    requires axes[k].size == DimAt(dims, fortran, k).gsize && rows == Taken(axes[k])
    requires step == Step(axes, oldType.Extent(), k)
    requires InRange(oldType, axes) && BoundsOk(dims, axes, fortran, oldType, k, last)
    requires rows >= 1 && last.kind.Data? && Bounded(last) && step * axes[k].size >= LONG_MIN ==>
               Extended(r, last, DimAt(dims, fortran, k), rows, step)
    ensures BoundsOk(dims, axes, fortran, oldType, k + 1, r)
  {
    NoRowsNext(axes, k);
    StepInRange(axes, oldType.Extent(), k);
  }

  lemma LoopAdvances(dims: seq<Dim>, axes: seq<Axis>, fortran: bool, oldType: Datatype, k: nat, last: Datatype,
                     displ: int, v: int, p: Piece, r: Datatype, step: int, displ': int, v': int)
    requires |axes| == |dims| && Sized(axes) && k < |dims| && Regular(p) && oldType.Valid()
    requires LoopOk(dims, axes, fortran, oldType, k, last, displ, v)
    requires axes[k].size == DimAt(dims, fortran, k).gsize
    requires (forall x :: axes[k].has(x) <==> Selects(p, x)) && forall x :: Selects(p, x) ==> 0 <= x < axes[k].size
    requires step == v * oldType.Extent() && displ' == displ + v * p.offset && v' == v * axes[k].size
    requires Turned(r, last, DimAt(dims, fortran, k), p, step)
    ensures LoopOk(dims, axes, fortran, oldType, k + 1, r, displ', v')
  {
    VolumeNext(axes, k);
    if InRange(oldType, axes) {
      MapAdvances(oldType.tmap, dims, axes, fortran, oldType.Extent(), oldType.Rounding(), k, p, last.tmap,
                  last.Extent(), displ, v, r.tmap, step, displ', v');
      TakenByPiece(p, axes[k]);
      BoundsAdvance(dims, axes, fortran, oldType, k, last, r, RowsIn(p), step);
    }
  }

  /** The body of the loop. */
  method AddDimension(dims: seq<Dim>, coords: seq<int>, fortran: bool, i: int, first: bool, e: int, v: int,
                      ghost axes: seq<Axis>, ghost displ: int, last: Datatype, ghost oldType: Datatype, ghost k: nat)
    returns (r: Datatype, offset: int, v': int, ghost displ': int)
    requires AllLegal(dims) && InGrid(coords, Grid(dims)) && |coords| == |dims| && axes == Axes(dims, coords, fortran)
    requires k < |dims| && i == Nth(|dims|, k, fortran) && first == (k == 0)
    requires oldType.Valid() && e == oldType.Extent() && LoopOk(dims, axes, fortran, oldType, k, last, displ, v)
    ensures fresh(r) && displ' == displ + v * offset && LoopOk(dims, axes, fortran, oldType, k + 1, r, displ', v')
  {
    assert axes[k] == AxisOf(dims[i], coords[i]);
    FirstStep(dims, axes, fortran, oldType, k, last, displ, v);
    var p;
    var step := v * e;
    r, p := OneDimension(dims[i], coords[i], fortran, first, step, last);
    offset, v', displ' := p.offset, v * dims[i].gsize, displ + v * p.offset;
    LoopAdvances(dims, axes, fortran, oldType, k, last, displ, v, p, r, step, displ', v');
  }

  lemma FirstStep(dims: seq<Dim>, axes: seq<Axis>, fortran: bool, oldType: Datatype, k: nat, last: Datatype, displ: int,
                  v: int)
    requires |axes| == |dims| && Sized(axes) && k < |dims| && oldType.Valid()
    requires LoopOk(dims, axes, fortran, oldType, k, last, displ, v)
    ensures last.Valid() && (k == 0 ==> last.Extent() == v * oldType.Extent())
  {
  }

  /** Where the first cell lies, given its index in each of the first `k` dimensions. */
  function Displ(axes: seq<Axis>, offsets: seq<int>, k: nat): (d: int)
    requires Sized(axes) && k <= |axes| && k <= |offsets|
  {
    if k == 0 then 0 else Displ(axes, offsets, k - 1) + Volume(axes[..k - 1]) * offsets[k - 1]
  }

  /** ompi_datatype_create_darray: exactly the cells of the rank, in canonical order, if and only if the part
      of the rank is empty or every dimension fits.  The extent misses the size of the fastest dimension. */
  method CreateDarray(size: int, rank: int, dims: seq<Dim>, fortran: bool, oldType: Datatype) returns (r: Datatype)
    requires AllLegal(dims) && size == GridSize(Grid(dims)) && 0 <= rank < size && oldType.Valid()
    ensures fresh(r) && r.Valid()
    ensures dims == [] ==> r.tmap == []
    ensures var axes, m, e := Axes(dims, Coords(rank, Grid(dims)), fortran), oldType.tmap, oldType.Extent();
            dims != [] ==>
              && r.lb == 0 && r.Extent() * axes[0].size == Volume(axes) * e
              && (r.Extent() == Volume(axes) * e <==> e == 0 || axes[0].size == 1)
              && (InRange(oldType, axes) ==>
                    (r.tmap == Part(m, e, axes) <==> Works(m, dims, axes, fortran, e, oldType.Rounding(), |dims|)))
              && (InRange(oldType, axes) && e > 0 && e % oldType.Rounding() == 0 ==>
                    (r.tmap == Part(m, e, axes) <==> CyclicBehindWhole(m, dims, axes, fortran)))
  {
    if |dims| == 0 {
      r := new Datatype();
      return;
    }
    var ps := seq(|dims|, i requires 0 <= i < |dims| => dims[i].psize);
    assert ps == Grid(dims);
    var coords := RankToCoords(rank, size, ps);
    RankToCoordsToRank(rank, ps);
    ghost var axes := Axes(dims, coords[..], fortran);
    var last, offsets, volume := Dimensions(dims, coords[..], fortran, oldType, axes);
    r := Place(dims, fortran, offsets, volume, last, oldType, axes);
    ghost var e, grain := oldType.Extent(), oldType.Rounding();
    if e > 0 && e % grain == 0 {
      WorksIfWhole(oldType.tmap, dims, axes, fortran, e, grain);
    }
  }

  /** The end of the constructor: the nested datatype is put at its place. */
  method Place(dims: seq<Dim>, fortran: bool, offsets: seq<int>, volume: int, last: Datatype, oldType: Datatype,
               ghost axes: seq<Axis>)
    returns (r: Datatype)
    requires |offsets| == |dims| == |axes| > 0 && Sized(axes) && SameSizes(dims, axes, fortran) && oldType.Valid()
    requires LoopOk(dims, axes, fortran, oldType, |dims|, last, Displ(axes, offsets, |dims|), volume)
    ensures fresh(r) && r.Valid() && r.lb == 0
    ensures var m, e := oldType.tmap, oldType.Extent();
            && r.Extent() * axes[0].size == Volume(axes) * e
            && (r.Extent() == Volume(axes) * e <==> e == 0 || axes[0].size == 1)
            && (InRange(oldType, axes) ==>
                  (r.tmap == Part(m, e, axes) <==> Works(m, dims, axes, fortran, e, oldType.Rounding(), |dims|)))
  {
    var e := oldType.Extent();
    assert axes[..|dims|] == axes;
    var gsizes := seq(|dims|, i requires 0 <= i < |dims| => dims[i].gsize);
    var displ, extent := FirstCell(gsizes, offsets, fortran, e, axes);
    ExtentIsWhole(extent, axes[0].size, Volume(axes), e);
    r := new Datatype();
    r.Append(last, 1, displ, extent);
    CopiesOnce(last.tmap, displ, if extent == -1 then last.Extent() else extent);
    r.Resize(0, extent);
  }

  lemma ExtentIsWhole(x: int, s: int, v: int, e: int)
    requires x * s == v * e && v >= 1 && s >= 1
    ensures x == v * e <==> e == 0 || s == 1
  {
    assert x * (s - 1) == x * s - x;
    if e == 0 {
      assert x == 0;
    }
  }

  /** The last loop: where the first cell lies, and the extent. */
  method FirstCell(gsizes: seq<int>, offsets: seq<int>, fortran: bool, e: int, ghost axes: seq<Axis>)
    returns (displ: int, extent: int)
    requires |offsets| == |gsizes| == |axes| > 0 && Sized(axes)
    requires forall k :: 0 <= k < |axes| ==> axes[k].size == gsizes[Nth(|gsizes|, k, fortran)]
    ensures displ == Displ(axes, offsets, |gsizes|) * e && extent * axes[0].size == Volume(axes) * e
  {
    var tmpSize := 1;
    displ, extent := offsets[0], e;
    OneAxis(axes);
    assert displ == Displ(axes, offsets, 1);
    for k := 1 to |gsizes|
      invariant tmpSize == Volume(axes[..k - 1]) && displ == Displ(axes, offsets, k)
      invariant extent * axes[0].size == Volume(axes[..k]) * e
    {
      VolumeNext(axes, k - 1);
      VolumeNext(axes, k);
      Reorder(extent, gsizes[Nth(|gsizes|, k, fortran)], axes[0].size);
      Reorder(Volume(axes[..k]), axes[k].size, e);
      tmpSize := tmpSize * gsizes[Nth(|gsizes|, k - 1, fortran)];
      displ := displ + tmpSize * offsets[k];
      extent := extent * gsizes[Nth(|gsizes|, k, fortran)];
    }
    displ := displ * e;
    assert axes[..|gsizes|] == axes;
  }

  lemma OneAxis(axes: seq<Axis>)
    requires Sized(axes) && axes != []
    ensures Volume(axes[..0]) == 1 && Volume(axes[..1]) == axes[0].size
  {
    VolumeNext(axes, 0);
  }

  /** The loop over the dimensions. */
  method Dimensions(dims: seq<Dim>, coords: seq<int>, fortran: bool, oldType: Datatype, ghost axes: seq<Axis>)
    returns (last: Datatype, offsets: seq<int>, volume: int)
    requires AllLegal(dims) && InGrid(coords, Grid(dims)) && |coords| == |dims| && axes == Axes(dims, coords, fortran)
    requires oldType.Valid()
    ensures |offsets| == |dims|
    ensures LoopOk(dims, axes, fortran, oldType, |dims|, last, Displ(axes, offsets, |dims|), volume)
  {
    var e := oldType.Extent();
    var i, step, endLoop := |dims| - 1, -1, -1;
    if fortran {
      i, step, endLoop := 0, 1, |dims|;
    }
    var startLoop := i;
    last, offsets, volume := oldType, [], 1;
    ghost var displ, k := 0, 0;
    LoopBegins(dims, axes, fortran, oldType);
    while i != endLoop
      invariant k == |offsets| <= |dims| && i == Nth(|dims|, k, fortran)
      invariant displ == Displ(axes, offsets, k)
      invariant LoopOk(dims, axes, fortran, oldType, k, last, displ, volume)
      decreases |dims| - k
    {
      var offset;
      ghost var v, before := volume, displ;
      last, offset, volume, displ := AddDimension(dims, coords, fortran, i, i == startLoop, e, volume, axes, displ,
                                                  last, oldType, k);
      DisplStep(axes, offsets, offset, before, v);
      offsets, k := offsets + [offset], k + 1;
      i := i + step;
    }
  }

  lemma {:induction false} DisplPrefix(axes: seq<Axis>, a: seq<int>, b: seq<int>, k: nat)
    requires Sized(axes) && k <= |axes| && k <= |a| && k <= |b| && a[..k] == b[..k]
    ensures Displ(axes, a, k) == Displ(axes, b, k)
  {
    if k > 0 {
      assert a[..k - 1] == a[..k][..k - 1] && b[..k - 1] == b[..k][..k - 1];
      assert a[k - 1] == a[..k][k - 1] && b[k - 1] == b[..k][k - 1];
      DisplPrefix(axes, a, b, k - 1);
    }
  }

  lemma DisplStep(axes: seq<Axis>, offsets: seq<int>, offset: int, displ: int, v: int)
    requires Sized(axes) && |offsets| < |axes|
    requires displ == Displ(axes, offsets, |offsets|) && v == Volume(axes[..|offsets|])
    ensures Displ(axes, offsets + [offset], |offsets| + 1) == displ + v * offset
  {
    assert (offsets + [offset])[..|offsets|] == offsets[..|offsets|];
    DisplPrefix(axes, offsets, offsets + [offset], |offsets|);
  }

  lemma LoopBegins(dims: seq<Dim>, axes: seq<Axis>, fortran: bool, oldType: Datatype)
    requires |axes| == |dims| && Sized(axes) && oldType.Valid()
    ensures LoopOk(dims, axes, fortran, oldType, 0, oldType, 0, 1)
  {
    ReachedFirst(oldType.tmap, oldType.Extent(), axes);
    assert axes[..0] == [];
  }
}
