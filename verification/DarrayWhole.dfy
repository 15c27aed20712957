/** What the condition of `DarrayFit` comes to for the datatypes that programs use: those whose extent is
    positive and a multiple of the alignment. */
module DarrayWhole {
  import opened Arithmetic
  import opened Cells
  import opened Constructors
  import opened Darray
  import opened DarrayFit
  import opened DarrayMap
  import opened TypeMap

  /** The dimensions directly before the `k`-th fastest one, back to a cyclic one, are not split: the rank has
      all of their indices. */
  predicate WholeBefore(dims: seq<Dim>, axes: seq<Axis>, fortran: bool, k: nat)
    requires |axes| == |dims| && Sized(axes) && k <= |dims|
  {
    k == 0 || DimAt(dims, fortran, k - 1).distrib.Cyclic?
    || (Taken(axes[k - 1]) == axes[k - 1].size && WholeBefore(dims, axes, fortran, k - 1))
  }

  predicate SameSizes(dims: seq<Dim>, axes: seq<Axis>, fortran: bool)
    requires |axes| == |dims|
  {
    forall k :: 0 <= k < |axes| ==> axes[k].size == DimAt(dims, fortran, k).gsize
  }

  lemma MultipleIsRounded(x: int, grain: int)
    requires grain > 0 && x >= 0 && x % grain == 0
    ensures Rounded(x, grain) == x
  {
  }

  lemma MultipleOfMultiple(x: int, n: int, grain: int)
    requires grain > 0 && x % grain == 0
    ensures (x * n) % grain == 0
  {
    DivMod(x, grain);
    Reorder(x / grain, grain, n);
    DivisionIsUnique(x * n, grain, x / grain * n, 0);
  }

  lemma SumOfMultiples(x: int, y: int, grain: int)
    requires grain > 0 && x % grain == 0 && y % grain == 0
    ensures (x + y) % grain == 0
  {
    DivMod(x, grain);
    DivMod(y, grain);
    assert (x / grain + y / grain) * grain == x / grain * grain + y / grain * grain;
    DivisionIsUnique(x + y, grain, x / grain + y / grain, 0);
  }

  /** One dimension that is not cyclic. */
  lemma RunExtent(x: int, step: int, grain: int, rows: nat, size: nat)
    requires grain > 0 && 0 < x <= step && 1 <= rows <= size && x % grain == 0 && step % grain == 0
    ensures var next := RepeatedExtent(x, rows, step, grain);
            next % grain == 0 && 0 < next <= step * size && (next == step * size <==> x == step && rows == size)
  {
    var rest := step * (rows - 1);
    ProductSign(rows - 1, step);
    MultipleOfMultiple(step, rows - 1, grain);
    SumOfMultiples(x, rest, grain);
    MultipleIsRounded(x + rest, grain);
    assert step * size == rest + step + step * (size - rows);
    ProductSign(size - rows, step);
    ProductBound(size - rows, step);
  }

  lemma StepNext(axes: seq<Axis>, e: int, k: nat)
    requires Sized(axes) && k < |axes|
    ensures Step(axes, e, k + 1) == Step(axes, e, k) * axes[k].size
  {
    VolumeNext(axes, k);
    Reorder(Volume(axes[..k]), axes[k].size, e);
  }

  /** The extent after `k` dimensions is that of the rows so far exactly when none of them is split. */
  lemma {:induction false} ExtentOfRows(dims: seq<Dim>, axes: seq<Axis>, fortran: bool, e: int, grain: int, k: nat)
    requires |axes| == |dims| && Sized(axes) && SameSizes(dims, axes, fortran) && grain > 0 && k <= |dims|
    requires e > 0 && e % grain == 0 && forall j :: 0 <= j < k ==> Taken(axes[j]) >= 1
    ensures var x, step := ExtentAfter(dims, axes, fortran, e, grain, k), Step(axes, e, k);
            && x % grain == 0 && step % grain == 0 && 0 < x <= step
            && (x == step <==> WholeBefore(dims, axes, fortran, k))
  {
    if k == 0 {
      assert Step(axes, e, 0) == 1 * e;
    } else {
      var a, step := axes[k - 1], Step(axes, e, k - 1);
      ExtentOfRows(dims, axes, fortran, e, grain, k - 1);
      StepNext(axes, e, k - 1);
      MultipleOfMultiple(step, a.size, grain);
      CountBounds(a.has, a.size);
      RunExtent(ExtentAfter(dims, axes, fortran, e, grain, k - 1), step, grain, Taken(a), a.size);
    }
  }

  /** The part of the rank is empty, or every block-cyclic dimension of which the rank has two or more indices
      comes behind whole dimensions only, back to a cyclic one. */
  predicate CyclicBehindWhole(m: seq<Entry>, dims: seq<Dim>, axes: seq<Axis>, fortran: bool)
    requires |axes| == |dims| && Sized(axes)
  {
    m == [] || NoRows(axes, |dims|)
    || forall k :: 0 <= k < |dims| && BlockCyclic(DimAt(dims, fortran, k)) && Taken(axes[k]) >= 2 ==>
         WholeBefore(dims, axes, fortran, k)
  }

  /** For an extent that is a positive multiple of the alignment that is the whole condition. */
  lemma WorksIfWhole(m: seq<Entry>, dims: seq<Dim>, axes: seq<Axis>, fortran: bool, e: int, grain: int)
    requires |axes| == |dims| && Sized(axes) && SameSizes(dims, axes, fortran) && grain > 0 && e > 0 && e % grain == 0
    ensures Works(m, dims, axes, fortran, e, grain, |dims|) <==> CyclicBehindWhole(m, dims, axes, fortran)
  {
    if !NoRows(axes, |dims|) {
      forall k | 0 <= k < |dims|
        ensures FitsAt(dims, axes, fortran, e, grain, k) <==>
                !BlockCyclic(DimAt(dims, fortran, k)) || Taken(axes[k]) <= 1 || WholeBefore(dims, axes, fortran, k)
      {
        ExtentOfRows(dims, axes, fortran, e, grain, k);
      }
    }
  }

  lemma NextOfNothing(d: Dim, rows: nat, grain: int)
    requires grain > 0
    ensures NextExtent(d, rows, 0, 0, grain) == 0
  {
    MultipleIsRounded(0, grain);
  }

  lemma {:induction false} NoExtent(dims: seq<Dim>, axes: seq<Axis>, fortran: bool, grain: int, k: nat)
    requires |axes| == |dims| && Sized(axes) && grain > 0 && k <= |dims|
    ensures ExtentAfter(dims, axes, fortran, 0, grain, k) == 0
  {
    if k > 0 {
      NoExtent(dims, axes, fortran, grain, k - 1);
      assert Step(axes, 0, k - 1) == 0;
      NextOfNothing(DimAt(dims, fortran, k - 1), Taken(axes[k - 1]), grain);
    }
  }

  /** Elements of extent 0 lie on top of each other, whatever the distributions. */
  lemma ZeroExtent(m: seq<Entry>, dims: seq<Dim>, axes: seq<Axis>, fortran: bool, grain: int)
    requires |axes| == |dims| && Sized(axes) && grain > 0
    ensures Works(m, dims, axes, fortran, 0, grain, |dims|)
  {
    forall k | 0 <= k < |dims|
      ensures FitsAt(dims, axes, fortran, 0, grain, k)
    {
      NoExtent(dims, axes, fortran, grain, k);
      assert Step(axes, 0, k) == 0;
    }
  }
}
