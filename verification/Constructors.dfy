/** The datatype constructors that coalesce or nest (ompi/datatype/ompi_datatype_create_contiguous.c,
    ompi_datatype_create_vector.c, ompi_datatype_create_indexed.c, ompi_datatype_create_struct.c),
    against the type maps of section 4.1.2 of MPI-3.1. */
module Constructors {
  import opened Arithmetic
  import opened TypeMap

  /** The bounds fit a long on the side where a new datatype starts. */
  ghost predicate Bounded(t: Datatype)
    reads t
  {
    t.lb <= LONG_MAX && t.ub >= LONG_MIN
  }

  function Abs(x: int): (r: int) { if x < 0 then -x else x }

  /** The extent of copies `f` bytes apart: rounded up to the alignment, unless the user has set the upper
      bound. */
  function RepeatedExtent(e: int, count: nat, f: int, grain: int): (r: int)
    requires grain > 0
  {
    Rounded(e + Abs(f) * (count - 1), grain)
  }

  /** The bounds of a datatype made of `count` copies of another, `f` bytes apart. */
  ghost predicate Repeated(r: Datatype, t: Datatype, count: nat, f: int)
    requires t.Valid()
    reads r, t
  {
    SameGrain(r, t) && Bounded(r) && r.Extent() == RepeatedExtent(t.Extent(), count, f, t.Rounding())
  }

  /** The bounds of a new datatype to which copies are added. */
  lemma RepeatedBounds(count: nat, lb: int, ub: int, f: int, userLb: bool, userUb: bool, grain: int, rlb: int, rub: int)
    requires count >= 1 && lb <= LONG_MAX && ub >= LONG_MIN && grain > 0
    requires rlb == JoinedLb(LONG_MAX, false, SpanLb(count, 0, lb, f), userLb)
    requires rub == Padded(rlb, JoinedUb(LONG_MIN, false, SpanUb(count, 0, ub, f), userUb), grain)
    ensures rlb <= LONG_MAX && rub >= LONG_MIN && rub - rlb == RepeatedExtent(ub - lb, count, f, grain)
  {
    var last := f * (count - 1);
    if f >= 0 {
      assert last >= 0;
      assert Abs(f) * (count - 1) == last;
    } else {
      assert last <= 0;
      assert Abs(f) * (count - 1) == -last;
    }
  }

  // ---------------------------------------------------------------------------
  // Contiguous and strided
  // ---------------------------------------------------------------------------

  method CreateContiguous(count: nat, oldType: Datatype) returns (r: Datatype)
    requires oldType.Valid()
    ensures fresh(r) && r.Valid() && r.tmap == Copies(oldType.tmap, count, 0, oldType.Extent())
    ensures count >= 1 && oldType.kind.Data? && Bounded(oldType) ==> Repeated(r, oldType, count, oldType.Extent())
  {
    r := new Datatype();
    if count != 0 {
      r.Add(oldType, count, 0, oldType.ub - oldType.lb);
      if oldType.kind.Data? && Bounded(oldType) {
        RepeatedBounds(count, oldType.lb, oldType.ub, oldType.Extent(), oldType.userLb, oldType.userUb,
                       oldType.Rounding(), r.lb, r.ub);
      }
    }
  }

  /** The blocks of MPI_Type_create_hvector. */
  function Strided(m: seq<Entry>, e: int, count: nat, bLength: nat, stride: int): (bs: seq<Block>)
    ensures |bs| == count
  {
    seq(count, i requires 0 <= i < count => Block(m, bLength, i * stride, e))
  }

  lemma {:induction false} StridedIsNested(m: seq<Entry>, e: int, count: nat, bLength: nat, stride: int)
    ensures Blocks(Strided(m, e, count, bLength, stride)) == Copies(Copies(m, bLength, 0, e), count, 0, stride)
  {
    if count > 0 {
      StridedIsNested(m, e, count - 1, bLength, stride);
      assert Strided(m, e, count, bLength, stride)[..count - 1] == Strided(m, e, count - 1, bLength, stride);
      CopiesShift(m, bLength, 0, e, (count - 1) * stride);
    }
  }

  lemma SingleBlocks(m: seq<Entry>, e: int, n: nat, stride: int)
    ensures Blocks(Strided(m, e, n, 1, stride)) == Copies(m, n, 0, stride)
  {
    StridedIsNested(m, e, n, 1, stride);
    CopiesOnce(m, 0, e);
    ShiftTwice(m, 0, 0);
  }

  /** Repeating at byte stride -1 goes wrong unless there is nothing to space. */
  predicate StrideHonoured(m: seq<Entry>, e: int, count: nat, bLength: nat, stride: int) {
    m == [] || bLength == 0 || count <= 1 || e * bLength == stride || stride != -1
  }

  /** The contiguous case of both constructors. */
  lemma ContiguousBlocks(m: seq<Entry>, e: int, count: nat, bLength: nat, stride: int)
    requires e * bLength == stride || count <= 1
    ensures Blocks(Strided(m, e, count, bLength, stride)) == Copies(m, count * bLength, 0, e)
  {
    StridedIsNested(m, e, count, bLength, stride);
    var b := Copies(m, bLength, 0, e);
    if count == 0 {
      assert Copies(b, 0, 0, stride) == [];
    } else if count == 1 {
      CopiesOnce(b, 0, stride);
      ShiftTwice(b, 0, 0);
      assert count * bLength == bLength;
    } else {
      CopiesOfCopies(m, count, bLength, e);
      assert bLength * e == stride;
    }
  }

  /** `count` blocks one `stride` apart, in the two steps of the general case, where the second step
      takes the stride -1 for the extent `te` of the block. */
  lemma NestedStep(m: seq<Entry>, e: int, count: nat, bLength: nat, stride: int, te: int)
    requires count >= 2 && (stride == -1 ==> e * bLength != stride && (m != [] && bLength >= 1 ==> te != -1))
    ensures Copies(Copies(m, bLength, 0, e), count, 0, if stride == -1 then te else stride)
              == Blocks(Strided(m, e, count, bLength, stride))
            <==> StrideHonoured(m, e, count, bLength, stride)
  {
    StridedIsNested(m, e, count, bLength, stride);
    var b := Copies(m, bLength, 0, e);
    CopiesLength(m, bLength, 0, e);
    if m == [] || bLength == 0 {
      CopiesLength(b, count, 0, te);
      CopiesLength(b, count, 0, stride);
    } else if stride == -1 {
      assert bLength * |m| > 0;
      CopiesStride(b, count, 0, stride, te);
    }
  }

  /** A datatype begun with two or more copies never has a negative extent. */
  lemma BlockExtent(count: nat, oldLb: int, oldUb: int, lb: int, ub: int, align: int)
    requires count >= 2 && align > 0
    requires lb <= SpanLb(count, 0, oldLb, oldUb - oldLb) && ub >= SpanUb(count, 0, oldUb, oldUb - oldLb)
    ensures Padded(lb, ub, align) - lb >= 0
  {
    var e := oldUb - oldLb;
    if e >= 0 {
      assert e * (count - 1) >= 0;
    } else {
      assert e * (count - 1) <= e;
    }
  }

  /** `count` groups of `b` neighbours, the groups at some distance. */
  ghost predicate Grouped(r: seq<Entry>, m: seq<Entry>, e: int, count: nat, b: nat) {
    exists f: int :: r == Copies(Copies(m, b, 0, e), count, 0, f)
  }

  /** The general case: a datatype for one block, repeated. */
  method CreateNested(count: nat, bLength: nat, stride: int, oldType: Datatype) returns (r: Datatype)
    requires oldType.Valid() && count >= 2 && bLength != 1 && (stride == -1 ==> oldType.Extent() * bLength != stride)
    ensures fresh(r) && r.Valid()
    ensures r.tmap == Blocks(Strided(oldType.tmap, oldType.Extent(), count, bLength, stride))
            <==> StrideHonoured(oldType.tmap, oldType.Extent(), count, bLength, stride)
    ensures Grouped(r.tmap, oldType.tmap, oldType.Extent(), count, bLength)
    ensures bLength >= 1 && oldType.kind.Data? ==> SameGrain(r, oldType)
  {
    ghost var m, e := oldType.tmap, oldType.Extent();
    var temp := CreateBlock(bLength, oldType);
    ghost var te := temp.Extent();
    NestedStep(m, e, count, bLength, stride, te);
    r := new Datatype();
    r.Append(temp, count, 0, stride);
    assert r.tmap == Copies(Copies(m, bLength, 0, e), count, 0, if stride == -1 then te else stride);
  }

  /** The datatype for one block. */
  method CreateBlock(bLength: nat, oldType: Datatype) returns (r: Datatype)
    requires oldType.Valid()
    ensures fresh(r) && r.Valid() && r.tmap == Copies(oldType.tmap, bLength, 0, oldType.Extent())
    ensures bLength >= 2 && oldType.kind.Data? ==> r.Extent() >= 0
    ensures bLength >= 1 && oldType.kind.Data? ==> SameGrain(r, oldType)
    ensures bLength >= 1 && oldType.kind.Data? && Bounded(oldType) ==> Repeated(r, oldType, bLength, oldType.Extent())
  {
    r := new Datatype();
    r.Add(oldType, bLength, 0, oldType.Extent());
    if bLength >= 1 && oldType.kind.Data? && Bounded(oldType) {
      RepeatedBounds(bLength, oldType.lb, oldType.ub, oldType.Extent(), oldType.userLb, oldType.userUb,
                     oldType.Rounding(), r.lb, r.ub);
    }
    if bLength >= 2 && oldType.kind.Data? {
      ghost var ub := JoinedUb(LONG_MIN, false, SpanUb(bLength, 0, oldType.ub, oldType.Extent()), oldType.userUb);
      BlockExtent(bLength, oldType.lb, oldType.ub, r.lb, ub, r.Rounding());
    }
  }

  /** The case of one element a block: the datatype is a row of strided copies. */
  method CreateRow(count: nat, stride: int, oldType: Datatype) returns (r: Datatype)
    requires oldType.Valid() && count >= 2 && (stride == -1 ==> oldType.Extent() != stride)
    ensures fresh(r) && r.Valid()
    ensures r.tmap == Blocks(Strided(oldType.tmap, oldType.Extent(), count, 1, stride))
            <==> StrideHonoured(oldType.tmap, oldType.Extent(), count, 1, stride)
    ensures Grouped(r.tmap, oldType.tmap, oldType.Extent(), count, 1)
    ensures oldType.kind.Data? ==> SameGrain(r, oldType)
    ensures oldType.kind.Data? && Bounded(oldType) ==>
              Repeated(r, oldType, count, if stride == -1 then oldType.Extent() else stride)
  {
    ghost var f := if stride == -1 then oldType.Extent() else stride;
    r := new Datatype();
    r.Add(oldType, count, 0, stride);
    SingleStep(oldType.tmap, oldType.Extent(), count, stride, f);
    if oldType.kind.Data? && Bounded(oldType) {
      RepeatedBounds(count, oldType.lb, oldType.ub, f, oldType.userLb, oldType.userUb, oldType.Rounding(), r.lb, r.ub);
    }
  }

  lemma SingleStep(m: seq<Entry>, e: int, count: nat, stride: int, f: int)
    requires count >= 2 && (stride == -1 ==> e != stride) && f == if stride == -1 then e else stride
    ensures Copies(m, count, 0, f) == Blocks(Strided(m, e, count, 1, stride))
            <==> StrideHonoured(m, e, count, 1, stride)
    ensures Grouped(Copies(m, count, 0, f), m, e, count, 1)
  {
    CopiesOnce(m, 0, e);
    ShiftTwice(m, 0, 0);
    NestedStep(m, e, count, 1, stride, e);
    assert Copies(m, 1, 0, e) == m;
  }

  lemma AtLeast(a: nat, b: nat)
    requires a >= 1
    ensures a * b >= b
  {
    assert (a - 1) * b == a * b - b;
  }

  lemma ContiguousGroups(m: seq<Entry>, e: int, count: nat, b: nat)
    ensures Grouped(Copies(m, count * b, 0, e), m, e, count, b)
  {
    CopiesOfCopies(m, count, b, e);
  }

  /** ompi_datatype_create_hvector. */
  method CreateHvector(count: nat, bLength: nat, stride: int, oldType: Datatype) returns (r: Datatype)
    requires oldType.Valid()
    ensures fresh(r) && r.Valid()
    ensures r.tmap == Blocks(Strided(oldType.tmap, oldType.Extent(), count, bLength, stride))
            <==> StrideHonoured(oldType.tmap, oldType.Extent(), count, bLength, stride)
    ensures Grouped(r.tmap, oldType.tmap, oldType.Extent(), count, bLength)
    ensures if count == 0 then r.kind.Data? && r.align == 1 && !r.userUb
            else bLength >= 1 && oldType.kind.Data? ==> SameGrain(r, oldType)
    ensures count >= 1 && bLength == 1 && oldType.kind.Data? && Bounded(oldType) ==>
              Repeated(r, oldType, count, if stride == -1 then oldType.Extent() else stride)
  {
    var extent := oldType.ub - oldType.lb;
    r := new Datatype();
    if count == 0 {
      assert Strided(oldType.tmap, extent, count, bLength, stride) == [];
      ContiguousGroups(oldType.tmap, extent, count, bLength);
    } else if extent * bLength == stride || 1 >= count {
      r := CreateBlock(count * bLength, oldType);
      ContiguousBlocks(oldType.tmap, extent, count, bLength, stride);
      ContiguousGroups(oldType.tmap, extent, count, bLength);
      AtLeast(count, bLength);
    } else if bLength == 1 {
      r := CreateRow(count, stride, oldType);
    } else {
      r := CreateNested(count, bLength, stride, oldType);
    }
  }

  /** ompi_datatype_create_vector: the stride counts elements. */
  method CreateVector(count: nat, bLength: nat, stride: int, oldType: Datatype) returns (r: Datatype)
    requires oldType.Valid()
    ensures fresh(r) && r.Valid()
    ensures r.tmap == Blocks(Strided(oldType.tmap, oldType.Extent(), count, bLength, oldType.Extent() * stride))
            <==> StrideHonoured(oldType.tmap, oldType.Extent(), count, bLength, oldType.Extent() * stride)
    ensures count == 1 && bLength == 1 && oldType.kind.Data? && Bounded(oldType) ==>
              Repeated(r, oldType, 1, oldType.Extent())
  {
    var extent := oldType.ub - oldType.lb;
    r := new Datatype();
    if count == 0 {
      assert Strided(oldType.tmap, extent, count, bLength, extent * stride) == [];
    } else if bLength == stride || 1 >= count {
      r := CreateBlock(count * bLength, oldType);
      ContiguousBlocks(oldType.tmap, extent, count, bLength, extent * stride);
    } else if bLength == 1 {
      r := CreateRow(count, extent * stride, oldType);
    } else {
      r := CreateNested(count, bLength, extent * stride, oldType);
    }
  }

  lemma TwoCopies(x: Entry, e: int)
    ensures Copies([x], 2, 0, e) == [x, x.(disp := x.disp + e)]
  {
    CopiesOnce([x], 0, e);
    assert Shift([x], 0) == [x] && Shift([x], e) == [x.(disp := x.disp + e)];
  }

  /** Two elements of extent 1 at stride -1 are laid out forwards instead of backwards. */
  lemma BackwardStrideFails()
    ensures var m := [Entry(0, 0)];
            && Blocks(Strided(m, 1, 2, 1, -1)) == [Entry(0, 0), Entry(0, -1)]
            && Copies(m, 2, 0, 1) == [Entry(0, 0), Entry(0, 1)]
            && !StrideHonoured(m, 1, 2, 1, -1)
  {
    SingleBlocks([Entry(0, 0)], 1, 2, -1);
    TwoCopies(Entry(0, 0), -1);
    TwoCopies(Entry(0, 0), 1);
  }
}
