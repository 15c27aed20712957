/** The datatype of one dimension of a distributed array: block() and cyclic()
    (ompi/datatype/ompi_datatype_create_darray.c). */
module DarrayRows {
  import opened Arithmetic
  import BlockBounds
  import opened Cells
  import opened Constructors
  import opened Darray
  import opened DarrayFit
  import opened DarrayMap
  import opened Indexed
  import opened Options
  import opened TypeMap

  // ---------------------------------------------------------------------------
  // block()
  // ---------------------------------------------------------------------------

  /** What the groups of a strided datatype are long, and how they begin. */
  lemma GroupsStart(r: seq<Entry>, m: seq<Entry>, e: int, count: nat, b: nat)
    requires Grouped(r, m, e, count, b)
    ensures |r| == count * (b * |m|)
    ensures count >= 1 && b >= 1 ==> StartsWith(r, m) && StartsWith(r, Copies(m, b, 0, e))
  {
    var f: int :| r == Copies(Copies(m, b, 0, e), count, 0, f);
    CopiesLength(m, b, 0, e);
    CopiesLength(Copies(m, b, 0, e), count, 0, f);
    if count >= 1 && b >= 1 {
      CopiesStart(m, b, e);
      CopiesStart(Copies(m, b, 0, e), count, f);
    }
  }

  lemma SingleRows(m: seq<Entry>, p: Piece, step: int)
    requires Regular(p) && p.blk == 1
    ensures PieceMap(m, p, step) == Copies(m, p.count, 0, p.stride * step) && RowsIn(p) == p.count
  {
    CopiesOnce(m, 0, step);
    ShiftTwice(m, 0, 0);
    assert Copies(m, 0, p.count * p.stride * step, step) == [];
  }

  /** Rows one by one: only the distance -1 can go wrong. */
  lemma SinglesBuilt(r: seq<Entry>, m: seq<Entry>, e: int, p: Piece, step: int, stride: int)
    requires Regular(p) && p.blk == 1 && stride == p.stride * step && Grouped(r, m, e, p.count, 1)
    requires r == Blocks(Strided(m, e, p.count, 1, stride)) <==> StrideHonoured(m, e, p.count, 1, stride)
    ensures RowsLaid(r, m, p, step, e == stride || RowsIn(p) <= 1 || stride != -1)
  {
    SingleRows(m, p, step);
    SingleBlocks(m, e, p.count, stride);
    GroupsStart(r, m, e, p.count, 1);
    CopiesLength(m, p.count, 0, stride);
  }

  /** The end of block(): a run of `p.count` rows. */
  method BlockType(p: Piece, first: bool, step: int, last: Datatype) returns (r: Datatype)
    requires Regular(p) && p.blk == p.stride == 1 && last.Valid() && (first ==> last.Extent() == step)
    ensures fresh(r) && r.Valid()
    ensures RowsLaid(r.tmap, last.tmap, p, step, last.Extent() == step || RowsIn(p) <= 1 || step != -1)
    ensures RowsIn(p) >= 1 && last.kind.Data? && Bounded(last) ==>
              Repeated(r, last, RowsIn(p), if step == -1 then last.Extent() else step)
  {
    ghost var m, e := last.tmap, last.Extent();
    SingleRows(m, p, step);
    if first {
      r := CreateContiguous(p.count, last);
      ContiguousGroups(m, e, p.count, 1);
      SingleBlocks(m, e, p.count, step);
    } else {
      r := CreateHvector(p.count, 1, step, last);
    }
    SinglesBuilt(r.tmap, m, e, p, step, step);
  }

  // ---------------------------------------------------------------------------
  // cyclic()
  // ---------------------------------------------------------------------------

  /** Runs of two or more rows: within a run the rows are put one extent apart. */
  lemma RunsBuilt(r: seq<Entry>, m: seq<Entry>, e: int, p: Piece, step: int, stride: int)
    requires Regular(p) && p.blk >= 2 && stride == p.stride * step && Grouped(r, m, e, p.count, p.blk)
    requires r == Blocks(Strided(m, e, p.count, p.blk, stride)) <==> StrideHonoured(m, e, p.count, p.blk, stride)
    ensures |r| == |Runs(m, p, step, p.count)| && (p.count >= 1 ==> StartsWith(r, m))
    ensures r == Runs(m, p, step, p.count) <==> m == [] || p.count == 0 || e == step
  {
    GroupsStart(r, m, e, p.count, p.blk);
    var run := Copies(m, p.blk, 0, step);
    CopiesLength(m, p.blk, 0, step);
    CopiesLength(run, p.count, 0, stride);
    if m == [] || p.count == 0 {
      assert |r| == 0;
    } else if e == step {
      StridedIsNested(m, e, p.count, p.blk, stride);
      NotMinusOne(p.stride, step);
    } else {
      CopiesLength(m, p.blk, 0, e);
      CopiesStart(run, p.count, stride);
      CopiesStride(m, p.blk, 0, e, step);
    }
  }

  /** A product with a factor of two or more is not -1. */
  lemma NotMinusOne(n: int, x: int)
    requires n >= 2
    ensures n * x != -1
  {
    if x >= 0 {
      ProductSign(n, x);
    } else {
      assert n * x <= 2 * x by { ProductSign(n - 2, -x); }
    }
  }

  /** Runs of two or more rows with the shorter last one. */
  lemma RestBuilt(r: seq<Entry>, runs: seq<Entry>, m: seq<Entry>, e: int, p: Piece, step: int, at: int)
    requires Regular(p) && p.blk >= 2 && at == p.count * p.stride * step
    requires |runs| == |Runs(m, p, step, p.count)| && (p.count >= 1 ==> StartsWith(runs, m))
    requires runs == Runs(m, p, step, p.count) <==> m == [] || p.count == 0 || e == step
    requires r == runs + Copies(m, p.rem, at, e)
    ensures RowsLaid(r, m, p, step, e == step || RowsIn(p) <= 1)
  {
    var right, rest := Runs(m, p, step, p.count), Copies(m, p.rem, at, step);
    RestAlone(m, e, p.rem, at, step);
    SameJoin(runs, right, Copies(m, p.rem, at, e), rest);
    if p.count >= 1 {
      AtLeast(p.count, p.blk);
    } else {
      assert runs == [] && at == 0;
    }
  }

  lemma SameJoin(a: seq<Entry>, b: seq<Entry>, c: seq<Entry>, d: seq<Entry>)
    requires |a| == |b|
    ensures a + c == b + d <==> a == b && c == d
  {
    assert (a + c)[..|a|] == a && (b + d)[..|a|] == b;
    assert (a + c)[|a|..] == c && (b + d)[|a|..] == d;
  }

  /** A last run on its own. */
  lemma RestAlone(m: seq<Entry>, e: int, n: nat, at: int, step: int)
    ensures |Copies(m, n, at, e)| == |Copies(m, n, at, step)|
    ensures n >= 1 && at == 0 ==> StartsWith(Copies(m, n, at, e), m)
    ensures Copies(m, n, at, e) == Copies(m, n, at, step) <==> m == [] || e == step || n <= 1
  {
    CopiesLength(m, n, at, e);
    CopiesLength(m, n, at, step);
    if n >= 1 {
      CopiesStart(m, n, e);
    }
    if n == 1 {
      CopiesOnce(m, at, e);
      CopiesOnce(m, at, step);
    }
    if m != [] && e != step && n >= 2 {
      CopiesStride(m, n, at, e, step);
    }
  }

  /** Are the rows of a cyclic dimension put where they belong? */
  predicate CyclicFits(p: Piece, extent: int, step: int)
    requires Regular(p)
  {
    RowsIn(p) <= 1 || extent == step || (p.blk == 1 && p.stride * step != -1)
  }

  /** The runs of cyclic(), all of the same length. */
  method CyclicRows(p: Piece, step: int, last: Datatype) returns (r: Datatype)
    requires Regular(p) && last.Valid()
    ensures fresh(r) && r.Valid()
    ensures p.blk == 1 ==> RowsLaid(r.tmap, last.tmap, p, step, CyclicFits(p, last.Extent(), step))
    ensures p.blk >= 2 ==> && |r.tmap| == |Runs(last.tmap, p, step, p.count)|
                           && (p.count >= 1 ==> StartsWith(r.tmap, last.tmap))
    ensures p.blk >= 2 ==>
              (r.tmap == Runs(last.tmap, p, step, p.count)
               <==> last.tmap == [] || p.count == 0 || last.Extent() == step)
    ensures last.kind.Data? ==> r.kind.Data? && Refines(r, last) && (p.count >= 1 ==> SameGrain(r, last))
  {
    ghost var m, e, stride := last.tmap, last.Extent(), p.stride * step;
    r := CreateHvector(p.count, p.blk, p.stride * step, last);
    if p.blk == 1 {
      SinglesBuilt(r.tmap, m, e, p, step, stride);
      MinusOneOnce(p.stride, step);
    } else {
      RunsBuilt(r.tmap, m, e, p, step, stride);
    }
  }

  lemma MinusOneOnce(n: int, x: int)
    requires n >= 1
    ensures n * x == -1 <==> n == 1 && x == -1
  {
    if n >= 2 {
      NotMinusOne(n, x);
    }
  }

  /** The end of cyclic(): runs of `p.blk` rows and a shorter last one; the extent is set to that of the
      whole dimension, so that the next dimension may repeat blocks of it. */
  method CyclicType(p: Piece, step: int, extent: int, last: Datatype) returns (r: Datatype)
    requires Regular(p) && last.Valid()
    ensures fresh(r) && r.Valid() && r.lb == 0 && r.Extent() == extent
    ensures RowsLaid(r.tmap, last.tmap, p, step, CyclicFits(p, last.Extent(), step))
    ensures RowsIn(p) >= 1 && last.kind.Data? ==> SameGrain(r, last)
  {
    r := CyclicRows(p, step, last);
    ghost var runs := r.tmap;
    if p.rem != 0 {
      r := AddRest(p, step, r, last);
    }
    if p.blk >= 2 {
      RestBuilt(r.tmap, runs, last.tmap, last.Extent(), p, step, p.count * p.stride * step);
    }
    r.Resize(0, extent);
  }

  /** The struct with which cyclic() puts the last, shorter run behind the others. */
  method AddRest(p: Piece, step: int, runs: Datatype, last: Datatype) returns (r: Datatype)
    requires Regular(p) && p.rem != 0 && runs.Valid() && last.Valid()
    ensures fresh(r) && r.Valid()
    ensures r.tmap == runs.tmap + Copies(last.tmap, p.rem, p.count * p.stride * step, last.Extent())
    ensures last.kind.Data? && runs.kind.Data? && Refines(runs, last) ==> SameGrain(r, last)
  {
    var disp := p.count * (p.stride * step);
    ghost var bs := [Block.Block(runs.tmap, 1, 0, runs.Extent()), Block.Block(last.tmap, p.rem, disp, last.Extent())];
    r := CreateStruct([1, p.rem], [0, disp], [runs, last], bs, BlockBounds.Mixed);
    TwoBlocks(bs, runs.tmap);
    assert disp == p.count * p.stride * step;
  }

  lemma TwoBlocks(bs: seq<Block>, runs: seq<Entry>)
    requires |bs| == 2 && bs[0].m == runs && bs[0].len == 1 && bs[0].disp == 0
    ensures Blocks(bs) == runs + Copies(bs[1].m, bs[1].len, bs[1].disp, bs[1].e)
  {
    assert bs[..1][..0] == [] && Blocks(bs[..1][..0]) == [];
    assert Blocks(bs[..1]) == Copies(runs, 1, 0, bs[0].e);
    CopiesOnce(runs, 0, bs[0].e);
    ShiftTwice(runs, 0, 0);
  }

}
