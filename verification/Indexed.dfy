/** The coalescing constructors (ompi/datatype/ompi_datatype_create_indexed.c,
    ompi_datatype_create_struct.c): adjacent blocks are merged while they are read, and what is
    built is the type map of the blocks one by one, as section 4.1.2 of MPI-3.1 defines it. */
module Indexed {
  import opened Arithmetic
  import opened BlockBounds
  import opened TypeMap

  /** The blocks of the indexed constructors; `unit` is the number of bytes one displacement counts. */
  function IndexedBlocks(m: seq<Entry>, e: int, lens: seq<nat>, disps: seq<int>, unit: int): (bs: seq<Block>)
    requires |lens| == |disps|
    ensures |bs| == |lens|
  {
    seq(|lens|, i requires 0 <= i < |lens| => Block(m, lens[i], disps[i] * unit, e))
  }

  function BlockMap(b: Block): (r: seq<Entry>) { Copies(b.m, b.len, b.disp, b.e) }

  lemma BlocksStep(bs: seq<Block>, i: nat)
    requires i < |bs|
    ensures Blocks(bs[..i + 1]) == Blocks(bs[..i]) + BlockMap(bs[i])
  {
    assert bs[..i + 1][..i] == bs[..i];
  }

  /** The state of a merging loop: what was added and the block still open give the first `i` blocks. */
  ghost predicate Merged(done: seq<Entry>, open: Block, bs: seq<Block>, i: nat)
    requires i <= |bs|
  {
    done + BlockMap(open) == Blocks(bs[..i])
  }

  lemma MergeBegins(bs: seq<Block>)
    requires |bs| >= 1
    ensures Merged([], bs[0], bs, 1)
  {
    BlocksStep(bs, 0);
  }

  /** A block that begins where the open one ends joins it. */
  lemma MergeExtends(done: seq<Entry>, open: Block, bs: seq<Block>, i: nat)
    requires i < |bs| && Merged(done, open, bs, i)
    requires bs[i].m == open.m && bs[i].e == open.e && bs[i].disp == open.disp + open.len * open.e
    ensures Merged(done, open.(len := open.len + bs[i].len), bs, i + 1)
  {
    BlocksStep(bs, i);
    CopiesConcat(open.m, open.len, bs[i].len, open.disp, open.e);
    assert done + (BlockMap(open) + BlockMap(bs[i])) == (done + BlockMap(open)) + BlockMap(bs[i]);
  }

  /** Otherwise the open block is added and the next one is opened. */
  lemma MergeCloses(done: seq<Entry>, open: Block, bs: seq<Block>, i: nat)
    requires i < |bs| && Merged(done, open, bs, i)
    ensures Merged(done + BlockMap(open), bs[i], bs, i + 1)
  {
    BlocksStep(bs, i);
  }

  lemma MergeEnds(done: seq<Entry>, open: Block, bs: seq<Block>)
    requires Merged(done, open, bs, |bs|)
    ensures done + BlockMap(open) == Blocks(bs)
  {
    assert bs[..|bs|] == bs;
  }

  lemma Distribute(a: int, b: int, e: int)
    ensures (a + b) * e == a * e + b * e
  {
  }

  // ---------------------------------------------------------------------------
  // The merging loop, with the bounds of what it builds
  // ---------------------------------------------------------------------------

  function BlockOf(t: Datatype, n: nat, disp: int): (b: Block)
    reads t
  {
    Block(t.tmap, n, disp, t.Extent())
  }

  /** The blocks of the type `t` as far as bounds are concerned. */
  function Places(t: Datatype, bs: seq<Block>): (ps: seq<Placed>)
    reads t
    ensures |ps| == |bs|
  {
    seq(|bs|, i reads t requires 0 <= i < |bs| => PlacedOf(t, bs[i].len, bs[i].disp))
  }

  function FlagsOf(t: Datatype): (f: Flags)
    reads t
  {
    if t.kind.Data? then Common(t.userLb, t.userUb) else Mixed
  }

  /** The blocks `closed` were added; `n` copies of `t` at `disp` are still open.  Together they make up the first `i`
      blocks. */
  ghost predicate Merging(pdt: Datatype, t: Datatype, n: nat, disp: int, bs: seq<Block>, ps: seq<Placed>, f: Flags,
                          closed: seq<Placed>, i: nat)
    requires i <= |bs| == |ps|
    reads pdt, t
  {
    && t.Valid() && pdt != t && HasFlags(t, f) && HasBlocks(pdt, f, closed)
    && Merged(pdt.tmap, BlockOf(t, n, disp), bs, i)
    && SameCopies(closed + [PlacedOf(t, n, disp)], ps[..i])
  }

  lemma MergingBegins(pdt: Datatype, t: Datatype, n: nat, disp: int, bs: seq<Block>, ps: seq<Placed>, f: Flags)
    requires t.Valid() && pdt != t && HasFlags(t, f) && HasBlocks(pdt, f, []) && pdt.tmap == []
    requires |bs| == |ps| >= 1 && bs[0] == BlockOf(t, n, disp) && ps[0] == PlacedOf(t, n, disp)
    ensures Merging(pdt, t, n, disp, bs, ps, f, [], 1)
  {
    MergeBegins(bs);
    assert [] + [ps[0]] == ps[..1];
  }

  lemma MergingExtends(pdt: Datatype, t: Datatype, n: nat, disp: int, bs: seq<Block>, ps: seq<Placed>, f: Flags,
                       closed: seq<Placed>, i: nat, k: nat, next: int)
    requires i < |bs| == |ps| && Merging(pdt, t, n, disp, bs, ps, f, closed, i)
    requires next == disp + n * t.Extent() && bs[i] == BlockOf(t, k, next) && ps[i] == PlacedOf(t, k, next)
    ensures Merging(pdt, t, n + k, disp, bs, ps, f, closed, i + 1)
  {
    MergeExtends(pdt.tmap, BlockOf(t, n, disp), bs, i);
    CopiesExtend(closed, PlacedOf(t, n, disp), ps, i);
  }

  /** The open block is added and block `i`, of the type `next`, is opened. */
  method Close(pdt: Datatype, t: Datatype, n: nat, disp: int, extent: int, ghost next: Datatype, ghost bs: seq<Block>,
               ghost ps: seq<Placed>, ghost f: Flags, ghost closed: seq<Placed>, ghost i: nat)
    requires i < |bs| == |ps| && Merging(pdt, t, n, disp, bs, ps, f, closed, i) && extent == t.Extent()
    requires next.Valid() && next != pdt && HasFlags(next, f)
    requires bs[i] == BlockOf(next, bs[i].len, bs[i].disp) && ps[i] == PlacedOf(next, bs[i].len, bs[i].disp)
    modifies pdt
    ensures Merging(pdt, next, bs[i].len, bs[i].disp, bs, ps, f, closed + [PlacedOf(t, n, disp)], i + 1)
    ensures n == 0 ==> unchanged(pdt)
    ensures n > 0 && t.kind.Data? ==>
              pdt.align == Max(old(pdt.align), t.align) && pdt.userUb == (old(pdt.userUb) || t.userUb)
  {
    MergeCloses(pdt.tmap, BlockOf(t, n, disp), bs, i);
    CopiesClose(closed + [PlacedOf(t, n, disp)], ps, i);
    AddBlock(pdt, t, n, disp, extent, closed, f);
  }

  /** The last block is added. */
  method Finish(pdt: Datatype, t: Datatype, n: nat, disp: int, extent: int, ghost bs: seq<Block>,
                ghost ps: seq<Placed>, ghost f: Flags, ghost closed: seq<Placed>)
    requires |bs| == |ps| && Merging(pdt, t, n, disp, bs, ps, f, closed, |bs|) && extent == t.Extent()
    modifies pdt
    ensures pdt.tmap == Blocks(bs) && HasBlocks(pdt, f, ps)
    ensures n == 0 ==> unchanged(pdt)
    ensures n > 0 && t.kind.Data? ==>
              pdt.align == Max(old(pdt.align), t.align) && pdt.userUb == (old(pdt.userUb) || t.userUb)
  {
    MergeEnds(pdt.tmap, BlockOf(t, n, disp), bs);
    AddBlock(pdt, t, n, disp, extent, closed, f);
    assert ps[..|bs|] == ps;
    if f.Common? {
      SameBounds(pdt.Limits(), pdt.align, closed + [PlacedOf(t, n, disp)], ps, f.lb, f.ub);
    }
  }

  /** ompi_datatype_create_indexed. */
  method CreateIndexed(lens: seq<nat>, disps: seq<int>, oldType: Datatype) returns (pdt: Datatype)
    requires oldType.Valid() && |lens| == |disps|
    ensures fresh(pdt) && pdt.Valid()
    ensures var bs := IndexedBlocks(oldType.tmap, oldType.Extent(), lens, disps, oldType.Extent());
            pdt.tmap == Blocks(bs) && HasBlocks(pdt, FlagsOf(oldType), Places(oldType, bs))
  {
    pdt := new Datatype();
    if |lens| == 0 {
      return;
    }
    var extent := oldType.Extent();
    ghost var f := FlagsOf(oldType);
    ghost var bs := IndexedBlocks(oldType.tmap, extent, lens, disps, extent);
    ghost var ps := Places(oldType, bs);
    ghost var closed: seq<Placed> := [];
    var disp := disps[0];
    var dLength: nat := lens[0];
    var endat := disp + dLength;
    ghost var at := disp * extent;
    MergingBegins(pdt, oldType, dLength, at, bs, ps, f);
    for i := 1 to |lens|
      invariant fresh(pdt) && endat == disp + dLength && at == disp * extent
      invariant Merging(pdt, oldType, dLength, at, bs, ps, f, closed, i)
    {
      if endat == disps[i] {
        Distribute(disp, dLength, extent);
        MergingExtends(pdt, oldType, dLength, at, bs, ps, f, closed, i, lens[i], disps[i] * extent);
        dLength := dLength + lens[i];
        endat := endat + lens[i];
      } else {
        Close(pdt, oldType, dLength, disp * extent, extent, oldType, bs, ps, f, closed, i);
        closed, at := closed + [PlacedOf(oldType, dLength, at)], disps[i] * extent;
        disp, dLength := disps[i], lens[i];
        endat := disp + lens[i];
      }
    }
    Finish(pdt, oldType, dLength, disp * extent, extent, bs, ps, f, closed);
  }

  /** ompi_datatype_create_hindexed. */
  method CreateHindexed(lens: seq<nat>, disps: seq<int>, oldType: Datatype) returns (pdt: Datatype)
    requires oldType.Valid() && |lens| == |disps|
    ensures fresh(pdt) && pdt.Valid()
    ensures var bs := IndexedBlocks(oldType.tmap, oldType.Extent(), lens, disps, 1);
            pdt.tmap == Blocks(bs) && HasBlocks(pdt, FlagsOf(oldType), Places(oldType, bs))
  {
    pdt := new Datatype();
    if |lens| == 0 {
      return;
    }
    var extent := oldType.Extent();
    ghost var f := FlagsOf(oldType);
    ghost var bs := IndexedBlocks(oldType.tmap, extent, lens, disps, 1);
    ghost var ps := Places(oldType, bs);
    ghost var closed: seq<Placed> := [];
    var disp := disps[0];
    var dLength: nat := lens[0];
    var endat := disp + dLength * extent;
    MergingBegins(pdt, oldType, dLength, disp, bs, ps, f);
    for i := 1 to |lens|
      invariant fresh(pdt) && endat == disp + dLength * extent
      invariant Merging(pdt, oldType, dLength, disp, bs, ps, f, closed, i)
    {
      if endat == disps[i] {
        MergingExtends(pdt, oldType, dLength, disp, bs, ps, f, closed, i, lens[i], disps[i]);
        Distribute(dLength, lens[i], extent);
        dLength := dLength + lens[i];
        endat := endat + lens[i] * extent;
      } else {
        Close(pdt, oldType, dLength, disp, extent, oldType, bs, ps, f, closed, i);
        closed := closed + [PlacedOf(oldType, dLength, disp)];
        disp, dLength := disps[i], lens[i];
        endat := disp + lens[i] * extent;
      }
    }
    Finish(pdt, oldType, dLength, disp, extent, bs, ps, f, closed);
  }

  function Repeat(b: nat, n: nat): (s: seq<nat>)
    ensures |s| == n
  {
    seq(n, i => b)
  }

  lemma {:induction false} EmptyBlocks(bs: seq<Block>)
    requires forall i :: 0 <= i < |bs| ==> bs[i].len == 0
    ensures Blocks(bs) == []
  {
    if bs != [] {
      EmptyBlocks(bs[..|bs| - 1]);
    }
  }

  lemma {:induction false} EmptyPlaces(ps: seq<Placed>)
    requires forall i :: 0 <= i < |ps| ==> ps[i].len == 0
    ensures Lbs(ps) == {} && Grain(ps) == 1
  {
    if ps != [] {
      EmptyPlaces(ps[..|ps| - 1]);
    }
  }

  /** ompi_datatype_create_indexed_block. */
  method CreateIndexedBlock(bLength: nat, disps: seq<int>, oldType: Datatype) returns (pdt: Datatype)
    requires oldType.Valid()
    ensures fresh(pdt) && pdt.Valid()
    ensures var bs := IndexedBlocks(oldType.tmap, oldType.Extent(), Repeat(bLength, |disps|), disps, oldType.Extent());
            pdt.tmap == Blocks(bs) && HasBlocks(pdt, FlagsOf(oldType), Places(oldType, bs))
  {
    pdt := new Datatype();
    var extent := oldType.Extent();
    ghost var f := FlagsOf(oldType);
    ghost var bs := IndexedBlocks(oldType.tmap, extent, Repeat(bLength, |disps|), disps, extent);
    ghost var ps := Places(oldType, bs);
    if |disps| == 0 || bLength == 0 {
      EmptyBlocks(bs);
      EmptyPlaces(ps);
      if |disps| != 0 {
        pdt.Append(oldType, 0, disps[0] * extent, extent);
      }
      return;
    }
    ghost var closed: seq<Placed> := [];
    var disp := disps[0];
    var dLength: nat := bLength;
    var endat := disp + dLength;
    ghost var at := disp * extent;
    MergingBegins(pdt, oldType, dLength, at, bs, ps, f);
    for i := 1 to |disps|
      invariant fresh(pdt) && endat == disp + dLength && at == disp * extent
      invariant Merging(pdt, oldType, dLength, at, bs, ps, f, closed, i)
    {
      if endat == disps[i] {
        Distribute(disp, dLength, extent);
        MergingExtends(pdt, oldType, dLength, at, bs, ps, f, closed, i, bLength, disps[i] * extent);
        dLength := dLength + bLength;
        endat := endat + bLength;
      } else {
        Close(pdt, oldType, dLength, disp * extent, extent, oldType, bs, ps, f, closed, i);
        closed, at := closed + [PlacedOf(oldType, dLength, at)], disps[i] * extent;
        disp, dLength := disps[i], bLength;
        endat := disp + bLength;
      }
    }
    Finish(pdt, oldType, dLength, disp * extent, extent, bs, ps, f, closed);
  }

  // ---------------------------------------------------------------------------
  // hindexed_block, whose merge test adds an element count to a byte displacement
  // ---------------------------------------------------------------------------

  /** Some block begins `bLength` bytes after the one before it. */
  ghost predicate LooksAdjacent(bLength: nat, disps: seq<int>) {
    exists i :: 1 <= i < |disps| && Follows(bLength, disps, i)
  }

  predicate Follows(bLength: nat, disps: seq<int>, i: int)
    requires 1 <= i < |disps|
  {
    disps[i] == disps[i - 1] + bLength
  }

  /** When the type map is the right one. */
  ghost predicate HindexedBlockWorks(m: seq<Entry>, e: int, bLength: nat, disps: seq<int>) {
    e == 1 || m == [] || bLength == 0 || !LooksAdjacent(bLength, disps)
  }

  /** The merging loop went wrong at entry `q`, and what follows does not touch that entry. */
  ghost predicate WrongAt(now: seq<Entry>, bs: seq<Block>, i: nat, q: int)
    requires i <= |bs|
  {
    |now| == |Blocks(bs[..i])| && 0 <= q < |now| && now[q] != Blocks(bs[..i])[q]
  }

  /** Merging a block that does not begin where the open one ends misplaces its first element. */
  lemma FalseMerge(done: seq<Entry>, open: Block, bs: seq<Block>, i: nat)
    requires i < |bs| && Merged(done, open, bs, i) && open.m != [] && bs[i].len >= 1
    requires bs[i].m == open.m && bs[i].e == open.e && bs[i].disp != open.disp + open.len * open.e
    ensures WrongAt(done + BlockMap(open.(len := open.len + bs[i].len)), bs, i + 1, |Blocks(bs[..i])|)
  {
    BlocksStep(bs, i);
    var b := bs[i];
    CopiesConcat(open.m, open.len, b.len, open.disp, open.e);
    CopiesLength(open.m, b.len, open.disp + open.len * open.e, open.e);
    CopiesLength(open.m, b.len, b.disp, b.e);
    CopiesAt(open.m, b.len, open.disp + open.len * open.e, open.e, 0, 0);
    CopiesAt(open.m, b.len, b.disp, b.e, 0, 0);
  }

  /** The mistake stays when further blocks are merged or opened. */
  lemma WrongStays(now: seq<Entry>, more: seq<Entry>, bs: seq<Block>, i: nat, q: int)
    requires i < |bs| && WrongAt(now, bs, i, q) && |more| == |BlockMap(bs[i])|
    ensures WrongAt(now + more, bs, i + 1, q)
  {
    BlocksStep(bs, i);
  }

  lemma OpenGrows(done: seq<Entry>, open: Block, b: nat)
    ensures done + BlockMap(open.(len := open.len + b)) == (done + BlockMap(open)) + Copies(open.m, b, open.disp + open.len * open.e, open.e)
  {
    CopiesConcat(open.m, open.len, b, open.disp, open.e);
  }

  /** What the loop has built from the first `i` blocks of `bLength` elements; `q` is a misplaced entry
      if there is one. */
  ghost predicate Built(done: seq<Entry>, open: Block, bs: seq<Block>, bLength: nat, disps: seq<int>, i: nat, q: int)
    requires 1 <= i <= |disps| == |bs|
  {
    if open.m == [] then done == []
    else if open.e == 1 || !LooksAdjacent(bLength, disps[..i]) then
      Merged(done, open, bs, i) && (open.e != 1 ==> open.len == bLength && open.disp == disps[i - 1])
    else WrongAt(done + BlockMap(open), bs, i, q)
  }

  /** The blocks of one call. */
  ghost predicate BlocksOf(bs: seq<Block>, open: Block, bLength: nat, disps: seq<int>) {
    |bs| == |disps| && forall i :: 0 <= i < |bs| ==> bs[i] == Block(open.m, bLength, disps[i], open.e)
  }

  lemma AdjacentSoFar(bLength: nat, disps: seq<int>, i: nat)
    requires 1 <= i < |disps|
    ensures LooksAdjacent(bLength, disps[..i + 1]) <==>
            LooksAdjacent(bLength, disps[..i]) || Follows(bLength, disps, i)
  {
    var now, before := disps[..i + 1], disps[..i];
    assert forall j :: 1 <= j < i ==> Follows(bLength, now, j) == Follows(bLength, before, j);
    assert Follows(bLength, now, i) == Follows(bLength, disps, i);
  }

  lemma BuiltMerge(done: seq<Entry>, open: Block, bs: seq<Block>, bLength: nat, disps: seq<int>, i: nat, q: int)
    returns (q': int)
    requires 1 <= i < |disps| && bLength >= 1 && BlocksOf(bs, open, bLength, disps)
    requires Built(done, open, bs, bLength, disps, i, q) && open.disp + open.len == disps[i]
    ensures Built(done, open.(len := open.len + bLength), bs, bLength, disps, i + 1, q')
  {
    q' := q;
    AdjacentSoFar(bLength, disps, i);
    if open.m != [] {
      if open.e == 1 {
        MergeExtends(done, open, bs, i);
      } else if !LooksAdjacent(bLength, disps[..i]) {
        assert Follows(bLength, disps, i);
        NotAdjacent(open.len, open.e);
        FalseMerge(done, open, bs, i);
        q' := |Blocks(bs[..i])|;
      } else {
        var more := Copies(open.m, bLength, open.disp + open.len * open.e, open.e);
        CopiesLength(open.m, bLength, open.disp + open.len * open.e, open.e);
        CopiesLength(open.m, bLength, disps[i], open.e);
        WrongStays(done + BlockMap(open), more, bs, i, q);
        OpenGrows(done, open, bLength);
      }
    }
  }

  lemma NotAdjacent(n: nat, e: int)
    requires n >= 1 && e != 1
    ensures n * e != n
  {
    assert n * (e - 1) == n * e - n;
  }

  lemma BuiltClose(done: seq<Entry>, open: Block, bs: seq<Block>, bLength: nat, disps: seq<int>, i: nat, q: int)
    requires 1 <= i < |disps| && bLength >= 1 && BlocksOf(bs, open, bLength, disps)
    requires Built(done, open, bs, bLength, disps, i, q) && open.disp + open.len != disps[i]
    ensures Built(done + BlockMap(open), bs[i], bs, bLength, disps, i + 1, q)
  {
    AdjacentSoFar(bLength, disps, i);
    if open.m == [] {
      CopiesOfNothing(open.len, open.disp, open.e);
    } else if open.e == 1 || !LooksAdjacent(bLength, disps[..i]) {
      MergeCloses(done, open, bs, i);
    } else {
      WrongStays(done + BlockMap(open), BlockMap(bs[i]), bs, i, q);
    }
  }

  lemma BuiltEnds(done: seq<Entry>, open: Block, bs: seq<Block>, bLength: nat, disps: seq<int>, q: int)
    requires |disps| >= 1 && bLength >= 1 && BlocksOf(bs, open, bLength, disps)
    requires Built(done, open, bs, bLength, disps, |disps|, q)
    ensures done + BlockMap(open) == Blocks(bs) <==> HindexedBlockWorks(open.m, open.e, bLength, disps)
  {
    assert disps[..|disps|] == disps && bs[..|bs|] == bs;
    if open.m == [] {
      CopiesOfNothing(open.len, open.disp, open.e);
      NothingBlocks(bs);
    }
  }

  lemma {:induction false} NothingBlocks(bs: seq<Block>)
    requires forall i :: 0 <= i < |bs| ==> bs[i].m == []
    ensures Blocks(bs) == []
  {
    if bs != [] {
      var b := bs[|bs| - 1];
      NothingBlocks(bs[..|bs| - 1]);
      CopiesOfNothing(b.len, b.disp, b.e);
    }
  }

  /** ompi_datatype_create_hindexed_block. */
  method CreateHindexedBlock(bLength: nat, disps: seq<int>, oldType: Datatype) returns (pdt: Datatype)
    requires oldType.Valid()
    ensures fresh(pdt) && pdt.Valid()
    ensures pdt.tmap == Blocks(IndexedBlocks(oldType.tmap, oldType.Extent(), Repeat(bLength, |disps|), disps, 1))
            <==> HindexedBlockWorks(oldType.tmap, oldType.Extent(), bLength, disps)
  {
    pdt := new Datatype();
    var extent := oldType.Extent();
    ghost var m := oldType.tmap;
    ghost var bs := IndexedBlocks(m, extent, Repeat(bLength, |disps|), disps, 1);
    if |disps| == 0 || bLength == 0 {
      EmptyBlocks(bs);
      if |disps| != 0 {
        pdt.Append(oldType, 0, disps[0] * extent, extent);
      }
      return;
    }
    var disp := disps[0];
    var dLength: nat := bLength;
    var endat := disp + dLength;
    ghost var q := 0;
    MergeBegins(bs);
    for i := 1 to |disps|
      invariant pdt.Valid() && fresh(pdt) && endat == disp + dLength
      invariant Built(pdt.tmap, Block(m, dLength, disp, extent), bs, bLength, disps, i, q)
    {
      ghost var open := Block(m, dLength, disp, extent);
      if endat == disps[i] {
        q := BuiltMerge(pdt.tmap, open, bs, bLength, disps, i, q);
        dLength := dLength + bLength;
        endat := endat + bLength;
      } else {
        BuiltClose(pdt.tmap, open, bs, bLength, disps, i, q);
        pdt.Append(oldType, dLength, disp, extent);
        disp, dLength := disps[i], bLength;
        endat := disp + bLength;
      }
    }
    BuiltEnds(pdt.tmap, Block(m, dLength, disp, extent), bs, bLength, disps, q);
    pdt.Append(oldType, dLength, disp, extent);
  }

  /** Two blocks of one 4-byte element, one byte apart. */
  lemma FalseAdjacency()
    ensures !HindexedBlockWorks([Entry(0, 0)], 4, 1, [0, 1]) && HindexedBlockWorks([Entry(0, 0)], 4, 1, [0, 4])
  {
    assert Follows(1, [0, 1], 1);
  }

  // ---------------------------------------------------------------------------
  // struct
  // ---------------------------------------------------------------------------

  ghost predicate AllValid(types: seq<Datatype>)
    reads types
  {
    forall i :: 0 <= i < |types| ==> types[i].Valid()
  }

  /** The blocks of a structure, one for each component. */
  ghost predicate StructBlocks(bs: seq<Block>, types: seq<Datatype>, lens: seq<nat>, disps: seq<int>)
    requires |types| == |lens| == |disps|
    reads types
  {
    && |bs| == |types|
    && forall i :: 0 <= i < |bs| ==> bs[i] == Block(types[i].tmap, lens[i], disps[i], types[i].ub - types[i].lb)
  }

  /** All components have the alignment of the last one, or none of their own. */
  ghost predicate OneGrain(types: seq<Datatype>)
    requires types != []
    reads types
  {
    forall i :: 0 <= i < |types| ==> types[i].kind.Data? && Refines(types[i], types[|types| - 1])
  }

  ghost predicate Refines(r: Datatype, t: Datatype)
    reads r, t
  {
    (r.align == t.align && r.userUb == t.userUb) || (r.align == 1 && !r.userUb)
  }

  function StructPlaces(types: seq<Datatype>, lens: seq<nat>, disps: seq<int>): (ps: seq<Placed>)
    requires |types| == |lens| == |disps|
    reads types
    ensures |ps| == |types|
  {
    seq(|types|, i reads types requires 0 <= i < |types| => PlacedOf(types[i], lens[i], disps[i]))
  }

  ghost predicate AllHaveFlags(types: seq<Datatype>, f: Flags)
    reads types
  {
    forall i :: 0 <= i < |types| ==> HasFlags(types[i], f)
  }

  /** What does not change while the components are read. */
  ghost predicate Parts(pdt: Datatype, lens: seq<nat>, disps: seq<int>, types: seq<Datatype>, bs: seq<Block>, f: Flags)
    requires |types| == |lens| == |disps|
    reads types
  {
    pdt !in types && AllValid(types) && AllHaveFlags(types, f) && StructBlocks(bs, types, lens, disps)
  }

  /** The state of the loop over the components: `t` is the type of the block that is still being merged. */
  ghost predicate StructOk(pdt: Datatype, lens: seq<nat>, disps: seq<int>, types: seq<Datatype>, bs: seq<Block>,
                           f: Flags, closed: seq<Placed>, i: nat, t: Datatype, len: nat, disp: int)
    requires |types| == |lens| == |disps| == |bs| && 1 <= i <= |types|
    reads pdt, types, t
  {
    && t == types[i - 1] && len >= lens[i - 1]
    && (OneGrain(types) ==> Refines(pdt, types[|types| - 1]))
    && Merging(pdt, t, len, disp, bs, StructPlaces(types, lens, disps), f, closed, i)
  }

  /** The turn of the loop in which component `i` continues the open block. */
  lemma BlockContinues(pdt: Datatype, lens: seq<nat>, disps: seq<int>, types: seq<Datatype>, bs: seq<Block>, f: Flags,
                       closed: seq<Placed>, i: nat, t: Datatype, len: nat, disp: int)
    requires |types| == |lens| == |disps| && 1 <= i < |types| && Parts(pdt, lens, disps, types, bs, f)
    requires StructOk(pdt, lens, disps, types, bs, f, closed, i, t, len, disp)
    requires types[i] == t && disps[i] == disp + len * t.Extent()
    ensures StructOk(pdt, lens, disps, types, bs, f, closed, i + 1, t, len + lens[i], disp)
  {
    MergingExtends(pdt, t, len, disp, bs, StructPlaces(types, lens, disps), f, closed, i, lens[i], disps[i]);
  }

  /** The turn in which it does not. */
  method CloseBlock(pdt: Datatype, lens: seq<nat>, disps: seq<int>, types: seq<Datatype>, ghost bs: seq<Block>,
                    ghost f: Flags, ghost closed: seq<Placed>, ghost i: nat, t: Datatype, len: nat, disp: int,
                    extent: int)
    returns (ghost now: seq<Placed>)
    requires |types| == |lens| == |disps| && 1 <= i < |types| && Parts(pdt, lens, disps, types, bs, f)
    requires StructOk(pdt, lens, disps, types, bs, f, closed, i, t, len, disp) && extent == t.Extent()
    modifies pdt
    ensures Parts(pdt, lens, disps, types, bs, f)
    ensures StructOk(pdt, lens, disps, types, bs, f, now, i + 1, types[i], lens[i], disps[i])
  {
    now := closed + [PlacedOf(t, len, disp)];
    Close(pdt, t, len, disp, extent, types[i], bs, StructPlaces(types, lens, disps), f, closed, i);
  }

  /** One turn of the loop. */
  method Component(pdt: Datatype, lens: seq<nat>, disps: seq<int>, types: seq<Datatype>, ghost bs: seq<Block>,
                   ghost f: Flags, ghost closed: seq<Placed>, i: nat, t: Datatype, len: nat, disp: int, extent: int,
                   endto: int)
    returns (lastType: Datatype, lastBlock: nat, lastDisp: int, lastExtent: int, ghost now: seq<Placed>)
    requires |types| == |lens| == |disps| && 1 <= i < |types| && Parts(pdt, lens, disps, types, bs, f)
    requires StructOk(pdt, lens, disps, types, bs, f, closed, i, t, len, disp)
    requires extent == t.Extent() && endto == disp + len * extent
    modifies pdt
    ensures Parts(pdt, lens, disps, types, bs, f)
    ensures StructOk(pdt, lens, disps, types, bs, f, now, i + 1, lastType, lastBlock, lastDisp)
    ensures lastExtent == lastType.Extent()
  {
    if types[i] == t && disps[i] == endto {
      BlockContinues(pdt, lens, disps, types, bs, f, closed, i, t, len, disp);
      lastType, lastBlock, lastDisp, lastExtent, now := t, len + lens[i], disp, extent, closed;
    } else {
      now := CloseBlock(pdt, lens, disps, types, bs, f, closed, i, t, len, disp, extent);
      lastType, lastBlock, lastDisp := types[i], lens[i], disps[i];
      lastExtent := lastType.ub - lastType.lb;
    }
  }

  /** The loop: it ends with one block that is still open. */
  method Components(pdt: Datatype, lens: seq<nat>, disps: seq<int>, types: seq<Datatype>, ghost bs: seq<Block>,
                    ghost f: Flags)
    returns (lastType: Datatype, lastBlock: nat, lastDisp: int, lastExtent: int, ghost closed: seq<Placed>)
    requires |types| == |lens| == |disps| >= 1 && Parts(pdt, lens, disps, types, bs, f)
    requires StructOk(pdt, lens, disps, types, bs, f, [], 1, types[0], lens[0], disps[0])
    modifies pdt
    ensures StructOk(pdt, lens, disps, types, bs, f, closed, |types|, lastType, lastBlock, lastDisp)
    ensures lastExtent == lastType.Extent()
  {
    closed := [];
    lastType, lastBlock, lastDisp := types[0], lens[0], disps[0];
    lastExtent := lastType.ub - lastType.lb;
    var endto := disps[0] + lastBlock * lastExtent;
    for i := 1 to |types|
      invariant Parts(pdt, lens, disps, types, bs, f)
      invariant StructOk(pdt, lens, disps, types, bs, f, closed, i, lastType, lastBlock, lastDisp)
      invariant lastExtent == lastType.Extent() && endto == lastDisp + lastBlock * lastExtent
    {
      lastType, lastBlock, lastDisp, lastExtent, closed :=
        Component(pdt, lens, disps, types, bs, f, closed, i, lastType, lastBlock, lastDisp, lastExtent, endto);
      endto := lastDisp + lastBlock * lastExtent;
    }
  }

  /** ompi_datatype_create_struct; blocks are merged when the very same datatype continues.  `bs` are
      the blocks by which the type map is judged, `f` the flags that all components have in common, if they have. */
  method CreateStruct(lens: seq<nat>, disps: seq<int>, types: seq<Datatype>, ghost bs: seq<Block>, ghost f: Flags)
    returns (pdt: Datatype)
    requires |types| == |lens| == |disps| && AllValid(types) && StructBlocks(bs, types, lens, disps)
    requires AllHaveFlags(types, f)
    ensures fresh(pdt) && pdt.Valid()
    ensures pdt.tmap == Blocks(bs) && HasBlocks(pdt, f, StructPlaces(types, lens, disps))
    ensures types != [] && lens[|types| - 1] >= 1 && OneGrain(types) ==> SameGrain(pdt, types[|types| - 1])
  {
    pdt := new Datatype();
    ghost var ps := StructPlaces(types, lens, disps);
    NothingYet(pdt, f);
    if |types| == 0 {
      return;
    }
    MergingBegins(pdt, types[0], lens[0], disps[0], bs, ps, f);
    var lastType, lastBlock, lastDisp, lastExtent, closed := Components(pdt, lens, disps, types, bs, f);
    Finish(pdt, lastType, lastBlock, lastDisp, lastExtent, bs, ps, f, closed);
    assert StructPlaces(types, lens, disps) == ps;
  }
}
