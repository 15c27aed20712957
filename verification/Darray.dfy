/** Distributed arrays (ompi/datatype/ompi_datatype_create_darray.c): which indices of a dimension
    block() and cyclic() select for a process, and which process of the grid a rank is.  Together the
    ranks own disjoint parts that cover the whole array (section 4.1.4 of MPI-3.1). */
module Darray {
  import opened Arithmetic
  import opened Options

  datatype Distribution = Block | Cyclic | NoDistribution

  /** `darg` is None for MPI_DISTRIBUTE_DFLT_DARG. */
  datatype Dim = Dim(gsize: int, distrib: Distribution, darg: Option<int>, psize: int)

  /** The indices a process gets in one dimension: `count` runs of `blk` indices at distance `stride`,
      and a last run of `rem`, shifted by `offset`. */
  datatype Piece = Piece(offset: int, count: int, blk: int, stride: int, rem: int)

  ghost predicate Selects(p: Piece, x: int) {
    exists i: int, j: int {:trigger At(p, i, j)} :: InRuns(p, i, j) && x == At(p, i, j)
  }

  ghost predicate InRuns(p: Piece, i: int, j: int) {
    (0 <= i < p.count && 0 <= j < p.blk) || (i == p.count && 0 <= j < p.rem)
  }

  /** The runs do not overlap, and the last one is a shorter one. */
  predicate Regular(p: Piece) { p.offset >= 0 && p.count >= 0 && 0 <= p.rem < p.blk <= p.stride }

  function At(p: Piece, i: int, j: int): (x: int) { p.offset + i * p.stride + j }

  // ---------------------------------------------------------------------------
  // block()
  // ---------------------------------------------------------------------------

  function BlockSize(gsize: int, nprocs: int, darg: Option<int>): (b: int)
    requires nprocs >= 1
  {
    if darg.None? then (gsize + nprocs - 1) / nprocs else darg.value
  }

  /** The default block size is the least with which `nprocs` blocks cover the dimension. */
  lemma DefaultIsLeast(gsize: int, nprocs: int, b: int)
    requires gsize >= 1 && nprocs >= 1
    ensures b >= BlockSize(gsize, nprocs, None) <==> b * nprocs >= gsize
  {
    var size := BlockSize(gsize, nprocs, None);
    DivMod(gsize + nprocs - 1, nprocs);
    assert size * nprocs >= gsize > (size - 1) * nprocs;
    ProductBound(b - size, nprocs);
    ProductBound(b - size + 1, nprocs);
    assert (b - size) * nprocs == b * nprocs - size * nprocs;
    assert (b - size + 1) * nprocs == b * nprocs - (size - 1) * nprocs;
  }

  /** block(): the run of process `rank`, which is process x / b's for every index x. */
  method BlockPart(gsize: int, nprocs: int, rank: int, darg: Option<int>) returns (p: Piece)
    requires gsize >= 1 && 0 <= rank < nprocs && (darg.Some? ==> darg.value >= 1)
    ensures forall x :: Selects(p, x) <==> 0 <= x < gsize && x / BlockSize(gsize, nprocs, darg) == rank
    ensures Regular(p) && p.blk == p.stride == 1
  {
    var blksize := if darg.None? then (gsize + nprocs - 1) / nprocs else darg.value;
    DefaultBlock(gsize, nprocs);
    var j := gsize - blksize * rank;
    var mysize := if blksize < j then blksize else j;
    if mysize < 0 {
      mysize := 0;
    }
    var offset := blksize * rank;
    if mysize == 0 {
      offset := 0;
    }
    p := Piece(offset, mysize, 1, 1, 0);
    BlockRun(p, gsize, blksize, rank);
  }

  /** The run that block() computes. */
  lemma BlockRun(p: Piece, gsize: int, b: int, rank: int)
    requires gsize >= 1 && b >= 1 && rank >= 0
    requires var mysize := Max(Min(b, gsize - b * rank), 0); p == Piece(if mysize == 0 then 0 else b * rank, mysize, 1, 1, 0)
    ensures forall x :: Selects(p, x) <==> 0 <= x < gsize && x / b == rank
    ensures Regular(p)
  {
    ProductSign(b, rank);
    forall x
      ensures Selects(p, x) <==> 0 <= x < gsize && x / b == rank
    {
      BlockOwner(p, x);
      BlockOf(x, b, rank);
    }
  }

  lemma DefaultBlock(gsize: int, nprocs: int)
    requires gsize >= 1 && nprocs >= 1
    ensures (gsize + nprocs - 1) / nprocs >= 1
    ensures nprocs * ((gsize + nprocs - 1) / nprocs) >= gsize
  {
    var n := gsize + nprocs - 1;
    assert n == (n / nprocs) * nprocs + n % nprocs;
    ProductBound(n / nprocs, nprocs);
  }

  lemma BlockOwner(p: Piece, x: int)
    requires p.blk == 1 && p.stride == 1 && p.rem == 0
    ensures Selects(p, x) <==> p.offset <= x < p.offset + p.count
  {
    if p.offset <= x < p.offset + p.count {
      assert InRuns(p, x - p.offset, 0) && x == At(p, x - p.offset, 0);
    }
  }

  /** Index x lies in block `rank` exactly when x / b says so. */
  lemma BlockOf(x: int, b: int, rank: int)
    requires b >= 1
    ensures x / b == rank <==> b * rank <= x < b * rank + b
  {
    if b * rank <= x < b * rank + b {
      DivisionIsUnique(x, b, rank, x - b * rank);
    } else {
      assert x == (x / b) * b + x % b;
    }
  }

  // ---------------------------------------------------------------------------
  // cyclic()
  // ---------------------------------------------------------------------------

  /** cyclic(): every nprocs-th block of `b` indices. */
  method CyclicPart(gsize: int, nprocs: int, rank: int, darg: Option<int>) returns (p: Piece)
    requires gsize >= 1 && 0 <= rank < nprocs && (darg.Some? ==> darg.value >= 1)
    ensures var b := if darg.None? then 1 else darg.value;
            && (forall x :: Selects(p, x) <==> 0 <= x < gsize && (x / b) % nprocs == rank)
            && Regular(p) && p.blk == b && p.stride == nprocs * b
  {
    var blksize := if darg.None? then 1 else darg.value;
    var stIndex := rank * blksize;
    var endIndex := gsize - 1;
    var localSize;
    ProductBound(nprocs, blksize);
    if endIndex < stIndex {
      localSize := 0;
    } else {
      localSize := ((endIndex - stIndex + 1) / (nprocs * blksize)) * blksize;
      var rem := (endIndex - stIndex + 1) % (nprocs * blksize);
      localSize := localSize + (if rem < blksize then rem else blksize);
    }
    var count := localSize / blksize;
    var offset := rank * blksize;
    if localSize == 0 {
      offset := 0;
    }
    p := Piece(offset, count, blksize, nprocs * blksize, localSize % blksize);
    CyclicRuns(p, gsize, nprocs, rank, blksize, localSize);
  }

  /** The runs that cyclic() computes from the number of indices the process gets. */
  lemma CyclicRuns(p: Piece, gsize: int, nprocs: int, rank: int, b: int, localSize: int)
    requires gsize >= 1 && 0 <= rank < nprocs && b >= 1
    requires p == Piece(if localSize == 0 then 0 else rank * b, localSize / b, b, nprocs * b, localSize % b)
    requires var total := gsize - rank * b;
             && nprocs * b >= b
             && localSize == if total <= 0 then 0 else (total / (nprocs * b)) * b + Min(total % (nprocs * b), b)
    ensures forall x :: Selects(p, x) <==> 0 <= x < gsize && (x / b) % nprocs == rank
    ensures Regular(p)
  {
    var total := gsize - rank * b;
    ProductSign(rank, b);
    if total > 0 {
      LocalSize(total, nprocs * b, b, localSize);
    }
    DivMod(localSize, b);
    forall x
      ensures Selects(p, x) <==> 0 <= x < gsize && (x / b) % nprocs == rank
    {
      CyclicOwner(x, b, nprocs, rank);
      if total <= 0 {
        NothingSelected(p, x);
      } else {
        RunsCover(p, total, x - rank * b);
      }
    }
  }

  lemma NothingSelected(p: Piece, x: int)
    requires p.count == 0 && p.rem == 0
    ensures !Selects(p, x)
  {
  }

  /** A process owns `x` when, counted from its first index, x falls into the first block of a round. */
  lemma CyclicOwner(x: int, b: int, nprocs: int, rank: int)
    requires b >= 1 && 0 <= rank < nprocs
    ensures nprocs * b >= b
    ensures 0 <= x && (x / b) % nprocs == rank <==> x >= rank * b && (x - rank * b) % (nprocs * b) < b
  {
    ProductBound(nprocs, b);
    if 0 <= x && (x / b) % nprocs == rank {
      OwnerGivesRound(x, b, nprocs, rank);
    }
    if x >= rank * b && (x - rank * b) % (nprocs * b) < b {
      RoundGivesOwner(x, b, nprocs, rank);
    }
  }

  lemma OwnerGivesRound(x: int, b: int, nprocs: int, rank: int)
    requires b >= 1 && 0 <= rank < nprocs && nprocs * b >= b && 0 <= x && (x / b) % nprocs == rank
    ensures x >= rank * b && (x - rank * b) % (nprocs * b) < b
  {
    var q, s := x / b, x % b;
    var i := q / nprocs;
    DivMod(x, b);
    DivMod(q, nprocs);
    Regroup(q, i, nprocs, rank, b);
    InRound(x, x - rank * b, nprocs * b, i, s, b);
  }

  lemma InRound(x: int, y: int, p: int, i: int, s: int, b: int)
    requires y == i * p + s && 0 <= s < b <= p && i >= 0
    ensures y >= 0 && y % p < b
  {
    ProductSign(i, p);
    DivisionIsUnique(y, p, i, s);
  }

  lemma RoundGivesOwner(x: int, b: int, nprocs: int, rank: int)
    requires b >= 1 && 0 <= rank < nprocs && nprocs * b >= b && x >= rank * b && (x - rank * b) % (nprocs * b) < b
    ensures 0 <= x && (x / b) % nprocs == rank
  {
    var y := x - rank * b;
    var i, s := y / (nprocs * b), y % (nprocs * b);
    DivMod(y, nprocs * b);
    var q := i * nprocs + rank;
    Regroup(q, i, nprocs, rank, b);
    ProductSign(rank, b);
    ProductSign(i, nprocs * b);
    DivisionIsUnique(x, b, q, s);
    DivisionIsUnique(q, nprocs, i, rank);
  }

  /** What local_size counts: full blocks, and the part of the last one. */
  lemma LocalSize(total: int, p: int, b: int, localSize: int)
    requires total >= 1 && p >= b >= 1
    requires localSize == (total / p) * b + (if total % p < b then total % p else b)
    ensures localSize > 0
    ensures total % p < b ==> localSize / b == total / p && localSize % b == total % p
    ensures total % p >= b ==> localSize / b == total / p + 1 && localSize % b == 0
  {
    assert total == (total / p) * p + total % p;
    if total % p < b {
      DivisionIsUnique(localSize, b, total / p, total % p);
    } else {
      DivisionIsUnique(localSize, b, total / p + 1, 0);
    }
    assert total / p >= 1 ==> (total / p) * b >= b by { ProductBound(total / p, b); }
  }

  /** The runs are the indices that fall into the first block of a round, up to the last index. */
  lemma RunsCover(p: Piece, total: int, y: int)
    requires total >= 1 && p.stride >= p.blk >= 1
    requires total % p.stride < p.blk ==> p.count == total / p.stride && p.rem == total % p.stride
    requires total % p.stride >= p.blk ==> p.count == total / p.stride + 1 && p.rem == 0
    ensures Selects(p, p.offset + y) <==> 0 <= y < total && y % p.stride < p.blk
  {
    var q, r := total / p.stride, total % p.stride;
    DivMod(total, p.stride);
    if 0 <= y < total && y % p.stride < p.blk {
      DivMod(y, p.stride);
      RunHas(p, total, q, r, y, y / p.stride, y % p.stride);
    }
    if Selects(p, p.offset + y) {
      var i: int, j: int :| InRuns(p, i, j) && p.offset + y == At(p, i, j);
      RunIsInside(p, total, q, r, y, i, j);
      DivisionIsUnique(y, p.stride, i, j);
    }
  }

  ghost predicate Counts(p: Piece, q: int, r: int) {
    && 0 <= q && 0 <= r < p.stride && p.stride >= p.blk >= 1
    && (if r < p.blk then p.count == q && p.rem == r else p.count == q + 1 && p.rem == 0)
  }

  lemma RunHas(p: Piece, total: int, q: int, r: int, y: int, i: int, j: int)
    requires Counts(p, q, r) && total == q * p.stride + r
    requires y == i * p.stride + j && 0 <= y < total && 0 <= j < p.blk
    ensures Selects(p, p.offset + y)
  {
    Lexicographic(i, j, q, r, p.stride);
    Lexicographic(0, 0, i + 1, 0, p.stride);
    Regroup(i + 1, i, 1, 1, p.stride);
    assert InRuns(p, i, j) && p.offset + y == At(p, i, j);
  }

  lemma RunIsInside(p: Piece, total: int, q: int, r: int, y: int, i: int, j: int)
    requires Counts(p, q, r) && total == q * p.stride + r
    requires InRuns(p, i, j) && p.offset + y == At(p, i, j)
    ensures 0 <= y < total && 0 <= j < p.blk && y == i * p.stride + j
  {
    Lexicographic(i, j, q, r, p.stride);
    ProductSign(i, p.stride);
  }

  // ---------------------------------------------------------------------------
  // The process grid
  // ---------------------------------------------------------------------------

  ghost predicate Sizes(ps: seq<int>) { forall i :: 0 <= i < |ps| ==> ps[i] >= 1 }

  ghost function GridSize(ps: seq<int>): (n: int)
    requires Sizes(ps)
    ensures n >= 1
  {
    if ps == [] then 1 else
      var rest := GridSize(ps[1..]);
      ProductBound(ps[0], rest);
      ps[0] * rest
  }

  /** The row-major rank of a position in the grid. */
  ghost function RankOf(coords: seq<int>, ps: seq<int>): (rank: int)
    requires |coords| == |ps| && Sizes(ps)
  {
    if ps == [] then 0 else coords[0] * GridSize(ps[1..]) + RankOf(coords[1..], ps[1..])
  }

  ghost predicate InGrid(coords: seq<int>, ps: seq<int>) {
    |coords| == |ps| && forall i :: 0 <= i < |ps| ==> 0 <= coords[i] < ps[i]
  }

  /** Peeling off one dimension at a time. */
  ghost function Coords(rank: int, ps: seq<int>): (coords: seq<int>)
    requires Sizes(ps)
    ensures |coords| == |ps|
    decreases |ps|
  {
    if ps == [] then [] else [rank / GridSize(ps[1..])] + Coords(rank % GridSize(ps[1..]), ps[1..])
  }

  lemma {:induction false} RankToCoordsToRank(rank: int, ps: seq<int>)
    requires Sizes(ps) && 0 <= rank < GridSize(ps)
    ensures InGrid(Coords(rank, ps), ps) && RankOf(Coords(rank, ps), ps) == rank
  {
    if ps != [] {
      var v := GridSize(ps[1..]);
      DivMod(rank, v);
      RankToCoordsToRank(rank % v, ps[1..]);
      Lexicographic(rank / v, rank % v, ps[0], 0, v);
      assert Coords(rank, ps)[1..] == Coords(rank % v, ps[1..]);
    }
  }

  lemma {:induction false} CoordsToRankToCoords(coords: seq<int>, ps: seq<int>)
    requires Sizes(ps) && InGrid(coords, ps)
    ensures 0 <= RankOf(coords, ps) < GridSize(ps) && Coords(RankOf(coords, ps), ps) == coords
  {
    if ps != [] {
      var v, k := GridSize(ps[1..]), RankOf(coords[1..], ps[1..]);
      CoordsToRankToCoords(coords[1..], ps[1..]);
      DivisionIsUnique(RankOf(coords, ps), v, coords[0], k);
      Lexicographic(coords[0], k, ps[0], 0, v);
      ProductSign(coords[0], v);
    }
  }

  lemma PeelOff(prefix: seq<int>, rank: int, ps: seq<int>, i: nat)
    requires Sizes(ps) && i < |ps|
    ensures var v := GridSize(ps[i + 1..]);
            && GridSize(ps[i..]) / ps[i] == v
            && prefix + Coords(rank, ps[i..]) == prefix + [rank / v] + Coords(rank % v, ps[i + 1..])
  {
    assert ps[i..][1..] == ps[i + 1..];
    DivisionIsUnique(GridSize(ps[i..]), ps[i], GridSize(ps[i + 1..]), 0);
  }

  /** The loop that turns a rank into its position in the grid. */
  method RankToCoords(rank: int, size: int, ps: seq<int>) returns (coords: array<int>)
    requires Sizes(ps) && size == GridSize(ps) && 0 <= rank < size
    ensures fresh(coords) && coords[..] == Coords(rank, ps)
  {
    var tmpRank, procs := rank, size;
    coords := new int[|ps|];
    assert ps[0..] == ps;
    for i := 0 to |ps|
      invariant procs == GridSize(ps[i..])
      invariant coords[..i] + Coords(tmpRank, ps[i..]) == Coords(rank, ps)
    {
      PeelOff(coords[..i], tmpRank, ps, i);
      ghost var before := coords[..i];
      procs := procs / ps[i];
      coords[i] := tmpRank / procs;
      tmpRank := tmpRank % procs;
      assert coords[..i + 1] == before + [coords[i]];
    }
  }

  // ---------------------------------------------------------------------------
  // The whole array
  // ---------------------------------------------------------------------------

  /** What MPI demands of a dimension; for BLOCK the blocks must suffice. */
  predicate Legal(d: Dim) {
    && d.gsize >= 1 && d.psize >= 1 && (d.darg.Some? ==> d.darg.value >= 1)
    && (d.distrib.Block? && d.darg.Some? ==> d.darg.value * d.psize >= d.gsize)
    && (d.distrib.NoDistribution? ==> d.psize == 1)
  }

  /** The process of the dimension that owns index `x`. */
  function OwnerOf(d: Dim, x: int): (p: int)
    requires Legal(d)
  {
    match d.distrib
    case Block => DefaultBlock(d.gsize, d.psize); x / BlockSize(d.gsize, d.psize, d.darg)
    case Cyclic => (x / (if d.darg.None? then 1 else d.darg.value)) % d.psize
    case NoDistribution => 0
  }

  lemma OwnerInGrid(d: Dim, x: int)
    requires Legal(d) && 0 <= x < d.gsize
    ensures 0 <= OwnerOf(d, x) < d.psize
  {
    if d.distrib.Block? {
      DefaultBlock(d.gsize, d.psize);
      var b := BlockSize(d.gsize, d.psize, d.darg);
      DivMod(x, b);
      Lexicographic(x / b, x % b, d.psize, 0, b);
    }
  }

  /** BLOCK covers a dimension exactly when there are enough blocks. */
  lemma BlockCovers(gsize: int, nprocs: int, b: int)
    requires gsize >= 1 && nprocs >= 1 && b >= 1
    ensures (forall x :: 0 <= x < gsize ==> 0 <= x / b < nprocs) <==> b * nprocs >= gsize
  {
    if b * nprocs >= gsize {
      forall x | 0 <= x < gsize
        ensures 0 <= x / b < nprocs
      {
        DivMod(x, b);
        Lexicographic(x / b, x % b, nprocs, 0, b);
      }
    } else {
      ProductSign(nprocs, b);
      DivisionIsUnique(b * nprocs, b, nprocs, 0);
    }
  }

  ghost function Grid(dims: seq<Dim>): (ps: seq<int>)
    ensures |ps| == |dims| && forall i :: 0 <= i < |dims| ==> ps[i] == dims[i].psize
  {
    seq(|dims|, i requires 0 <= i < |dims| => dims[i].psize)
  }

  ghost predicate AllLegal(dims: seq<Dim>) { forall i :: 0 <= i < |dims| ==> Legal(dims[i]) }
}
