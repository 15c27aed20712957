/** Distributed arrays on which ompi_datatype_create_darray (ompi/datatype/ompi_datatype_create_darray.c) goes
    wrong, and one on which it does not. */
module DarrayExamples {
  import opened CellOrder
  import opened Cells
  import opened Constructors
  import opened Darray
  import opened DarrayFit
  import opened DarrayMap
  import opened DarrayType
  import opened DarrayWhole
  import opened Options
  import opened TypeMap

  /** A 2 by 4 array, whose rows of two are split between two processes and whose four rows are dealt out in
      pairs to a single one. */
  function BlockAndCyclic(): (dims: seq<Dim>) { [Dim(2, Distribution.Block, None, 2), Dim(4, Cyclic, Some(2), 1)] }

  lemma BlockAndCyclicAxes()
    ensures AllLegal(BlockAndCyclic()) && GridSize(Grid(BlockAndCyclic())) == 2
    ensures Coords(0, Grid(BlockAndCyclic())) == [0, 0]
    ensures var axes := Axes(BlockAndCyclic(), [0, 0], true); Taken(axes[0]) == 1 && Taken(axes[1]) == 4
  {
    var dims := BlockAndCyclic();
    var ps := Grid(dims);
    assert ps == [2, 1] && ps[1..] == [1] && ps[1..][1..] == [];
    assert GridSize(ps[1..]) == 1;
    assert Coords(0, ps[1..]) == [0];
  }

  lemma BlockAndCyclicFails()
    ensures AllLegal(BlockAndCyclic())
    ensures !CyclicBehindWhole([Entry(0, 0)], BlockAndCyclic(), Axes(BlockAndCyclic(), [0, 0], true), true)
  {
    BlockAndCyclicAxes();
    var dims, axes := BlockAndCyclic(), Axes(BlockAndCyclic(), [0, 0], true);
    assert BlockCyclic(DimAt(dims, true, 1)) && !WholeBefore(dims, axes, true, 1);
  }

  /** Behind a block dimension, blocks of two are laid out next to each other instead of one row apart. */
  method BlockThenCyclic() returns (r: Datatype)
    ensures AllLegal(BlockAndCyclic())
    ensures r.tmap != Part([Entry(0, 0)], 1, Axes(BlockAndCyclic(), [0, 0], true))
  {
    var oldType := new Datatype.Basic(0, 1, 1);
    BlockAndCyclicAxes();
    BlockAndCyclicFails();
    ghost var m, axes := oldType.tmap, Axes(BlockAndCyclic(), [0, 0], true);
    assert oldType.Extent() == 1 && oldType.Rounding() == 1 && InRange(oldType, axes);
    r := CreateDarray(2, 0, BlockAndCyclic(), true, oldType);
    assert r.tmap != Part(m, 1, axes);
  }

  /** The rows of the slow dimension as they should lie, and as create_hvector puts them for blocks of two
      elements of extent 1. */
  lemma BlockThenCyclicMaps()
    ensures PieceMap([Entry(0, 0)], Piece(0, 2, 2, 2, 0), 2) == [Entry(0, 0), Entry(0, 2), Entry(0, 4), Entry(0, 6)]
    ensures Blocks(Strided([Entry(0, 0)], 1, 2, 2, 4)) == [Entry(0, 0), Entry(0, 1), Entry(0, 4), Entry(0, 5)]
  {
    FourAt(2);
    FourAt(1);
    StridedIsNested([Entry(0, 0)], 1, 2, 2, 4);
  }

  lemma FourAt(e: int)
    ensures Copies(Copies([Entry(0, 0)], 2, 0, e), 2, 0, 4)
            == [Entry(0, 0), Entry(0, e), Entry(0, 4), Entry(0, 4 + e)]
  {
    TwoCopies(Entry(0, 0), e);
    TwoOfTwo([Entry(0, 0), Entry(0, e)], 4);
  }

  lemma TwoOfTwo(m: seq<Entry>, e: int)
    ensures Copies(m, 2, 0, e) == m + Shift(m, e)
  {
    CopiesOnce(m, 0, e);
    ShiftTwice(m, 0, 0);
  }

  /** A 3 by 4 array whose rows of three are not distributed. */
  function NoneAndCyclic(): (dims: seq<Dim>) { [Dim(3, NoDistribution, None, 1), Dim(4, Cyclic, Some(2), 1)] }

  lemma NoneAndCyclicAxes()
    ensures AllLegal(NoneAndCyclic()) && GridSize(Grid(NoneAndCyclic())) == 1
    ensures Coords(0, Grid(NoneAndCyclic())) == [0, 0]
    ensures var axes := Axes(NoneAndCyclic(), [0, 0], true); Taken(axes[0]) == axes[0].size
  {
    var dims := NoneAndCyclic();
    var ps := Grid(dims);
    assert ps == [1, 1] && ps[1..] == [1] && ps[1..][1..] == [];
    assert GridSize(ps[1..]) == 1;
    assert Coords(0, ps[1..]) == [0];
    var has := Axes(dims, [0, 0], true)[0].has;
    assert has(0) && has(1) && has(2);
    assert Count(has, 1) == 1 && Count(has, 2) == 2;
  }

  lemma NoneAndCyclicFits()
    ensures AllLegal(NoneAndCyclic())
    ensures CyclicBehindWhole([Entry(0, 0)], NoneAndCyclic(), Axes(NoneAndCyclic(), [0, 0], true), true)
  {
    NoneAndCyclicAxes();
    var dims, axes := NoneAndCyclic(), Axes(NoneAndCyclic(), [0, 0], true);
    assert WholeBefore(dims, axes, true, 0) && WholeBefore(dims, axes, true, 1);
  }

  /** Behind a dimension that is not distributed, blocks of two are right. */
  method NoneThenCyclic() returns (r: Datatype)
    ensures AllLegal(NoneAndCyclic())
    ensures r.tmap == Part([Entry(0, 0)], 1, Axes(NoneAndCyclic(), [0, 0], true))
  {
    var oldType := new Datatype.Basic(0, 1, 1);
    NoneAndCyclicAxes();
    NoneAndCyclicFits();
    ghost var m, axes := oldType.tmap, Axes(NoneAndCyclic(), [0, 0], true);
    assert oldType.Extent() == 1 && oldType.Rounding() == 1 && InRange(oldType, axes);
    r := CreateDarray(1, 0, NoneAndCyclic(), true, oldType);
    assert CyclicBehindWhole(m, NoneAndCyclic(), axes, true);
    assert r.tmap == Part(m, 1, axes);
  }

  /** One column of two on a single process. */
  function OneColumn(): (dims: seq<Dim>) { [Dim(1, Distribution.Block, None, 1), Dim(2, Distribution.Block, None, 1)] }

  lemma OneColumnAxes()
    ensures AllLegal(OneColumn()) && GridSize(Grid(OneColumn())) == 1 && Coords(0, Grid(OneColumn())) == [0, 0]
    ensures var axes := Axes(OneColumn(), [0, 0], true);
            && Taken(axes[0]) == 1 && Taken(axes[1]) == 2 && Volume(axes) == 2
            && Step(axes, -1, 0) == Step(axes, -1, 1) == -1
  {
    var dims := OneColumn();
    var ps := Grid(dims);
    assert ps == [1, 1] && ps[1..] == [1] && ps[1..][1..] == [];
    assert GridSize(ps[1..]) == 1;
    assert Coords(0, ps[1..]) == [0];
    var axes := Axes(dims, [0, 0], true);
    assert axes[1].has(0) && axes[1].has(1) && Count(axes[1].has, 1) == 1;
    assert axes[..0] == [];
    VolumeNext(axes, 0);
    VolumeNext(axes, 1);
    assert axes[..2] == axes;
  }

  /** Elements of extent -1 and alignment 4: the second one should lie one byte before the first. */
  method NegativeExtent() returns (r: Datatype)
    ensures AllLegal(OneColumn())
    ensures r.tmap != Part([Entry(0, 0)], -1, Axes(OneColumn(), [0, 0], true))
  {
    var oldType := new Datatype.Basic(0, 1, 4);
    oldType.Resize(0, -1);
    OneColumnAxes();
    ghost var dims, axes := OneColumn(), Axes(OneColumn(), [0, 0], true);
    r := CreateDarray(1, 0, OneColumn(), true, oldType);
    assert ExtentAfter(dims, axes, true, -1, 4, 0) == -1;
    assert Rounded(-1, 4) == 4;
    assert ExtentAfter(dims, axes, true, -1, 4, 1) == 4;
    assert !FitsAt(dims, axes, true, -1, 4, 1);
  }

  /** A 2 by 3 array whose rows are split between two processes. */
  function SplitRows(): (dims: seq<Dim>) { [Dim(2, Distribution.Block, None, 2), Dim(3, NoDistribution, None, 1)] }

  lemma SplitRowsAxes()
    ensures AllLegal(SplitRows()) && GridSize(Grid(SplitRows())) == 2 && Coords(0, Grid(SplitRows())) == [0, 0]
    ensures Volume(Axes(SplitRows(), [0, 0], false)) == 6
  {
    var dims := SplitRows();
    var ps := Grid(dims);
    assert ps == [2, 1] && ps[1..] == [1] && ps[1..][1..] == [];
    assert GridSize(ps[1..]) == 1;
    assert Coords(0, ps[1..]) == [0];
    var axes := Axes(dims, [0, 0], false);
    assert axes[..0] == [] && axes[..2] == axes;
    VolumeNext(axes, 0);
    VolumeNext(axes, 1);
  }

  lemma RowCell(i: int, j: int)
    requires 0 <= i < 2 && 0 <= j < 3
    ensures AllLegal(SplitRows())
    ensures Within(Axes(SplitRows(), [0, 0], false), 3 * i + j) <==> i == 0
  {
    var dims, idx := SplitRows(), [i, j];
    var sizes := GlobalSizes(dims);
    assert sizes == [2, 3] && sizes[..1] == [2] && sizes[..1][..0] == [] && idx[..1] == [i] && idx[..1][..0] == [];
    assert RowMajor(idx[..1], sizes[..1]) == i;
    CellOfRank(dims, [0, 0], false, idx);
    assert OwnerOf(dims[0], i) == i && OwnerOf(dims[1], j) == 0;
  }

  lemma FirstRow()
    ensures AllLegal(SplitRows())
    ensures Part([Entry(0, 0)], 1, Axes(SplitRows(), [0, 0], false)) == [Entry(0, 0), Entry(0, 1), Entry(0, 2)]
  {
    SplitRowsAxes();
    var m, axes := [Entry(0, 0)], Axes(SplitRows(), [0, 0], false);
    RowCell(0, 0);
    RowCell(0, 1);
    RowCell(0, 2);
    RowCell(1, 0);
    RowCell(1, 1);
    RowCell(1, 2);
    assert Scan(m, 1, axes, 0) == [];
    assert Scan(m, 1, axes, 1) == [Entry(0, 0)];
    assert Scan(m, 1, axes, 2) == [Entry(0, 0), Entry(0, 1)];
    assert Scan(m, 1, axes, 3) == [Entry(0, 0), Entry(0, 1), Entry(0, 2)];
    assert Scan(m, 1, axes, 4) == Scan(m, 1, axes, 3);
    assert Scan(m, 1, axes, 5) == Scan(m, 1, axes, 4);
  }

  /** In C order the first process gets the first row, which lies in one piece. */
  method RowsInCOrder() returns (r: Datatype)
    ensures r.tmap == [Entry(0, 0), Entry(0, 1), Entry(0, 2)]
  {
    var oldType := new Datatype.Basic(0, 1, 1);
    SplitRowsAxes();
    FirstRow();
    ghost var m, axes := oldType.tmap, Axes(SplitRows(), [0, 0], false);
    assert oldType.Extent() == 1 && oldType.Rounding() == 1 && InRange(oldType, axes);
    r := CreateDarray(2, 0, SplitRows(), false, oldType);
    NoBlockCyclic(m, axes);
    assert r.tmap == Part(m, 1, axes);
  }

  lemma NoBlockCyclic(m: seq<Entry>, axes: seq<Axis>)
    requires |axes| == 2 && Sized(axes)
    ensures CyclicBehindWhole(m, SplitRows(), axes, false)
  {
  }
}
