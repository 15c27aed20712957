/** What the collectives of a round compute (ompi/communicator/comm_cid.c): a finished run of the messages of
    ompi_comm_allreduce_group or ompi_comm_allreduce_intra_bridge gives every process the maximum or minimum
    that the agreement takes. */
module CidCollectives {
  import opened BridgeAllreduce
  import BridgeProtocol
  import opened CidProtocol
  import opened Reduction
  import TreeAllreduce

  /** MPI_MAX and MPI_MIN, the two operations of a round. */
  type RoundOp = op: Op | op.Max? || op.Min? witness Max

  /** The numbers that a member has put into the reductions with this operation. */
  function Brought(op: RoundOp, m: Member): (values: seq<nat>) {
    if op.Max? then m.cands else m.votes
  }

  /** What the agreement takes as the result of round `r` of call `c`. */
  ghost predicate IsResult(op: RoundOp, sys: System, s: CidProtocol.State, c: nat, r: nat, v: nat)
    requires Shape(sys, s) && c < |sys.calls|
  {
    if op.Max? then IsMax(sys, s, c, r, v) else IsMin(sys, s, c, r, v)
  }

  /** The processes of the call by their ranks, all of which have contributed to round `r`. */
  ghost predicate Ranked(op: RoundOp, sys: System, s: CidProtocol.State, c: nat, r: nat, order: seq<nat>)
    requires Shape(sys, s) && c < |sys.calls|
  {
    && (forall q :: q in order <==> q in sys.calls[c].members)
    && forall q :: q in order ==> r < |Brought(op, s.members[Key(c, q)])|
  }

  /** The buffers of one integer with which the ranks enter the collective. */
  ghost function Buffers(op: RoundOp, sys: System, s: CidProtocol.State, c: nat, r: nat, order: seq<nat>)
    : (buffers: seq<seq<int>>)
    requires Shape(sys, s) && c < |sys.calls| && Ranked(op, sys, s, c, r, order)
    ensures |buffers| == |order| && BuffersOk(buffers, 1)
  {
    seq(|order|, i requires 0 <= i < |order| =>
      assert order[i] in order; [Brought(op, s.members[Key(c, order[i])])[r]])
  }

  predicate Bounds(op: RoundOp, v: int, w: int) { if op.Max? then w <= v else v <= w }

  lemma {:induction false} ReduceIsExtreme(op: RoundOp, values: seq<int>)
    requires values != []
    ensures Reduce(IntOp(op), values) in values
    ensures forall w :: w in values ==> Bounds(op, Reduce(IntOp(op), values), w)
  {
    var n := |values| - 1;
    if n > 0 {
      ReduceIsExtreme(op, values[..n]);
      assert values == values[..n] + [values[n]];
    }
  }

  lemma {:induction false} ColumnAt(buffers: seq<seq<int>>, j: nat, i: nat)
    requires (forall k :: 0 <= k < |buffers| ==> j < |buffers[k]|) && i < |buffers|
    ensures Column(buffers, j)[i] == buffers[i][j]
  {
    if i < |buffers| - 1 {
      ColumnAt(buffers[..|buffers| - 1], j, i);
    }
  }

  /** The list holds what the members have put into round `r`, and nothing else. */
  ghost predicate Gathers(op: RoundOp, sys: System, s: CidProtocol.State, c: nat, r: nat, values: seq<int>)
    requires Shape(sys, s) && c < |sys.calls|
  {
    && (forall q :: q in sys.calls[c].members ==>
          r < |Brought(op, s.members[Key(c, q)])| && Brought(op, s.members[Key(c, q)])[r] in values)
    && forall i :: 0 <= i < |values| ==>
         exists q :: q in sys.calls[c].members && Brought(op, s.members[Key(c, q)])[r] == values[i]
  }

  lemma ColumnGathers(op: RoundOp, sys: System, s: CidProtocol.State, c: nat, r: nat, order: seq<nat>)
    requires Shape(sys, s) && c < |sys.calls| && Ranked(op, sys, s, c, r, order)
    ensures Gathers(op, sys, s, c, r, Column(Buffers(op, sys, s, c, r, order), 0))
  {
    var buffers := Buffers(op, sys, s, c, r, order);
    var column := Column(buffers, 0);
    forall i | 0 <= i < |order|
      ensures order[i] in sys.calls[c].members && column[i] == Brought(op, s.members[Key(c, order[i])])[r]
    {
      assert order[i] in order;
      ColumnAt(buffers, 0, i);
    }
    forall q | q in sys.calls[c].members
      ensures r < |Brought(op, s.members[Key(c, q)])| && Brought(op, s.members[Key(c, q)])[r] in column
    {
      var i :| 0 <= i < |order| && order[i] == q;
      assert column[i] in column;
    }
  }

  /** Maximum or minimum, in one form for both. */
  ghost predicate IsExtreme(op: RoundOp, sys: System, s: CidProtocol.State, c: nat, r: nat, v: nat)
    requires Shape(sys, s) && c < |sys.calls|
  {
    && (forall q :: q in sys.calls[c].members ==>
          r < |Brought(op, s.members[Key(c, q)])| && Bounds(op, v, Brought(op, s.members[Key(c, q)])[r]))
    && exists q :: q in sys.calls[c].members && Brought(op, s.members[Key(c, q)])[r] == v
  }

  lemma ExtremeIsResult(op: RoundOp, sys: System, s: CidProtocol.State, c: nat, r: nat, v: nat)
    requires Shape(sys, s) && c < |sys.calls| && IsExtreme(op, sys, s, c, r, v)
    ensures IsResult(op, sys, s, c, r, v)
  {
    if op.Max? {
      assert IsMax(sys, s, c, r, v);
    } else {
      assert IsMin(sys, s, c, r, v);
    }
  }

  lemma ReductionIsExtreme(op: RoundOp, sys: System, s: CidProtocol.State, c: nat, r: nat, values: seq<int>)
    requires Shape(sys, s) && c < |sys.calls| && Gathers(op, sys, s, c, r, values) && values != []
    ensures var v := Reduce(IntOp(op), values); v >= 0 && IsExtreme(op, sys, s, c, r, v)
  {
    ReduceIsExtreme(op, values);
    var k :| 0 <= k < |values| && values[k] == Reduce(IntOp(op), values);
  }

  lemma OneResult(op: RoundOp, sys: System, s: CidProtocol.State, c: nat, r: nat, v: nat, w: nat)
    requires Shape(sys, s) && c < |sys.calls| && IsResult(op, sys, s, c, r, v) && IsResult(op, sys, s, c, r, w)
    ensures v == w
  {
  }

  /** The reduction of the buffers is the one value that the agreement takes. */
  lemma ColumnIsResult(op: RoundOp, sys: System, s: CidProtocol.State, c: nat, r: nat, order: seq<nat>)
    requires Shape(sys, s) && c < |sys.calls| && Ranked(op, sys, s, c, r, order) && order != []
    ensures var v := Reduce(IntOp(op), Column(Buffers(op, sys, s, c, r, order), 0));
            v >= 0 && forall w: nat :: IsResult(op, sys, s, c, r, w) <==> w == v
  {
    var values := Column(Buffers(op, sys, s, c, r, order), 0);
    ColumnGathers(op, sys, s, c, r, order);
    ReductionIsExtreme(op, sys, s, c, r, values);
    ExtremeIsResult(op, sys, s, c, r, Reduce(IntOp(op), values));
    forall w: nat | IsResult(op, sys, s, c, r, w)
      ensures w == Reduce(IntOp(op), values)
    {
      OneResult(op, sys, s, c, r, Reduce(IntOp(op), values), w);
    }
  }

  /** Up and down the tree of ranks. */
  lemma TreeGivesResult(op: RoundOp, sys: System, s: CidProtocol.State, c: nat, r: nat, order: seq<nat>,
                        steps: seq<TreeAllreduce.Step>, end: TreeAllreduce.State<seq<int>>, rank: nat)
    requires Shape(sys, s) && c < |sys.calls| && Ranked(op, sys, s, c, r, order) && rank < |order|
    requires var g := TreeAllreduce.Group(BufferOp(op), Buffers(op, sys, s, c, r, order));
             TreeAllreduce.Reaches(g, steps, end) && forall step :: !TreeAllreduce.Forced(g, end, step)
    ensures rank < |end.ranks| && end.ranks[rank].pc == TreeAllreduce.END && |end.ranks[rank].out| == 1
    ensures forall w: nat :: IsResult(op, sys, s, c, r, w) <==> end.ranks[rank].out == [w]
  {
    var buffers := Buffers(op, sys, s, c, r, order);
    CombinedLaws(op);
    var g := TreeAllreduce.Group(BufferOp(op), buffers);
    TreeAllreduce.AllreduceDelivers(g, steps, end, rank, TreeAllreduce.Link(0, 0));
    ReduceByColumn(op, buffers, 1, 0);
    ColumnIsResult(op, sys, s, c, r, order);
  }

  /** Within each of two groups, and between their leaders. */
  lemma BridgeGivesResult(op: RoundOp, sys: System, s: CidProtocol.State, c: nat, r: nat, here: seq<nat>,
                          there: seq<nat>, g: Groups, steps: seq<BridgeProtocol.Step>,
                          end: BridgeProtocol.State<seq<int>>, k: BridgeProtocol.Id)
    requires Shape(sys, s) && c < |sys.calls| && Ranked(op, sys, s, c, r, here + there)
    requires ValidGroups(g) && g.op == op && g.count == 1
    requires g.inputs.here + g.inputs.there == Buffers(op, sys, s, c, r, here + there)
    requires |g.inputs.here| == |here| && k.rank < |g.inputs.At(k.side)|
    requires BridgeProtocol.Reaches(Protocol(g), steps, end)
             && forall step :: !BridgeProtocol.Forced(Protocol(g), end, step)
    ensures k in end.members && end.members[k].pc == BridgeProtocol.Done && |end.members[k].out| == 1
    ensures forall w: nat :: IsResult(op, sys, s, c, r, w) <==> end.members[k].out == [w]
  {
    AllHaveUnion(g, steps, end, k, 0);
    ColumnIsResult(op, sys, s, c, r, here + there);
  }
}
