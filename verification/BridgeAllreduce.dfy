/** The buffers of ompi_comm_allreduce_intra_bridge (ompi/communicator/comm_cid.c): what the leader's loop
    computes, and that the exchange of the two groups' results reduces over the members of both. */
module BridgeAllreduce {
  import opened BridgeProtocol
  import opened Reduction

  // ---------------------------------------------------------------------------
  // The operations, number by number and buffer by buffer
  // ---------------------------------------------------------------------------

  datatype Op = Sum | Prod | Max | Min | Other

  function Apply(op: Op, x: int, y: int): (z: int) {
    match op
    case Sum => x + y
    case Prod => x * y
    case Max => if x > y then x else y
    case Min => if x < y then x else y
    case Other => x
  }

  function Combined(op: Op, x: seq<int>, y: seq<int>): (z: seq<int>)
    ensures |z| == if |x| == |y| then |x| else 0
    ensures |x| == |y| ==> forall j :: 0 <= j < |z| ==> z[j] == Apply(op, x[j], y[j])
  {
    if |x| != |y| || x == [] then []
    else
      var n := |x| - 1;
      Combined(op, x[..n], y[..n]) + [Apply(op, x[n], y[n])]
  }

  function IntOp(op: Op): (f: (int, int) -> int) { (x, y) => Apply(op, x, y) }

  function BufferOp(op: Op): (f: (seq<int>, seq<int>) -> seq<int>) { (x, y) => Combined(op, x, y) }

  lemma CombinedLaws(op: Op)
    requires !op.Other?
    ensures Associative(BufferOp(op)) && Commutative(BufferOp(op))
  {
    var f := BufferOp(op);
    forall a, b, c
      ensures Associates(f, a, b, c)
    {
      forall j | 0 <= j < |f(f(a, b), c)|
        ensures f(f(a, b), c)[j] == f(a, f(b, c))[j]
      {
        ApplyAssociates(op, a[j], b[j], c[j]);
      }
      assert f(f(a, b), c) == f(a, f(b, c));
    }
    forall a, b
      ensures Commutes(f, a, b)
    {
      assert f(a, b) == f(b, a);
    }
  }

  lemma ApplyAssociates(op: Op, x: int, y: int, z: int)
    requires !op.Other?
    ensures Apply(op, Apply(op, x, y), z) == Apply(op, x, Apply(op, y, z))
  {
    if op.Prod? {
      assert (x * y) * z == x * (y * z);
    }
  }

  /** The sum has the unit 0 and can be undone, the product has the unit 1 and distributes over the sum, and the
      maximum and the minimum are one of the two and bound both. */
  lemma OperationLaws(x: int, y: int, z: int)
    ensures Apply(Sum, x, 0) == x && Apply(Sum, Apply(Sum, x, y), -y) == x && Apply(Sum, x, 1) > x
    ensures Apply(Prod, x, 1) == x && Apply(Prod, x, Apply(Sum, y, z)) == Apply(Sum, Apply(Prod, x, y), Apply(Prod, x, z))
    ensures Apply(Max, x, y) in {x, y} && Apply(Max, x, y) >= x && Apply(Max, x, y) >= y
    ensures Apply(Min, x, y) in {x, y} && Apply(Min, x, y) <= x && Apply(Min, x, y) <= y
  {
    assert x * (y + z) == x * y + x * z;
  }

  function Column(buffers: seq<seq<int>>, j: nat): (c: seq<int>)
    requires forall i :: 0 <= i < |buffers| ==> j < |buffers[i]|
    ensures |c| == |buffers|
  {
    if buffers == [] then [] else Column(buffers[..|buffers| - 1], j) + [buffers[|buffers| - 1][j]]
  }

  /** Reducing buffers is reducing each place of them. */
  lemma {:induction false} ReduceByColumn(op: Op, buffers: seq<seq<int>>, count: nat, j: nat)
    requires buffers != [] && (forall i :: 0 <= i < |buffers| ==> |buffers[i]| == count) && j < count
    ensures |Reduce(BufferOp(op), buffers)| == count
    ensures Reduce(BufferOp(op), buffers)[j] == Reduce(IntOp(op), Column(buffers, j))
  {
    var n := |buffers| - 1;
    assert Column(buffers, j)[..n] == Column(buffers[..n], j);
    if n > 0 {
      ReduceByColumn(op, buffers[..n], count, j);
    } else {
      assert Column(buffers, j) == [buffers[0][j]];
    }
  }

  /** The leader's loop: `tmp` is the result of its own group, `out` what the other leader sent.
      Unknown operations are refused before anything is exchanged. */
  method LeaderReduce(op: Op, tmp: array<int>, out: array<int>) returns (ok: bool)
    requires tmp.Length == out.Length && tmp != out
    modifies out
    ensures ok <==> !op.Other?
    ensures out[..] == if ok then Combined(op, old(out[..]), tmp[..]) else old(out[..])
  {
    if op.Other? {
      return false;
    }
    ok := true;
    for i := 0 to out.Length
      invariant forall j :: 0 <= j < i ==> out[j] == Apply(op, old(out[j]), tmp[j])
      invariant forall j :: i <= j < out.Length ==> out[j] == old(out[j])
    {
      match op {
        case Max => if tmp[i] > out[i] { out[i] := tmp[i]; }
        case Min => if tmp[i] < out[i] { out[i] := tmp[i]; }
        case Sum => out[i] := out[i] + tmp[i];
        case Prod => out[i] := out[i] * tmp[i];
      }
    }
  }

  // ---------------------------------------------------------------------------
  // The result over both groups
  // ---------------------------------------------------------------------------

  /** The buffers of `count` integers that the members of the two groups bring. */
  datatype Groups = Groups(op: Op, count: nat, inputs: Pair<seq<seq<int>>>, leader: Pair<nat>)

  predicate BuffersOk(buffers: seq<seq<int>>, count: nat) {
    forall i :: 0 <= i < |buffers| ==> |buffers[i]| == count
  }

  predicate ValidGroups(g: Groups) {
    && g.leader.here < |g.inputs.here| && BuffersOk(g.inputs.here, g.count)
    && g.leader.there < |g.inputs.there| && BuffersOk(g.inputs.there, g.count)
  }

  function Protocol(g: Groups): (b: Bridge<seq<int>>)
    requires ValidGroups(g)
  {
    var local := Pair(Reduce(BufferOp(g.op), g.inputs.here), Reduce(BufferOp(g.op), g.inputs.there));
    Bridge(g.op.Other?, BufferOp(g.op), local, Pair(|g.inputs.here|, |g.inputs.there|), g.leader)
  }

  /** The two results joined are the reduction over the union, place by place and from either side. */
  lemma TotalIsUnion(g: Groups, j: nat)
    requires ValidGroups(g) && !g.op.Other? && j < g.count
    ensures ValidBridge(Protocol(g)) && |Total(Protocol(g))| == g.count
    ensures Total(Protocol(g))[j] == Reduce(IntOp(g.op), Column(g.inputs.here + g.inputs.there, j))
  {
    CombinedLaws(g.op);
    ReduceConcat(BufferOp(g.op), g.inputs.here, g.inputs.there);
    assert Commutes(BufferOp(g.op), Protocol(g).local.here, Protocol(g).local.there);
    ReduceByColumn(g.op, g.inputs.here + g.inputs.there, g.count, j);
  }

  /** When nothing more can happen, every member of both groups has at each place the reduction of
      that place over the members of both. */
  lemma AllHaveUnion(g: Groups, steps: seq<Step>, s: State<seq<int>>, k: Id, j: nat)
    requires ValidGroups(g) && !g.op.Other? && j < g.count && k.rank < |g.inputs.At(k.side)|
    requires Reaches(Protocol(g), steps, s) && forall step :: !Forced(Protocol(g), s, step)
    ensures k in s.members && s.members[k].pc == Done && |s.members[k].out| == g.count
    ensures s.members[k].out[j] == Reduce(IntOp(g.op), Column(g.inputs.here + g.inputs.there, j))
  {
    BridgeDelivers(Protocol(g), steps, s, k);
    TotalIsUnion(g, j);
  }
}
