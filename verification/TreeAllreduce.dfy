/** ompi_comm_allreduce_group (ompi/communicator/comm_cid.c): a reduction up a heap-shaped tree of
    ranks followed by a broadcast down the same tree, with blocking sends and receives.

    A standard-mode send may return at once or only after its message was received; both happen
    here, and progress is shown without relying on the first. */
module TreeAllreduce {
  import opened Options
  import opened Reduction

  /** A group of `n` ranks with the buffer each one brings.  `T` is the whole buffer of `count` integers. */
  datatype Group<!T> = Group(op: (T, T) -> T, inputs: seq<T>)

  /** Where a rank stands: 0 and 1 receive from the left and right child, 2 sends to the parent,
      3 receives from it, 4 and 5 send to the children, 6 is the end.  `sending` marks a send that
      has been posted and has not returned. */
  datatype Rank<T> = Rank(pc: nat, sending: bool, out: T)

  datatype Link = Link(from: nat, to: nat)

  datatype State<T> = State(ranks: seq<Rank<T>>, wire: map<Link, seq<T>>, received: map<Link, nat>)

  const END := 6

  /** The partner of the communication at `pc`, unless it is MPI_PROC_NULL. */
  function Peer(n: nat, r: nat, pc: nat): (p: Option<nat>) {
    match pc
    case 0 => if 2 * r + 1 < n then Some(2 * r + 1) else None
    case 1 => if 2 * r + 2 < n then Some(2 * r + 2) else None
    case 2 => if r > 0 then Some((r - 1) / 2) else None
    case 3 => if r > 0 then Some((r - 1) / 2) else None
    case 4 => if 2 * r + 1 < n then Some(2 * r + 1) else None
    case 5 => if 2 * r + 2 < n then Some(2 * r + 2) else None
    case _ => None
  }

  predicate IsSend(pc: nat) { pc == 2 || pc == 4 || pc == 5 }

  datatype Step = Skip(r: nat) | Post(r: nat) | Return(r: nat) | Receive(r: nat)

  function Wire<T>(s: State<T>, l: Link): (m: seq<T>) {
    if l in s.wire then s.wire[l] else []
  }

  function Received<T>(s: State<T>, l: Link): (k: nat) {
    if l in s.received then s.received[l] else 0
  }

  ghost predicate Init<T>(g: Group<T>, s: State<T>) {
    && |s.ranks| == |g.inputs|
    && (forall r :: 0 <= r < |s.ranks| ==> s.ranks[r] == Rank(0, false, g.inputs[r]))
    && s.wire == map[] && s.received == map[]
  }

  predicate Enabled<T>(g: Group<T>, s: State<T>, step: Step) {
    var n, r := |s.ranks|, step.r;
    r < n && n == |g.inputs| && s.ranks[r].pc < END &&
    var me := s.ranks[r];
    var peer := Peer(n, r, me.pc);
    match step
    case Skip(_) => peer.None?
    case Post(_) => IsSend(me.pc) && peer.Some? && !me.sending
    case Return(_) => me.sending
    case Receive(_) => !IsSend(me.pc) && peer.Some? && Wire(s, Link(peer.value, r)) != []
  }

  /** Steps that do not rely on a send returning before its message was taken. */
  predicate Forced<T>(g: Group<T>, s: State<T>, step: Step) {
    && Enabled(g, s, step)
    && (step.Return? ==>
          var peer := Peer(|s.ranks|, step.r, s.ranks[step.r].pc);
          peer.Some? && Wire(s, Link(step.r, peer.value)) == [])
  }

  function After<T>(g: Group<T>, s: State<T>, step: Step): (s': State<T>)
    requires Enabled(g, s, step)
  {
    var r := step.r;
    var me := s.ranks[r];
    match step
    case Skip(_) => s.(ranks := s.ranks[r := me.(pc := me.pc + 1)])
    case Post(_) =>
      var l := Link(r, Peer(|s.ranks|, r, me.pc).value);
      s.(ranks := s.ranks[r := me.(sending := true)], wire := s.wire[l := Wire(s, l) + [me.out]])
    case Return(_) => s.(ranks := s.ranks[r := me.(pc := me.pc + 1, sending := false)])
    case Receive(_) =>
      var l := Link(Peer(|s.ranks|, r, me.pc).value, r);
      var msg := Wire(s, l)[0];
      State(s.ranks[r := Rank(me.pc + 1, false, if me.pc == 3 then msg else g.op(msg, me.out))],
            s.wire[l := Wire(s, l)[1..]],
            s.received[l := Received(s, l) + 1])
  }

  ghost predicate Reaches<T(!new)>(g: Group<T>, steps: seq<Step>, s: State<T>)
    decreases |steps|
  {
    if steps == [] then Init(g, s)
    else
      var last := steps[|steps| - 1];
      exists prior :: Reaches(g, steps[..|steps| - 1], prior) && Enabled(g, prior, last) && s == After(g, prior, last)
  }

  // ---------------------------------------------------------------------------
  // The invariant
  // ---------------------------------------------------------------------------

  /** The reduction of the inputs in the subtree of rank `r`, in the order the code combines them. */
  function Subtree<T>(g: Group<T>, r: nat): (t: T)
    requires r < |g.inputs|
    decreases |g.inputs| - r
  {
    var own := g.inputs[r];
    var left := if 2 * r + 1 < |g.inputs| then g.op(Subtree(g, 2 * r + 1), own) else own;
    if 2 * r + 2 < |g.inputs| then g.op(Subtree(g, 2 * r + 2), left) else left
  }

  function WithLeft<T>(g: Group<T>, r: nat): (t: T)
    requires r < |g.inputs|
  {
    if 2 * r + 1 < |g.inputs| then g.op(Subtree(g, 2 * r + 1), g.inputs[r]) else g.inputs[r]
  }

  function BufferAt<T>(g: Group<T>, r: nat, pc: nat): (t: T)
    requires r < |g.inputs|
  {
    if pc == 0 then g.inputs[r] else if pc == 1 then WithLeft(g, r) else if pc <= 3 then Subtree(g, r) else Subtree(g, 0)
  }

  ghost predicate RankOk<T>(g: Group<T>, s: State<T>, r: nat)
    requires r < |s.ranks| == |g.inputs|
  {
    var me := s.ranks[r];
    && me.pc <= END && me.out == BufferAt(g, r, me.pc)
    && (me.sending ==> IsSend(me.pc) && Peer(|s.ranks|, r, me.pc).Some?)
  }

  /** A child is its parent's left (0) or right (1) one. */
  function Side(c: nat): (b: nat)
    requires c > 0
  {
    if c % 2 == 1 then 0 else 1
  }

  function Parent(c: nat): (p: nat)
    requires c > 0
  {
    (c - 1) / 2
  }

  predicate Posted<T>(me: Rank<T>, pc: nat) { me.pc > pc || (me.pc == pc && me.sending) }

  /** Exactly one message goes up and one comes down every edge of the tree. */
  ghost predicate EdgeOk<T>(g: Group<T>, s: State<T>, c: nat)
    requires 0 < c < |s.ranks| == |g.inputs|
  {
    var p := Parent(c);
    var up, upTaken := Posted(s.ranks[c], 2), s.ranks[p].pc > Side(c);
    var down, downTaken := Posted(s.ranks[p], 4 + Side(c)), s.ranks[c].pc > 3;
    && (upTaken ==> up) && (downTaken ==> down)
    && Wire(s, Link(c, p)) == (if up && !upTaken then [Subtree(g, c)] else [])
    && Wire(s, Link(p, c)) == (if down && !downTaken then [Subtree(g, 0)] else [])
    && Received(s, Link(c, p)) == (if upTaken then 1 else 0)
    && Received(s, Link(p, c)) == (if downTaken then 1 else 0)
  }

  ghost predicate Inv<T>(g: Group<T>, s: State<T>) {
    && |s.ranks| == |g.inputs|
    && (forall r :: 0 <= r < |s.ranks| ==> RankOk(g, s, r))
    && (forall c :: 0 < c < |s.ranks| ==> EdgeOk(g, s, c))
    && (forall l :: l in s.received ==> IsEdge(|s.ranks|, l))
  }

  predicate IsEdge(n: nat, l: Link) {
    l.from < n && l.to < n && ((l.from > 0 && l.to == Parent(l.from)) || (l.to > 0 && l.from == Parent(l.to)))
  }

  lemma InitInv<T>(g: Group<T>, s: State<T>)
    requires Init(g, s)
    ensures Inv(g, s)
  {
  }

  lemma StepRank<T>(g: Group<T>, s: State<T>, step: Step)
    requires Inv(g, s) && Enabled(g, s, step)
    ensures RankOk(g, After(g, s, step), step.r)
  {
    var n, r := |s.ranks|, step.r;
    assert RankOk(g, s, r);
    if step.Receive? {
      if s.ranks[r].pc < 2 {
        assert EdgeOk(g, s, Peer(n, r, s.ranks[r].pc).value);
      } else {
        assert EdgeOk(g, s, r);
      }
    }
  }

  /** A step of the child changes its own end of the edge only. */
  lemma ChildSteps<T>(g: Group<T>, s: State<T>, step: Step)
    requires Enabled(g, s, step) && 0 < step.r && RankOk(g, s, step.r) && EdgeOk(g, s, step.r)
    ensures EdgeOk(g, After(g, s, step), step.r)
  {
  }

  lemma ParentSteps<T>(g: Group<T>, s: State<T>, step: Step, c: nat)
    requires Enabled(g, s, step) && 0 < c < |s.ranks| && step.r == Parent(c) && RankOk(g, s, step.r) && EdgeOk(g, s, c)
    ensures EdgeOk(g, After(g, s, step), c)
  {
    var s', p := After(g, s, step), Parent(c);
    assert c == 2 * p + 1 + Side(c);
    if Peer(|s.ranks|, p, s.ranks[p].pc) != Some(c) {
      assert Wire(s', Link(p, c)) == Wire(s, Link(p, c)) && Wire(s', Link(c, p)) == Wire(s, Link(c, p));
    }
  }

  lemma OthersStep<T>(g: Group<T>, s: State<T>, step: Step, c: nat)
    requires Enabled(g, s, step) && 0 < c < |s.ranks| && step.r != Parent(c) && step.r != c && EdgeOk(g, s, c)
    ensures EdgeOk(g, After(g, s, step), c)
  {
    var s', p := After(g, s, step), Parent(c);
    assert s'.ranks[c] == s.ranks[c] && s'.ranks[p] == s.ranks[p];
  }

  lemma StepEdge<T>(g: Group<T>, s: State<T>, step: Step, c: nat)
    requires Enabled(g, s, step) && 0 < c < |s.ranks| && RankOk(g, s, step.r) && EdgeOk(g, s, c)
    ensures EdgeOk(g, After(g, s, step), c)
  {
    if step.r == c {
      ChildSteps(g, s, step);
    } else if step.r == Parent(c) {
      ParentSteps(g, s, step, c);
    } else {
      OthersStep(g, s, step, c);
    }
  }

  lemma StepKeepsInv<T>(g: Group<T>, s: State<T>, step: Step)
    requires Inv(g, s) && Enabled(g, s, step)
    ensures Inv(g, After(g, s, step))
  {
    var s' := After(g, s, step);
    forall r | 0 <= r < |s'.ranks|
      ensures RankOk(g, s', r)
    {
      assert RankOk(g, s, r);
      StepRank(g, s, step);
    }
    forall c | 0 < c < |s'.ranks|
      ensures EdgeOk(g, s', c)
    {
      assert RankOk(g, s, step.r) && EdgeOk(g, s, c);
      StepEdge(g, s, step, c);
    }
  }

  lemma {:induction false} ReachableInv<T(!new)>(g: Group<T>, steps: seq<Step>, s: State<T>)
    requires Reaches(g, steps, s)
    ensures Inv(g, s)
    decreases |steps|
  {
    if steps == [] {
      InitInv(g, s);
    } else {
      var init, last := steps[..|steps| - 1], steps[|steps| - 1];
      var prior :| Reaches(g, init, prior) && Enabled(g, prior, last) && s == After(g, prior, last);
      ReachableInv(g, init, prior);
      StepKeepsInv(g, prior, last);
    }
  }

  // ---------------------------------------------------------------------------
  // Progress
  // ---------------------------------------------------------------------------

  function Progress<T>(me: Rank<T>): (k: nat) { 2 * me.pc + (if me.sending then 1 else 0) }

  function StepsOf(steps: seq<Step>, r: nat): (k: nat) {
    if steps == [] then 0
    else StepsOf(steps[..|steps| - 1], r) + (if steps[|steps| - 1].r == r then 1 else 0)
  }

  /** No run is longer than twelve steps per rank. */
  lemma {:induction false} RunsAreFinite<T(!new)>(g: Group<T>, steps: seq<Step>, s: State<T>, r: nat)
    requires Reaches(g, steps, s) && r < |s.ranks|
    ensures StepsOf(steps, r) <= Progress(s.ranks[r]) <= 2 * END
    decreases |steps|
  {
    ReachableInv(g, steps, s);
    assert RankOk(g, s, r);
    if steps != [] {
      var init, last := steps[..|steps| - 1], steps[|steps| - 1];
      var prior :| Reaches(g, init, prior) && Enabled(g, prior, last) && s == After(g, prior, last);
      RunsAreFinite(g, init, prior, r);
      ReachableInv(g, init, prior);
      assert RankOk(g, prior, last.r);
    }
  }

  /** The greatest or least rank with a property. */
  lemma {:induction false} LastBelow<T>(s: State<T>, bound: nat, from: nat) returns (r: nat)
    requires from <= |s.ranks|
    requires exists q :: 0 <= q < from && s.ranks[q].pc < bound
    ensures r < from && s.ranks[r].pc < bound && forall q :: r < q < from ==> s.ranks[q].pc >= bound
  {
    if s.ranks[from - 1].pc < bound {
      r := from - 1;
    } else {
      r := LastBelow(s, bound, from - 1);
    }
  }

  lemma {:induction false} FirstBelow<T>(s: State<T>, bound: nat, from: nat) returns (r: nat)
    requires exists q :: from <= q < |s.ranks| && s.ranks[q].pc < bound
    ensures from <= r < |s.ranks| && s.ranks[r].pc < bound && forall q :: from <= q < r ==> s.ranks[q].pc >= bound
    decreases |s.ranks| - from
  {
    if s.ranks[from].pc < bound {
      r := from;
    } else {
      r := FirstBelow(s, bound, from + 1);
    }
  }

  /** The last rank that still collects from its children can be served. */
  lemma CollectingMoves<T>(g: Group<T>, s: State<T>, r: nat) returns (step: Step)
    requires Inv(g, s) && r < |s.ranks| && s.ranks[r].pc < 2 && forall q :: r < q < |s.ranks| ==> s.ranks[q].pc >= 2
    ensures Forced(g, s, step)
  {
    var peer := Peer(|s.ranks|, r, s.ranks[r].pc);
    if peer.None? {
      step := Skip(r);
    } else {
      var c := peer.value;
      assert EdgeOk(g, s, c) && Parent(c) == r && Side(c) == s.ranks[r].pc;
      step := if Posted(s.ranks[c], 2) then Receive(r) else Post(c);
    }
  }

  /** A rank that sends to its children can go on, or the child can take the message. */
  lemma SpreadingMoves<T>(g: Group<T>, s: State<T>, r: nat) returns (step: Step)
    requires Inv(g, s) && r < |s.ranks| && 4 <= s.ranks[r].pc < END && forall q :: 0 <= q < |s.ranks| ==> s.ranks[q].pc >= 3
    ensures Forced(g, s, step)
  {
    var peer := Peer(|s.ranks|, r, s.ranks[r].pc);
    if peer.None? {
      step := Skip(r);
    } else {
      var c := peer.value;
      assert EdgeOk(g, s, c) && Parent(c) == r && 4 + Side(c) == s.ranks[r].pc;
      assert RankOk(g, s, c);
      step := if !s.ranks[r].sending then Post(r) else if s.ranks[c].pc > 3 then Return(r) else Receive(c);
    }
  }

  /** The first rank that waits for the result, once nobody reports upwards any more. */
  lemma WaitingMoves<T>(g: Group<T>, s: State<T>, r: nat) returns (step: Step)
    requires Inv(g, s) && r < |s.ranks| && s.ranks[r].pc == 3
    requires forall q :: 0 <= q < |s.ranks| ==> s.ranks[q].pc >= 3
    requires forall q :: 0 <= q < r ==> s.ranks[q].pc >= 4
    ensures Forced(g, s, step)
  {
    if r == 0 {
      step := Skip(r);
    } else {
      var p := Parent(r);
      assert EdgeOk(g, s, r);
      if Posted(s.ranks[p], 4 + Side(r)) {
        step := Receive(r);
      } else {
        step := SpreadingMoves(g, s, p);
      }
    }
  }

  /** A rank that reports to its parent, once all ranks have collected. */
  lemma ReportingMoves<T>(g: Group<T>, s: State<T>, r: nat) returns (step: Step)
    requires Inv(g, s) && r < |s.ranks| && s.ranks[r].pc == 2 && forall q :: 0 <= q < |s.ranks| ==> s.ranks[q].pc >= 2
    ensures Forced(g, s, step)
  {
    if r == 0 {
      step := Skip(r);
    } else {
      assert EdgeOk(g, s, r);
      step := if s.ranks[r].sending then Return(r) else Post(r);
    }
  }

  /** No deadlock: while a rank is unfinished some step is possible, even if no send ever returns
      before its message was received. */
  lemma NoDeadlock<T(!new)>(g: Group<T>, steps: seq<Step>, s: State<T>, unfinished: nat) returns (step: Step)
    requires Reaches(g, steps, s) && unfinished < |s.ranks| && s.ranks[unfinished].pc < END
    ensures Forced(g, s, step)
  {
    ReachableInv(g, steps, s);
    var n := |s.ranks|;
    if exists q :: 0 <= q < n && s.ranks[q].pc < 2 {
      var r := LastBelow(s, 2, n);
      step := CollectingMoves(g, s, r);
    } else if exists q :: 0 <= q < n && s.ranks[q].pc < 3 {
      var r := LastBelow(s, 3, n);
      step := ReportingMoves(g, s, r);
    } else if exists q :: 0 <= q < n && s.ranks[q].pc < 4 {
      var r := FirstBelow(s, 4, 0);
      step := WaitingMoves(g, s, r);
    } else {
      step := SpreadingMoves(g, s, unfinished);
    }
  }

  // ---------------------------------------------------------------------------
  // The result
  // ---------------------------------------------------------------------------

  function Join<T>(op: (T, T) -> T, a: Option<T>, b: Option<T>): (t: Option<T>) {
    if a.None? then b else if b.None? then a else Some(op(a.value, b.value))
  }

  /** Rank `r` lies on the path from rank `i` to the root. */
  predicate Above(r: nat, i: nat) {
    i == r || (i > r && Above(r, Parent(i)))
  }

  /** The reduction of the inputs of the first `n` ranks that are chosen. */
  ghost function Chosen<T>(g: Group<T>, n: nat, chosen: nat -> bool): (t: Option<T>)
    requires n <= |g.inputs|
  {
    if n == 0 then None
    else Join(g.op, Chosen(g, n - 1, chosen), if chosen(n - 1) then Some(g.inputs[n - 1]) else None)
  }

  lemma {:induction false} AboveSplits(r: nat, i: nat)
    ensures Above(r, i) <==> i == r || Above(2 * r + 1, i) || Above(2 * r + 2, i)
    ensures !(Above(2 * r + 1, i) && Above(2 * r + 2, i)) && !Above(2 * r + 1, r) && !Above(2 * r + 2, r)
  {
    if i > r {
      AboveSplits(r, Parent(i));
    }
  }

  lemma {:induction false} AboveIsBefore(r: nat, i: nat)
    ensures Above(r, i) ==> r <= i
    ensures Above(0, i)
  {
    if i > 0 {
      AboveIsBefore(r, Parent(i));
    }
  }

  lemma JoinLaws<T(!new)>(op: (T, T) -> T, a: Option<T>, b: Option<T>, c: Option<T>)
    requires Associative(op) && Commutative(op)
    ensures Join(op, Join(op, a, b), c) == Join(op, a, Join(op, b, c)) && Join(op, a, b) == Join(op, b, a)
  {
    if a.Some? && b.Some? {
      assert Commutes(op, a.value, b.value);
      assert c.Some? ==> Associates(op, a.value, b.value, c.value);
    }
  }

  lemma JoinSwap<T(!new)>(op: (T, T) -> T, a: Option<T>, b: Option<T>, c: Option<T>, d: Option<T>)
    requires Associative(op) && Commutative(op)
    ensures Join(op, Join(op, a, b), Join(op, c, d)) == Join(op, Join(op, a, c), Join(op, b, d))
  {
    JoinLaws(op, Join(op, a, b), c, d);
    JoinLaws(op, a, b, c);
    JoinLaws(op, a, c, b);
    JoinLaws(op, b, c, a);
    JoinLaws(op, Join(op, a, c), b, d);
  }

  /** Reducing a disjoint union is combining the two reductions. */
  lemma {:induction false} ChosenUnion<T(!new)>(g: Group<T>, n: nat, p: nat -> bool, q: nat -> bool, both: nat -> bool)
    requires n <= |g.inputs| && Associative(g.op) && Commutative(g.op)
    requires forall i :: 0 <= i < n ==> (both(i) <==> p(i) || q(i)) && !(p(i) && q(i))
    ensures Chosen(g, n, both) == Join(g.op, Chosen(g, n, p), Chosen(g, n, q))
  {
    if n > 0 {
      ChosenUnion(g, n - 1, p, q, both);
      JoinSwap(g.op, Chosen(g, n - 1, p), Chosen(g, n - 1, q),
               if p(n - 1) then Some(g.inputs[n - 1]) else None, if q(n - 1) then Some(g.inputs[n - 1]) else None);
    }
  }

  lemma {:induction false} ChosenOne<T>(g: Group<T>, n: nat, r: nat, p: nat -> bool)
    requires n <= |g.inputs| && forall i :: 0 <= i < n ==> (p(i) <==> i == r)
    ensures Chosen(g, n, p) == if r < n then Some(g.inputs[r]) else None
  {
    if n > 0 {
      ChosenOne(g, n - 1, r, p);
    }
  }

  lemma {:induction false} ChosenNone<T>(g: Group<T>, n: nat, p: nat -> bool)
    requires n <= |g.inputs| && forall i :: 0 <= i < n ==> !p(i)
    ensures Chosen(g, n, p) == None
  {
    if n > 0 {
      ChosenNone(g, n - 1, p);
    }
  }

  lemma {:induction false} ChosenAll<T>(g: Group<T>, n: nat, p: nat -> bool)
    requires 0 < n <= |g.inputs| && forall i :: 0 <= i < n ==> p(i)
    ensures Chosen(g, n, p) == Some(Reduce(g.op, g.inputs[..n]))
  {
    if n > 1 {
      ChosenAll(g, n - 1, p);
      assert g.inputs[..n][..n - 1] == g.inputs[..n - 1];
    } else {
      ChosenNone(g, 0, p);
    }
  }

  /** What rank `r` collects is the reduction over exactly the ranks below it. */
  lemma {:induction false} SubtreeIsChosen<T(!new)>(g: Group<T>, r: nat, all: nat -> bool)
    requires r < |g.inputs| && Associative(g.op) && Commutative(g.op)
    requires forall i: nat :: all(i) <==> Above(r, i)
    ensures Chosen(g, |g.inputs|, all) == Some(Subtree(g, r))
    decreases |g.inputs| - r
  {
    var n := |g.inputs|;
    var own, left, right := (i: nat) => i == r, (i: nat) => Above(2 * r + 1, i), (i: nat) => Above(2 * r + 2, i);
    var ownLeft := (i: nat) => i == r || Above(2 * r + 1, i);
    forall i | 0 <= i < n
      ensures !(own(i) && left(i)) && !(ownLeft(i) && right(i)) && (all(i) <==> ownLeft(i) || right(i))
      ensures (left(i) ==> 2 * r + 1 <= i) && (right(i) ==> 2 * r + 2 <= i)
    {
      AboveSplits(r, i);
      AboveIsBefore(2 * r + 1, i);
      AboveIsBefore(2 * r + 2, i);
    }
    ChosenOne(g, n, r, own);
    ChosenUnion(g, n, own, left, ownLeft);
    ChosenUnion(g, n, ownLeft, right, all);
    if 2 * r + 1 < n {
      SubtreeIsChosen(g, 2 * r + 1, left);
      assert Commutes(g.op, g.inputs[r], Subtree(g, 2 * r + 1));
    } else {
      ChosenNone(g, n, left);
    }
    if 2 * r + 2 < n {
      SubtreeIsChosen(g, 2 * r + 2, right);
      assert Commutes(g.op, WithLeft(g, r), Subtree(g, 2 * r + 2));
    } else {
      ChosenNone(g, n, right);
    }
  }

  /** The root collects the reduction of all inputs. */
  lemma RootCollectsAll<T(!new)>(g: Group<T>)
    requires g.inputs != [] && Associative(g.op) && Commutative(g.op)
    ensures Subtree(g, 0) == Reduce(g.op, g.inputs)
  {
    var all := (i: nat) => true;
    forall i: nat
      ensures all(i) <==> Above(0, i)
    {
      AboveIsBefore(0, i);
    }
    SubtreeIsChosen(g, 0, all);
    ChosenAll(g, |g.inputs|, all);
    assert g.inputs[..|g.inputs|] == g.inputs;
  }

  /** A run that cannot be continued has every rank finished with the reduction of all inputs; every
      edge of the tree has carried one message each way, and nothing is left on the wire. */
  lemma AllreduceDelivers<T(!new)>(g: Group<T>, steps: seq<Step>, s: State<T>, r: nat, l: Link)
    requires Reaches(g, steps, s) && Associative(g.op) && Commutative(g.op)
    requires forall step :: !Forced(g, s, step)
    requires r < |g.inputs|
    ensures |s.ranks| == |g.inputs| && s.ranks[r] == Rank(END, false, Reduce(g.op, g.inputs))
    ensures Received(s, l) == if IsEdge(|g.inputs|, l) then 1 else 0
    ensures IsEdge(|g.inputs|, l) ==> Wire(s, l) == []
  {
    ReachableInv(g, steps, s);
    forall q | 0 <= q < |s.ranks|
      ensures s.ranks[q].pc == END
    {
      assert RankOk(g, s, q);
      if s.ranks[q].pc < END {
        var step := NoDeadlock(g, steps, s, q);
      }
    }
    assert RankOk(g, s, r);
    RootCollectsAll(g);
    if IsEdge(|g.inputs|, l) {
      if l.from > 0 && l.to == Parent(l.from) {
        assert EdgeOk(g, s, l.from);
      } else {
        assert EdgeOk(g, s, l.to);
      }
    }
  }
}
