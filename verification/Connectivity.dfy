/** The pairwise connectivity check (openmpi-2.0.1/examples/connectivity_c.c): every rank exchanges a message with
    every other one, each send waiting for its receive. */
module Connectivity {

  datatype Op = Send(peer: int) | Recv(peer: int)

  // ---------------------------------------------------------------------------
  // The program of one rank
  // ---------------------------------------------------------------------------

  /** The k-th peer of a rank: the others in increasing order. */
  function Peer(rank: int, k: int): (p: int) { if k < rank then k else k + 1 }

  /** A rank first hears from a lower peer and then answers; a higher peer it addresses first. */
  function OpAt(rank: int, pc: nat): (op: Op) {
    var p := Peer(rank, pc / 2);
    if (pc % 2 == 0) == (p < rank) then Recv(p) else Send(p)
  }

  /** The two operations with each peer. */
  lemma ByPeer(rank: nat, p: nat)
    ensures p < rank ==> OpAt(rank, 2 * p) == Recv(p) && OpAt(rank, 2 * p + 1) == Send(p)
    ensures p > rank ==> OpAt(rank, 2 * p - 2) == Send(p) && OpAt(rank, 2 * p - 1) == Recv(p)
  {
    if p < rank {
      assert (2 * p) / 2 == p && (2 * p + 1) / 2 == p;
    } else if p > rank {
      assert (2 * p - 2) / 2 == p - 1 && (2 * p - 1) / 2 == p - 1;
    }
  }

  function Length(np: int): (n: int) { 2 * (np - 1) }

  /** The nested loops of main, as the operations a rank issues one after another. */
  method Program(rank: int, np: int) returns (ops: seq<Op>)
    requires 0 <= rank < np
    ensures |ops| == Length(np) && forall pc: nat :: pc < |ops| ==> ops[pc] == OpAt(rank, pc)
  {
    ops := [];
    for i := 0 to np
      invariant |ops| == if i <= rank then 2 * i else Length(np)
      invariant forall pc: nat :: pc < |ops| ==> ops[pc] == OpAt(rank, pc)
    {
      if rank == i {
        for j := i + 1 to np
          invariant |ops| == 2 * (j - 1)
          invariant forall pc: nat :: pc < |ops| ==> ops[pc] == OpAt(rank, pc)
        {
          ops := ops + [Send(j)];
          ops := ops + [Recv(j)];
        }
      } else if rank > i {
        ops := ops + [Recv(i)];
        ops := ops + [Send(i)];
      }
    }
  }

  // ---------------------------------------------------------------------------
  // Runs
  // ---------------------------------------------------------------------------

  /** How far every rank is, and the messages received so far. */
  datatype State = State(pc: seq<nat>, log: seq<(int, int)>)

  ghost predicate Init(s: State, np: int) {
    np >= 1 && |s.pc| == np && (forall r :: 0 <= r < np ==> s.pc[r] == 0) && s.log == []
  }

  predicate Running(s: State, np: int, r: int) { |s.pc| == np && 0 <= r < np && s.pc[r] < Length(np) }

  /** Rank `a` is at a send to `b`, which is at the matching receive. */
  predicate Ready(s: State, np: int, a: int, b: int) {
    && Running(s, np, a) && Running(s, np, b) && a != b
    && OpAt(a, s.pc[a]) == Send(b) && OpAt(b, s.pc[b]) == Recv(a)
  }

  function Deliver(s: State, a: int, b: int): (t: State)
    requires 0 <= a < |s.pc| && 0 <= b < |s.pc| && a != b
  {
    State(s.pc[a := s.pc[a] + 1][b := s.pc[b] + 1], s.log + [(a, b)])
  }

  datatype Action = Action(from: int, to: int)

  ghost predicate Reaches(s: State, np: int, run: seq<Action>, t: State)
    decreases |run|
  {
    if run == [] then s == t
    else Ready(s, np, run[0].from, run[0].to) && Reaches(Deliver(s, run[0].from, run[0].to), np, run[1..], t)
  }

  // ---------------------------------------------------------------------------
  // The invariant
  // ---------------------------------------------------------------------------

  function IndexOf(r: int, p: int): (k: int) { if p < r then p else p - 1 }

  /** How many of its two operations with `p` rank `r` has done. */
  function Progress(s: State, r: int, p: int): (n: int)
    requires 0 <= r < |s.pc|
  {
    var n := s.pc[r] - 2 * IndexOf(r, p);
    if n < 0 then 0 else if n > 2 then 2 else n
  }

  predicate IsPair(np: int, r: int, p: int) { 0 <= r < np && 0 <= p < np && r != p }

  /** After the first exchange of a pair the lower rank has been heard, after the second the higher one. */
  predicate Sent(s: State, a: int, b: int)
    requires 0 <= a < |s.pc|
  {
    Progress(s, a, b) >= if a < b then 1 else 2
  }

  ghost predicate Inv(s: State, np: int) {
    && |s.pc| == np
    && (forall r :: 0 <= r < np ==> 0 <= s.pc[r] <= Length(np))
    && (forall r, p :: IsPair(np, r, p) ==> Progress(s, r, p) == Progress(s, p, r))
    && (forall a, b :: multiset(s.log)[(a, b)] == if IsPair(np, a, b) && Sent(s, a, b) then 1 else 0)
  }

  lemma InitHasInv(s: State, np: int)
    requires Init(s, np)
    ensures Inv(s, np)
  {
  }

  /** What a step does to the progress of a rank. */
  lemma StepProgress(s: State, np: int, a: int, b: int, r: int, p: int)
    requires |s.pc| == np && Ready(s, np, a, b) && IsPair(np, r, p)
    ensures Progress(Deliver(s, a, b), r, p)
              == Progress(s, r, p) + if (r == a && p == b) || (r == b && p == a) then 1 else 0
    ensures (r == a && p == b) || (r == b && p == a) ==> Progress(s, r, p) == if a < b then 0 else 1
  {
    if r == a {
      AtPeer(s, r, p);
    } else if r == b {
      AtPeer(s, r, p);
    }
  }

  lemma AtPeer(s: State, r: int, p: int)
    requires 0 <= r < |s.pc| && r != p && r >= 0 && p >= 0
    ensures Peer(r, s.pc[r] / 2) == p <==> s.pc[r] / 2 == IndexOf(r, p)
  {
  }

  lemma StepKeepsInv(s: State, np: int, a: int, b: int)
    requires Inv(s, np) && Ready(s, np, a, b)
    ensures Inv(Deliver(s, a, b), np)
  {
    var t := Deliver(s, a, b);
    forall r, p | IsPair(np, r, p)
      ensures Progress(t, r, p) == Progress(t, p, r)
    {
      StepProgress(s, np, a, b, r, p);
      StepProgress(s, np, a, b, p, r);
      assert Progress(s, r, p) == Progress(s, p, r);
    }
    forall x, y
      ensures multiset(t.log)[(x, y)] == if IsPair(np, x, y) && Sent(t, x, y) then 1 else 0
    {
      assert multiset(t.log)[(x, y)] == multiset(s.log)[(x, y)] + if (x, y) == (a, b) then 1 else 0;
      if IsPair(np, x, y) {
        StepProgress(s, np, a, b, x, y);
      }
    }
  }

  lemma {:induction false} ReachableInv(s: State, np: int, run: seq<Action>, t: State)
    requires Inv(s, np) && Reaches(s, np, run, t)
    ensures Inv(t, np)
    decreases |run|
  {
    if run != [] {
      StepKeepsInv(s, np, run[0].from, run[0].to);
      ReachableInv(Deliver(s, run[0].from, run[0].to), np, run[1..], t);
    }
  }

  // ---------------------------------------------------------------------------
  // No deadlock
  // ---------------------------------------------------------------------------

  ghost predicate Unfinished(s: State, np: int, i: int, j: int) {
    0 <= i < j < np && |s.pc| == np && Progress(s, i, j) < 2
  }

  ghost predicate Before(i: int, j: int, k: int, l: int) { i < k || (i == k && j < l) }

  /** Every pair before (i, j) in lexicographic order is finished, and (i, j) is not. */
  ghost predicate Least(s: State, np: int, i: int, j: int) {
    && Unfinished(s, np, i, j)
    && forall k, l :: Unfinished(s, np, k, l) ==> !Before(k, l, i, j)
  }

  lemma FindLeast(s: State, np: int, k: int, l: int) returns (i: int, j: int)
    requires Unfinished(s, np, k, l)
    ensures Least(s, np, i, j)
    decreases k, l
  {
    if k', l' :| Unfinished(s, np, k', l') && Before(k', l', k, l) {
      i, j := FindLeast(s, np, k', l');
    } else {
      i, j := k, l;
    }
  }

  lemma LowerEndIsThere(s: State, np: int, i: int, j: int)
    requires Inv(s, np) && Least(s, np, i, j)
    ensures s.pc[i] / 2 == IndexOf(i, j)
  {
    if s.pc[i] / 2 < IndexOf(i, j) {
      var q := Peer(i, s.pc[i] / 2);
      assert IsPair(np, i, q) && Progress(s, i, q) < 2;
      assert if q < i then Unfinished(s, np, q, i) && Before(q, i, i, j) else Unfinished(s, np, i, q) && Before(i, q, i, j);
    }
  }

  lemma HigherEndIsThere(s: State, np: int, i: int, j: int)
    requires Inv(s, np) && Least(s, np, i, j)
    ensures s.pc[j] / 2 == IndexOf(j, i)
  {
    assert IsPair(np, i, j);
    if s.pc[j] / 2 < IndexOf(j, i) {
      var q := Peer(j, s.pc[j] / 2);
      assert IsPair(np, j, q) && Progress(s, j, q) < 2;
      assert Unfinished(s, np, q, j) && Before(q, j, i, j);
    }
  }

  /** The lexicographically least unfinished pair is ready at both ends, in one direction or the other. */
  lemma LeastIsReady(s: State, np: int, i: int, j: int)
    requires Inv(s, np) && Least(s, np, i, j)
    ensures if Progress(s, i, j) == 0 then Ready(s, np, i, j) else Ready(s, np, j, i)
  {
    LowerEndIsThere(s, np, i, j);
    HigherEndIsThere(s, np, i, j);
    assert IsPair(np, i, j);
    assert Progress(s, i, j) == Progress(s, j, i);
  }

  /** In every reachable state in which some rank has not ended, a message can be delivered. */
  lemma NoDeadlock(s: State, np: int, run: seq<Action>, t: State, r: int) returns (next: Action)
    requires Init(s, np) && Reaches(s, np, run, t) && Running(t, np, r)
    ensures Ready(t, np, next.from, next.to)
  {
    InitHasInv(s, np);
    ReachableInv(s, np, run, t);
    var p := Peer(r, t.pc[r] / 2);
    AtPeer(t, r, p);
    assert IsPair(np, r, p) && Progress(t, r, p) < 2;
    var i, j := FindLeast(t, np, if r < p then r else p, if r < p then p else r);
    LeastIsReady(t, np, i, j);
    next := if Progress(t, i, j) == 0 then Action(i, j) else Action(j, i);
  }

  /** When every rank has ended, every ordered pair has exchanged exactly one message. */
  lemma EveryPairOnce(s: State, np: int, run: seq<Action>, t: State)
    requires Init(s, np) && Reaches(s, np, run, t) && forall r :: 0 <= r < np ==> !Running(t, np, r)
    ensures forall a, b :: multiset(t.log)[(a, b)] == if IsPair(np, a, b) then 1 else 0
  {
    InitHasInv(s, np);
    ReachableInv(s, np, run, t);
    forall a, b
      ensures multiset(t.log)[(a, b)] == if IsPair(np, a, b) then 1 else 0
    {
      if IsPair(np, a, b) {
        assert !Running(t, np, a) && t.pc[a] == Length(np);
        assert Sent(t, a, b);
      }
    }
  }

  ghost function Total(pc: seq<nat>): (n: nat) { if pc == [] then 0 else Total(pc[..|pc| - 1]) + pc[|pc| - 1] }

  lemma {:induction false} TotalBump(pc: seq<nat>, r: nat)
    requires r < |pc|
    ensures Total(pc[r := pc[r] + 1]) == Total(pc) + 1
  {
    var n := |pc| - 1;
    if r < n {
      TotalBump(pc[..n], r);
      assert pc[r := pc[r] + 1][..n] == pc[..n][r := pc[r] + 1];
    } else {
      assert pc[r := pc[r] + 1][..n] == pc[..n];
    }
  }

  lemma {:induction false} TotalBound(pc: seq<nat>, m: nat)
    requires forall r :: 0 <= r < |pc| ==> pc[r] <= m
    ensures Total(pc) <= |pc| * m
  {
    if pc != [] {
      TotalBound(pc[..|pc| - 1], m);
    }
  }

  lemma DeliveryCounts(s: State, a: int, b: int)
    requires 0 <= a < |s.pc| && 0 <= b < |s.pc| && a != b
    ensures Total(Deliver(s, a, b).pc) == Total(s.pc) + 2
  {
    TotalBump(s.pc, a);
    TotalBump(s.pc[a := s.pc[a] + 1], b);
  }

  lemma {:induction false} RunLength(s: State, np: int, run: seq<Action>, t: State)
    requires Reaches(s, np, run, t)
    ensures Total(t.pc) == Total(s.pc) + 2 * |run|
    decreases |run|
  {
    if run != [] {
      DeliveryCounts(s, run[0].from, run[0].to);
      RunLength(Deliver(s, run[0].from, run[0].to), np, run[1..], t);
    }
  }

  /** No run is longer than the number of ordered pairs of ranks. */
  lemma RunsAreFinite(s: State, np: int, run: seq<Action>, t: State)
    requires Init(s, np) && Reaches(s, np, run, t)
    ensures |run| <= np * (np - 1)
  {
    RunLength(s, np, run, t);
    TotalBound(s.pc, 0);
    assert Total(s.pc) == 0;
    WithinBounds(s, np, run, t);
    Halve(|run|, np, Length(np));
  }

  lemma WithinBounds(s: State, np: int, run: seq<Action>, t: State)
    requires Init(s, np) && Reaches(s, np, run, t)
    ensures Total(t.pc) <= np * Length(np)
  {
    InitHasInv(s, np);
    ReachableInv(s, np, run, t);
    TotalBound(t.pc, Length(np));
  }

  lemma Halve(n: int, np: int, m: int)
    requires 2 * n <= np * m && m == 2 * (np - 1)
    ensures n <= np * (np - 1)
  {
    assert np * m == 2 * (np * (np - 1));
  }
}
