/** How many ids are enough (ompi/communicator/comm_cid.c): with a limit that exceeds the ids in use at
    the start by a number that depends on the calls and processes only, no call can run out of ids, so
    all concurrent calls complete. */
module CidCapacity {
  import opened CidProtocol
  import opened CidSafety
  import opened CidTheorems
  import opened CidCompletion
  import opened CidRefusals
  import opened FiniteSets

  // ---------------------------------------------------------------------------
  // The number of rounds
  // ---------------------------------------------------------------------------

  predicate IsAgainst(m: Member, floor: nat, r: nat) {
    r < |m.votes| && r < |m.maxes| && m.votes[r] == 0 && m.maxes[r] >= floor
  }

  /** The rounds below `n` in which a process voted against a maximum from `floor` on. */
  function Against(m: Member, floor: nat, n: nat): (rounds: set<nat>)
    ensures |rounds| <= Refusals(m, floor, n)
    ensures forall r: nat :: r in rounds <==> r < n && IsAgainst(m, floor, r)
  {
    if n == 0 then {}
    else
      Against(m, floor, n - 1)
      + (if IsAgainst(m, floor, n - 1) then {n - 1} else {})
  }

  /** Somebody voted against the maximum of a refused round. */
  lemma SomebodyRefused(sys: System, s: State, k: Key, r: nat) returns (p: nat)
    requires Shape(sys, s) && LocalOk(sys, s) && ResultsOk(sys, s) && k in s.members
    requires r < |s.members[k].mins| && s.members[k].mins[r] == 0
    ensures p in sys.calls[k.call].members && Key(k.call, p) in s.members
    ensures IsAgainst(s.members[Key(k.call, p)], r, r)
  {
    assert IsMin(sys, s, k.call, r, s.members[k].mins[r]);
    p :| p in sys.calls[k.call].members && s.members[Key(k.call, p)].votes[r] == 0;
    var q := Key(k.call, p);
    assert q in s.members && HistoryOk(sys.limit, s.members[q]);
    MaximaAtLeast(sys, s, q, r);
  }

  /** All rounds of a process were refused, except the one that it won or has not finished. */
  lemma RefusedRounds(sys: System, s: State, k: Key) returns (n: nat)
    requires Shape(sys, s) && LocalOk(sys, s) && k in s.members
    ensures |s.members[k].cands| <= n + 1 && n <= |s.members[k].mins|
    ensures forall r :: 0 <= r < n ==> s.members[k].mins[r] == 0
  {
    var m := s.members[k];
    assert PcFits(sys.limit, m) && HistoryOk(sys.limit, m);
    n := if Finished(m.pc) then |m.mins| - 1 else |m.mins|;
  }

  function RoundBound(sys: System, floor: nat): (b: nat) { floor + |sys.procs| * (2 * |sys.calls|) + 1 }

  /** No process goes through more rounds than this, however many other calls are under way. */
  lemma RoundsInBudget(sys: System, s: State, floor: nat, k: Key)
    requires Shape(sys, s) && LocalOk(sys, s) && ResultsOk(sys, s) && k in s.members
    requires forall q :: q in s.members ==> Refusals(s.members[q], floor, |s.members[q].votes|) <= 2 * |sys.calls|
    ensures |s.members[k].cands| <= RoundBound(sys, floor)
  {
    var n := RefusedRounds(sys, s, k);
    if n > floor {
      var call := sys.calls[k.call].members;
      var f := (p: nat) =>
          if Key(k.call, p) in s.members
          then Against(s.members[Key(k.call, p)], floor, |s.members[Key(k.call, p)].votes|)
          else {};
      forall r | r in Span(floor, n - floor)
        ensures r in Union(f, call)
      {
        var p := SomebodyRefused(sys, s, k, r);
        assert r in f(p);
      }
      UnionBound(f, call, 2 * |sys.calls|);
      SubsetIsSmaller(Span(floor, n - floor), Union(f, call));
      SubsetIsSmaller(call, sys.procs);
      MulMono(|call|, |sys.procs|, 2 * |sys.calls|);
    }
  }

  lemma RoundsBoundedByCalls(sys: System, s: State, steps: seq<Step>, floor: nat, k: Key)
    requires Reaches(sys, steps, s) && InitialBelow(sys, floor) && k in s.members
    ensures |s.members[k].cands| <= RoundBound(sys, floor)
  {
    ReachableInv(sys, s, steps);
    forall q | q in s.members
      ensures Refusals(s.members[q], floor, |s.members[q].votes|) <= 2 * |sys.calls|
    {
      RefusalsBounded(sys, s, steps, floor, q);
    }
    RoundsInBudget(sys, s, floor, k);
  }

  // ---------------------------------------------------------------------------
  // The ids that are tried
  // ---------------------------------------------------------------------------

  ghost predicate IsTried(s: State, v: nat) { exists k :: k in s.members && v in s.members[k].cands }

  ghost function Tried(s: State): (ids: iset<nat>) { iset v: nat | IsTried(s, v) }

  /** An id past `floor` comes right behind one that was tried. */
  ghost predicate Follows(floor: nat, tried: iset<nat>, v: nat) { v > floor ==> v - 1 in tried }

  ghost predicate FrontOk(floor: nat, tried: iset<nat>, pc: Pc) {
    && (pc.Spin? || pc.Scan? || pc.MaxWait? || pc.Swap? || pc.MinWait? ==> Follows(floor, tried, pc.start))
    && (pc.Scan? ==> Follows(floor, tried, pc.i))
  }

  ghost predicate TableOk(floor: nat, tried: iset<nat>, t: Table) {
    forall i :: i in t && i >= floor ==> i in tried
  }

  /** No id above `floor` was left out. */
  ghost predicate Gapless(floor: nat, tried: iset<nat>) {
    forall v {:trigger Follows(floor, tried, v)} :: v in tried ==> Follows(floor, tried, v)
  }

  ghost predicate TriedOk(sys: System, s: State, floor: nat)
    requires Shape(sys, s)
  {
    && Gapless(floor, Tried(s))
    && (forall k {:trigger FrontOk(floor, Tried(s), s.members[k].pc)} :: k in s.members ==> FrontOk(floor, Tried(s), s.members[k].pc))
    && (forall p {:trigger TableOk(floor, Tried(s), s.tables[p])} :: p in s.tables ==> TableOk(floor, Tried(s), s.tables[p]))
  }

  lemma {:induction false} AllBelowTried(floor: nat, tried: iset<nat>, v: nat, u: nat)
    requires Gapless(floor, tried) && v in tried && floor <= u <= v
    ensures u in tried
    decreases v - u
  {
    if u < v {
      assert Follows(floor, tried, v);
      AllBelowTried(floor, tried, v - 1, u);
    }
  }

  /** What a step tries, reserves and moves on to. */
  lemma EffectTries(sys: System, step: Step, l: Local, floor: nat, tried: iset<nat>, tried': iset<nat>)
    requires step.k.call < |sys.calls| && Told(sys.limit, step, l) && PcFits(sys.limit, l.m)
    requires Gapless(floor, tried) && FrontOk(floor, tried, l.m.pc) && TableOk(floor, tried, l.table)
    requires forall r :: 0 <= r < |l.m.maxes| ==> l.m.maxes[r] in tried
    requires step.ReadLowestFree? ==> IsLowestFree(l.table, step.start)
    requires tried <= tried' && forall v :: v in Effect(sys, step, l).m.cands ==> v in tried'
    ensures FrontOk(floor, tried', Effect(sys, step, l).m.pc) && TableOk(floor, tried', Effect(sys, step, l).table)
  {
  }

  lemma OfferFollows(sys: System, step: Step, l: Local, floor: nat, tried: iset<nat>, v: nat)
    requires step.k.call < |sys.calls| && Told(sys.limit, step, l)
    requires Gapless(floor, tried) && FrontOk(floor, tried, l.m.pc)
    requires v in Effect(sys, step, l).m.cands && v !in l.m.cands
    ensures Follows(floor, tried, v)
  {
    if l.m.pc.Scan? && l.m.pc.i > sys.limit > floor {
      AllBelowTried(floor, tried, l.m.pc.i - 1, sys.limit - 1);
    }
  }

  lemma MaximaTried(sys: System, s: State, k: Key)
    requires Shape(sys, s) && ResultsOk(sys, s) && k in s.members
    ensures forall r :: 0 <= r < |s.members[k].maxes| ==> s.members[k].maxes[r] in Tried(s)
  {
    forall r | 0 <= r < |s.members[k].maxes|
      ensures s.members[k].maxes[r] in Tried(s)
    {
      assert IsMax(sys, s, k.call, r, s.members[k].maxes[r]);
      var p :| p in sys.calls[k.call].members && s.members[Key(k.call, p)].cands[r] == s.members[k].maxes[r];
      assert Key(k.call, p) in s.members;
    }
  }

  lemma TriedGrows(sys: System, s: State, step: Step, s': State)
    requires Shape(sys, s) && Next(sys, s, step, s') && Shape(sys, s')
    ensures Tried(s) <= Tried(s')
    ensures forall v :: v in Effect(sys, step, View(s, step.k)).m.cands ==> v in Tried(s')
    ensures forall v :: v in Tried(s') && v !in Tried(s) ==>
              v in Effect(sys, step, View(s, step.k)).m.cands && v !in s.members[step.k].cands
  {
    EffectGrows(sys, step, View(s, step.k));
    forall v | v in Tried(s)
      ensures v in Tried(s')
    {
      var k :| k in s.members && v in s.members[k].cands;
      assert k in s'.members && v in s'.members[k].cands;
    }
    forall v | v in Effect(sys, step, View(s, step.k)).m.cands
      ensures v in Tried(s')
    {
      assert step.k in s'.members && v in s'.members[step.k].cands;
    }
    forall v | v in Tried(s') && v !in Tried(s)
      ensures v in Effect(sys, step, View(s, step.k)).m.cands && v !in s.members[step.k].cands
    {
      var k :| k in s'.members && v in s'.members[k].cands;
      assert k in s.members;
    }
  }

  lemma GaplessStep(sys: System, s: State, step: Step, s': State, floor: nat)
    requires Shape(sys, s) && Next(sys, s, step, s') && Shape(sys, s') && Told(sys.limit, step, View(s, step.k))
    requires Gapless(floor, Tried(s)) && FrontOk(floor, Tried(s), s.members[step.k].pc)
    ensures Gapless(floor, Tried(s'))
  {
    TriedGrows(sys, s, step, s');
    forall v | v in Tried(s')
      ensures Follows(floor, Tried(s'), v)
    {
      if v in Tried(s) {
        assert Follows(floor, Tried(s), v);
      } else {
        OfferFollows(sys, step, View(s, step.k), floor, Tried(s), v);
      }
    }
  }

  lemma TriedStep(sys: System, s: State, step: Step, s': State, floor: nat)
    requires Shape(sys, s) && ResultsOk(sys, s) && Next(sys, s, step, s') && Shape(sys, s') && TriedOk(sys, s, floor)
    requires Told(sys.limit, step, View(s, step.k)) && PcFits(sys.limit, s.members[step.k])
    ensures TriedOk(sys, s', floor)
  {
    var k := step.k;
    assert FrontOk(floor, Tried(s), s.members[k].pc) && TableOk(floor, Tried(s), s.tables[k.proc]);
    GaplessStep(sys, s, step, s', floor);
    TriedGrows(sys, s, step, s');
    MaximaTried(sys, s, k);
    EffectTries(sys, step, View(s, k), floor, Tried(s), Tried(s'));
    forall q | q in s'.members
      ensures FrontOk(floor, Tried(s'), s'.members[q].pc)
    {
      assert q == k || FrontOk(floor, Tried(s), s.members[q].pc);
    }
    forall p | p in s'.tables
      ensures TableOk(floor, Tried(s'), s'.tables[p])
    {
      assert p == k.proc || TableOk(floor, Tried(s), s.tables[p]);
    }
  }

  lemma {:induction false} ReachableTried(sys: System, s: State, steps: seq<Step>, floor: nat)
    requires Reaches(sys, steps, s) && InitialBelow(sys, floor)
    ensures Shape(sys, s) && TriedOk(sys, s, floor)
    decreases |steps|
  {
    if steps != [] {
      var init, step := steps[..|steps| - 1], steps[|steps| - 1];
      var prior :| Reaches(sys, init, prior) && Shape(sys, prior) && Next(sys, prior, step, s);
      ReachableTried(sys, prior, init, floor);
      ReachableInv(sys, prior, init);
      StepKeepsKeys(sys, prior, step, s);
      StepFacts(sys, prior, step, s);
      TriedStep(sys, prior, step, s, floor);
    }
  }

  // ---------------------------------------------------------------------------
  // Enough ids
  // ---------------------------------------------------------------------------

  ghost function CandsOf(s: State, c: nat): (f: nat -> set<nat>) {
    (p: nat) => if Key(c, p) in s.members then Elements(s.members[Key(c, p)].cands) else {}
  }

  ghost predicate RoundsBounded(s: State, bound: nat) { forall k :: k in s.members ==> |s.members[k].cands| <= bound }

  ghost function TriedIn(sys: System, s: State): (f: nat -> set<nat>) { c => Union(CandsOf(s, c), sys.procs) }

  /** Everything that the calls tried. */
  ghost function AllTried(sys: System, s: State): (ids: set<nat>) { Union(TriedIn(sys, s), Span(0, |sys.calls|)) }

  lemma AllTriedBound(sys: System, s: State, bound: nat)
    requires RoundsBounded(s, bound)
    ensures |AllTried(sys, s)| <= |sys.calls| * (|sys.procs| * bound)
  {
    var each := |sys.procs| * bound;
    forall c: nat
      ensures |TriedIn(sys, s)(c)| <= each
    {
      CallTriesBound(sys, s, c, bound);
    }
    UnionBound(TriedIn(sys, s), Span(0, |sys.calls|), each);
  }

  lemma CallTriesBound(sys: System, s: State, c: nat, bound: nat)
    requires RoundsBounded(s, bound)
    ensures |TriedIn(sys, s)(c)| <= |sys.procs| * bound
  {
    UnionBound(CandsOf(s, c), sys.procs, bound);
  }

  lemma AllTriedHas(sys: System, s: State, k: Key, v: nat)
    requires k in s.members && k.proc in sys.procs && k.call < |sys.calls| && v in s.members[k].cands
    ensures v in AllTried(sys, s)
  {
    assert Key(k.call, k.proc) == k && v in CandsOf(s, k.call)(k.proc);
    assert v in TriedIn(sys, s)(k.call);
  }

  /** The ids that are enough for all calls of a system in which the ids from `floor` on are free. */
  function Enough(sys: System, floor: nat): (limit: nat) {
    floor + |sys.calls| * (|sys.procs| * RoundBound(sys, floor))
  }

  /** The tried ids from `floor` on have no gaps, so there are at least as many as the last one says. */
  lemma SpanIsTried(sys: System, s: State, floor: nat, v: nat)
    requires Shape(sys, s) && Gapless(floor, Tried(s)) && v in Tried(s) && v >= floor
    ensures v - floor + 1 <= |AllTried(sys, s)|
  {
    forall u | u in Span(floor, v - floor + 1)
      ensures u in AllTried(sys, s)
    {
      AllBelowTried(floor, Tried(s), v, u);
      var k :| k in s.members && u in s.members[k].cands;
      assert IsKey(sys, k);
      AllTriedHas(sys, s, k, u);
    }
    SubsetIsSmaller(Span(floor, v - floor + 1), AllTried(sys, s));
  }

  lemma EnoughIsMore(sys: System, floor: nat)
    ensures floor <= Enough(sys, floor)
  {
  }

  lemma TriedIsBounded(sys: System, s: State, floor: nat, v: nat)
    requires Shape(sys, s) && Gapless(floor, Tried(s)) && v in Tried(s) && RoundsBounded(s, RoundBound(sys, floor))
    ensures v < Enough(sys, floor)
  {
    if v < floor {
      EnoughIsMore(sys, floor);
    } else {
      SpanIsTried(sys, s, floor, v);
      AllTriedBound(sys, s, RoundBound(sys, floor));
    }
  }

  lemma AllRoundsBounded(sys: System, s: State, steps: seq<Step>, floor: nat)
    requires Reaches(sys, steps, s) && InitialBelow(sys, floor)
    ensures RoundsBounded(s, RoundBound(sys, floor))
  {
    forall k | k in s.members
      ensures |s.members[k].cands| <= RoundBound(sys, floor)
    {
      RoundsBoundedByCalls(sys, s, steps, floor, k);
    }
  }

  lemma MaximumIsTried(sys: System, s: State, c: nat, r: nat, v: nat)
    requires Shape(sys, s) && c < |sys.calls| && IsMax(sys, s, c, r, v)
    ensures v in Tried(s)
  {
    var p :| p in sys.calls[c].members && s.members[Key(c, p)].cands[r] == v;
    assert Key(c, p) in s.members && v in s.members[Key(c, p)].cands;
  }

  /** With enough ids no call runs out of them, whatever the interleaving. */
  lemma EnoughIds(sys: System, s: State, steps: seq<Step>, floor: nat)
    requires Reaches(sys, steps, s) && Shape(sys, s) && InitialBelow(sys, floor) && sys.limit >= Enough(sys, floor)
    ensures NobodyExhausted(sys, s)
  {
    ReachableTried(sys, s, steps, floor);
    AllRoundsBounded(sys, s, steps, floor);
    forall c: nat, r: nat, v: nat | c < |sys.calls| && IsMax(sys, s, c, r, v)
      ensures v < sys.limit
    {
      MaximumIsTried(sys, s, c, r, v);
      TriedIsBounded(sys, s, floor, v);
    }
  }

  /** Then a run that cannot be continued has all calls done. */
  lemma CallsEnd(sys: System, s: State, steps: seq<Step>, floor: nat)
    requires Reaches(sys, steps, s) && Shape(sys, s) && InitialBelow(sys, floor) && sys.limit >= Enough(sys, floor)
    requires forall step :: !Enabled(sys, s, step)
    ensures AllDone(s)
  {
    EnoughIds(sys, s, steps, floor);
    forall k | k in s.members
      ensures s.members[k].pc.Done?
    {
      if !s.members[k].pc.Done? {
        var step := NoDeadlock(sys, s, steps, k);
      }
    }
  }

  /** And every run can be continued until all calls are done. */
  lemma CallsCanFinish(sys: System, steps: seq<Step>, s: State, floor: nat) returns (run: seq<Step>, t: State)
    requires Reaches(sys, steps, s) && Shape(sys, s) && InitialBelow(sys, floor) && sys.limit >= Enough(sys, floor)
    ensures steps <= run && Reaches(sys, run, t) && t.members.Keys == s.members.Keys && AllDone(t)
  {
    RunLengthBounded(sys, steps, s);
    var left;
    run, t, left := RunsCanFinish(sys, steps, s, |s.members| * StepBound(sys.limit) - |steps|);
    EnoughIds(sys, t, run, floor);
  }

  /** A blocking and a non-blocking call on the same two processes, where ids 0 and 1 are in use: 46 ids
      are enough, and there is a run at whose end both calls are done, with different ids. */
  lemma TwoCalls() returns (sys: System, run: seq<Step>, t: State)
    ensures sys.calls == [Call(0, {0, 1}, Blocking), Call(1, {0, 1}, NonBlocking)] && sys.limit == 46
    ensures Reaches(sys, run, t) && AllDone(t)
    ensures Key(0, 0) in t.members && Key(1, 0) in t.members
    ensures t.members[Key(0, 0)].pc.id != t.members[Key(1, 0)].pc.id
  {
    var s;
    sys, s := TwoIdleCalls();
    run, t := CallsCanFinish(sys, [], s, 2);
    assert Key(0, 0) in t.members.Keys && Key(1, 0) in t.members.Keys;
    SlotsAreExclusive(sys, t, run, Key(0, 0), Key(1, 0), t.members[Key(0, 0)].pc.id);
  }

  lemma TwoIdleCalls() returns (sys: System, s: State)
    ensures sys.calls == [Call(0, {0, 1}, Blocking), Call(1, {0, 1}, NonBlocking)] && sys.limit == 46
    ensures Reaches(sys, [], s) && Shape(sys, s) && InitialBelow(sys, 2) && sys.limit >= Enough(sys, 2)
    ensures s.members.Keys == {Key(0, 0), Key(0, 1), Key(1, 0), Key(1, 1)}
  {
    var used: Table := map[0 := Old, 1 := Old];
    sys := System({0, 1}, [Call(0, {0, 1}, Blocking), Call(1, {0, 1}, NonBlocking)], 46, map[0 := used, 1 := used]);
    var idle := Member(Idle, [], [], [], []);
    s := State(map[Key(0, 0) := idle, Key(0, 1) := idle, Key(1, 0) := idle, Key(1, 1) := idle], sys.initial,
               map[0 := [], 1 := []]);
    assert Init(sys, s);
    assert |sys.procs| == 2 && |sys.calls| == 2;
    assert RoundBound(sys, 2) == 11 && Enough(sys, 2) == 46;
  }
}
