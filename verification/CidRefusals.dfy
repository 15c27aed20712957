/** How often concurrent context-id calls can spoil each other's rounds (ompi/communicator/comm_cid.c).

    A round whose maximum was in use nowhere at the start is refused only because another call owns
    that slot at one of the processes.  The admission rule limits how often this can happen: at each
    process every other call causes at most two refusals. */
module CidRefusals {
  import opened CidProtocol
  import opened CidSafety
  import opened CidTheorems

  // ---------------------------------------------------------------------------
  // What one call can still do to another at one process
  // ---------------------------------------------------------------------------

  /** The votes against maxima from `floor` on, among the first `n`. */
  function Refusals(m: Member, floor: nat, n: nat): (z: nat) {
    if n == 0 then 0
    else
      Refusals(m, floor, n - 1)
      + (if n <= |m.votes| && n <= |m.maxes| && m.votes[n - 1] == 0 && m.maxes[n - 1] >= floor then 1 else 0)
  }

  /** The last maximum this process voted on. */
  function Last(m: Member): (v: int) {
    if 0 < |m.votes| <= |m.maxes| then m.maxes[|m.votes| - 1] else -1
  }

  function Ahead(id: nat, m: Member): (n: nat) { if id > Last(m) then 1 else 0 }

  function Undecided(pc: Pc): (n: nat) { if pc.Scan? || pc.MaxWait? || pc.Swap? then 1 else 0 }

  /** The refusals that a call with record `d` can still cause to one with record `c` at the same
      process; `dFirst` says that `d` is the one that the admission test prefers. */
  function Cause(c: Member, d: Member, dFirst: bool): (n: nat)
    ensures n <= 2
  {
    if Finished(c.pc) then 0
    else if dFirst then
      if d.pc.Idle? then 2 else if d.pc.Done? then Ahead(d.pc.id, c) else Undecided(c.pc) + 1
    else if c.pc.Idle? then 2
    else
      match d.pc
      case Idle => 0
      case Registered => 0
      case Spin(_) => 0
      case Scan(_, _) => 2
      case MaxWait(_, cand) => Ahead(cand, c) + 1
      case Swap(_, _) => 1
      case MinWait(_, max, response) => if response == 1 then Ahead(max, c) else 0
      case Won(id) => Ahead(id, c)
      case Leaving(id) => Ahead(id, c)
      case Done(id) => Ahead(id, c)
  }

  /** A step of the other call does not raise what it can still cause: it is not admitted while a
      preferred call is registered. */
  lemma OthersStepCauses(sys: System, step: Step, l: Local, c: Member, dFirst: bool)
    requires step.k.call < |sys.calls| && Told(sys.limit, step, l) && PcFits(sys.limit, l.m)
    requires step.Admit? && !dFirst ==> !InRegistry(c.pc)
    ensures Cause(c, Effect(sys, step, l).m, dFirst) <= Cause(c, l.m, dFirst)
  {
  }

  /** Nor does a step of the call itself. */
  lemma OwnStepCauses(sys: System, step: Step, l: Local, d: Member, dFirst: bool)
    requires step.k.call < |sys.calls| && Told(sys.limit, step, l) && PcFits(sys.limit, l.m)
    requires step.Admit? && dFirst ==> !InRegistry(d.pc)
    requires Last(l.m) <= Last(Effect(sys, step, l).m)
    ensures Cause(Effect(sys, step, l).m, d, dFirst) <= Cause(l.m, d, dFirst)
  {
  }

  /** A vote against a slot that the other call owns uses up one of its refusals. */
  lemma VoteUsesCause(sys: System, step: Step, l: Local, d: Member, dFirst: bool)
    requires step.k.call < |sys.calls| && step.TrySwap? && l.m.pc.Swap? && l.m.pc.max in l.table
             && PcFits(sys.limit, l.m)
    requires Last(l.m) < l.m.pc.max
    requires Holds(sys.limit, d.pc, l.m.pc.max) || Created(d.pc, l.m.pc.max)
    ensures Cause(Effect(sys, step, l).m, d, dFirst) < Cause(l.m, d, dFirst)
  {
    assert Last(Effect(sys, step, l).m) == l.m.pc.max;
  }

  lemma HeadIsLeast(list: seq<nat>)
    requires Ascending(list) && list != []
    ensures forall x :: x in list ==> list[0] <= x
  {
  }

  /** A call is admitted only where no preferred call is registered. */
  lemma AdmittedIsFirst(sys: System, s: State, step: Step, q: Key)
    requires Shape(sys, s) && RegistryOk(sys, s) && Enabled(sys, s, step) && step.k.proc in sys.procs
    requires q in s.members && step.k.proc == q.proc && sys.calls[q.call].parent < sys.calls[step.k.call].parent
    ensures step.Admit? ==> !InRegistry(s.members[q].pc)
  {
    if step.Admit? {
      HeadIsLeast(s.registry[q.proc]);
    }
  }

  // ---------------------------------------------------------------------------
  // All calls together
  // ---------------------------------------------------------------------------

  ghost function CauseAt(sys: System, s: State, k: Key, d: nat): (n: nat)
    requires Shape(sys, s) && k in s.members
    ensures n <= 2
  {
    if d == k.call || Key(d, k.proc) !in s.members then 0
    else Cause(s.members[k], s.members[Key(d, k.proc)], sys.calls[d].parent < sys.calls[k.call].parent)
  }

  /** The refusals that the first `n` calls can still cause to a process of one call. */
  ghost function Threat(sys: System, s: State, k: Key, n: nat): (t: nat)
    requires Shape(sys, s) && k in s.members
    ensures t <= 2 * n
  {
    if n == 0 then 0 else Threat(sys, s, k, n - 1) + CauseAt(sys, s, k, n - 1)
  }

  ghost predicate Budget(sys: System, s: State, floor: nat, k: Key)
    requires Shape(sys, s) && k in s.members
  {
    Refusals(s.members[k], floor, |s.members[k].votes|) + Threat(sys, s, k, |sys.calls|) <= 2 * |sys.calls|
  }

  ghost predicate InBudget(sys: System, s: State, floor: nat)
    requires Shape(sys, s)
  {
    forall k {:trigger Budget(sys, s, floor, k)} :: k in s.members ==> Budget(sys, s, floor, k)
  }

  /** A step votes at most once, on the maximum taken last. */
  lemma LastMoves(sys: System, step: Step, l: Local)
    requires step.k.call < |sys.calls| && Told(sys.limit, step, l) && PcFits(sys.limit, l.m)
    requires |l.m.votes| <= |l.m.maxes|
    ensures var m', n := Effect(sys, step, l).m, |l.m.votes|;
            Last(m') == Last(l.m) || (n < |m'.votes| <= |m'.maxes| && Last(m') == m'.maxes[n])
  {
  }

  lemma LastRises(sys: System, s: State, step: Step, s': State)
    requires Shape(sys, s) && Next(sys, s, step, s') && Shape(sys, s') && LocalOk(sys, s') && ResultsOk(sys, s')
    requires Told(sys.limit, step, View(s, step.k))
    requires PcFits(sys.limit, s.members[step.k]) && HistoryOk(sys.limit, s.members[step.k])
    ensures Last(s.members[step.k]) <= Last(s'.members[step.k])
  {
    var k := step.k;
    assert s'.members[k] == Effect(sys, step, View(s, k)).m;
    RisesFrom(sys, s', k, |s.members[k].votes|);
    LastRisesWith(sys, step, View(s, k));
  }

  lemma LastRisesWith(sys: System, step: Step, l: Local)
    requires step.k.call < |sys.calls| && Told(sys.limit, step, l) && PcFits(sys.limit, l.m)
    requires |l.m.votes| <= |l.m.maxes|
    requires var m', n := Effect(sys, step, l).m, |l.m.votes|; 0 < n < |m'.maxes| ==> m'.maxes[n - 1] < m'.maxes[n]
    ensures Last(l.m) <= Last(Effect(sys, step, l).m)
  {
    LastMoves(sys, step, l);
    EffectGrows(sys, step, l);
  }

  lemma RisesFrom(sys: System, s: State, k: Key, n: nat)
    requires Shape(sys, s) && LocalOk(sys, s) && ResultsOk(sys, s) && k in s.members
    ensures 0 < n < |s.members[k].maxes| ==> s.members[k].maxes[n - 1] < s.members[k].maxes[n]
  {
    if 0 < n < |s.members[k].maxes| {
      MaximaIncrease(sys, s, k, n - 1);
    }
  }

  lemma SwapIsAhead(sys: System, s: State, k: Key)
    requires Shape(sys, s) && LocalOk(sys, s) && ResultsOk(sys, s) && k in s.members && s.members[k].pc.Swap?
    ensures Last(s.members[k]) < s.members[k].pc.max
  {
    assert PcFits(sys.limit, s.members[k]);
    if |s.members[k].votes| > 0 {
      MaximaIncrease(sys, s, k, |s.members[k].votes| - 1);
    }
  }

  /** What is known of the process that takes a step. */
  lemma StepFacts(sys: System, s: State, step: Step, s': State)
    requires Inv(sys, s) && Next(sys, s, step, s')
    ensures PcFits(sys.limit, s.members[step.k]) && HistoryOk(sys.limit, s.members[step.k])
    ensures Told(sys.limit, step, View(s, step.k))
  {
    assert PcFits(sys.limit, s.members[step.k]);
    EnabledTells(sys, s, step);
  }

  lemma OwnCauseStep(sys: System, s: State, step: Step, s': State, q: Key)
    requires Shape(sys, s) && RegistryOk(sys, s) && Next(sys, s, step, s') && Shape(sys, s')
    requires PcFits(sys.limit, s.members[step.k]) && Told(sys.limit, step, View(s, step.k))
    requires Last(s.members[step.k]) <= Last(s'.members[step.k])
    requires q in s.members && q.call != step.k.call && q.proc == step.k.proc
    ensures CauseAt(sys, s', step.k, q.call) <= CauseAt(sys, s, step.k, q.call)
  {
    var k := step.k;
    assert q == Key(q.call, k.proc) && s'.members[q] == s.members[q];
    var dFirst := sys.calls[q.call].parent < sys.calls[k.call].parent;
    if dFirst {
      AdmittedIsFirst(sys, s, step, q);
    }
    OwnStepCauses(sys, step, View(s, k), s.members[q], dFirst);
  }

  lemma OthersCauseStep(sys: System, s: State, step: Step, s': State, k: Key)
    requires DistinctParents(sys) && Shape(sys, s) && RegistryOk(sys, s) && Next(sys, s, step, s') && Shape(sys, s')
    requires PcFits(sys.limit, s.members[step.k]) && Told(sys.limit, step, View(s, step.k))
    requires k in s.members && k.call != step.k.call && k.proc == step.k.proc
    ensures CauseAt(sys, s', k, step.k.call) <= CauseAt(sys, s, k, step.k.call)
  {
    var q := step.k;
    assert q == Key(q.call, k.proc) && s'.members[k] == s.members[k];
    var dFirst := sys.calls[q.call].parent < sys.calls[k.call].parent;
    if !dFirst {
      ParentsDiffer(sys, k, q);
      AdmittedIsFirst(sys, s, step, k);
    }
    OthersStepCauses(sys, step, View(s, q), s.members[k], dFirst);
  }

  lemma CauseStep(sys: System, s: State, step: Step, s': State, k: Key, d: nat)
    requires DistinctParents(sys) && Shape(sys, s) && RegistryOk(sys, s) && Next(sys, s, step, s') && Shape(sys, s')
    requires PcFits(sys.limit, s.members[step.k]) && Told(sys.limit, step, View(s, step.k))
    requires Last(s.members[step.k]) <= Last(s'.members[step.k]) && k in s.members
    ensures CauseAt(sys, s', k, d) <= CauseAt(sys, s, k, d)
  {
    var q := Key(d, k.proc);
    if d != k.call && q in s.members {
      if step.k == k {
        OwnCauseStep(sys, s, step, s', q);
      } else if step.k == q {
        OthersCauseStep(sys, s, step, s', k);
      }
    }
  }

  /** The call that owns a slot which was not in use at the start. */
  lemma OwnerOfSlot(sys: System, s: State, k: Key, i: nat) returns (d: nat)
    requires Inv(sys, s) && k in s.members && k.proc in sys.procs && s.members[k].pc.Swap?
    requires i in s.tables[k.proc] && i !in sys.initial[k.proc]
    ensures d < |sys.calls| && d != k.call && Key(d, k.proc) in s.members
    ensures var pc := s.members[Key(d, k.proc)].pc; Holds(sys.limit, pc, i) || Created(pc, i)
  {
    var o := s.tables[k.proc][i];
    assert SlotOk(sys, s, k.proc, i, o);
    d := o.call;
    assert Key(k.call, k.proc) == k;
  }

  /** If no term grows and one shrinks, the sum shrinks. */
  lemma {:induction false} ThreatStep(sys: System, s: State, s': State, k: Key, n: nat, d: nat)
    requires Shape(sys, s) && Shape(sys, s') && k in s.members && k in s'.members
    requires forall e :: 0 <= e < n ==> CauseAt(sys, s', k, e) <= CauseAt(sys, s, k, e)
    ensures Threat(sys, s', k, n) <= Threat(sys, s, k, n)
    ensures d < n && CauseAt(sys, s', k, d) < CauseAt(sys, s, k, d) ==> Threat(sys, s', k, n) < Threat(sys, s, k, n)
  {
    if n > 0 {
      ThreatStep(sys, s, s', k, n - 1, d);
    }
  }

  lemma {:induction false} RefusalsKept(m: Member, m': Member, floor: nat, n: nat)
    requires Grows(m, m') && n <= |m.votes| <= |m.maxes|
    ensures Refusals(m', floor, n) == Refusals(m, floor, n)
  {
    if n > 0 {
      RefusalsKept(m, m', floor, n - 1);
    }
  }

  /** Whether a step is a vote against a maximum from `floor` on. */
  predicate Refuses(step: Step, l: Local, floor: nat) {
    step.TrySwap? && l.m.pc.Swap? && l.m.pc.max in l.table && l.m.pc.max >= floor
  }

  lemma RefusalsStep(sys: System, step: Step, l: Local, floor: nat)
    requires step.k.call < |sys.calls| && Told(sys.limit, step, l) && PcFits(sys.limit, l.m)
    requires |l.m.votes| <= |l.m.maxes|
    ensures var m' := Effect(sys, step, l).m;
            Refusals(m', floor, |m'.votes|)
            <= Refusals(l.m, floor, |l.m.votes|) + (if Refuses(step, l, floor) then 1 else 0)
  {
    var m' := Effect(sys, step, l).m;
    EffectGrows(sys, step, l);
    RefusalsKept(l.m, m', floor, |l.m.votes|);
  }

  lemma RefusedVote(sys: System, s: State, step: Step, s': State, floor: nat) returns (d: nat)
    requires Inv(sys, s) && Next(sys, s, step, s') && Shape(sys, s')
    requires Refuses(step, View(s, step.k), floor)
    requires forall i :: i in sys.initial[step.k.proc] ==> i < floor
    ensures d < |sys.calls| && CauseAt(sys, s', step.k, d) < CauseAt(sys, s, step.k, d)
  {
    var k := step.k;
    d := OwnerOfSlot(sys, s, k, s.members[k].pc.max);
    StepFacts(sys, s, step, s');
    SwapIsAhead(sys, s, k);
    CauseUsed(sys, s, step, s', Key(d, k.proc));
  }

  lemma CauseUsed(sys: System, s: State, step: Step, s': State, q: Key)
    requires Shape(sys, s) && Next(sys, s, step, s') && Shape(sys, s') && Refuses(step, View(s, step.k), 0)
    requires PcFits(sys.limit, s.members[step.k]) && Last(s.members[step.k]) < s.members[step.k].pc.max
    requires q in s.members && q.call != step.k.call && q.proc == step.k.proc
    requires var pc, i := s.members[q].pc, s.members[step.k].pc.max; Holds(sys.limit, pc, i) || Created(pc, i)
    ensures CauseAt(sys, s', step.k, q.call) < CauseAt(sys, s, step.k, q.call)
  {
    var k := step.k;
    assert q == Key(q.call, k.proc) && s'.members[q] == s.members[q];
    VoteUsesCause(sys, step, View(s, k), s.members[q], sys.calls[q.call].parent < sys.calls[k.call].parent);
  }

  ghost predicate InitialBelow(sys: System, floor: nat) {
    forall p, i :: p in sys.initial && i in sys.initial[p] ==> i < floor
  }

  lemma BudgetStep(sys: System, s: State, step: Step, s': State, floor: nat, k: Key)
    requires Inv(sys, s) && Next(sys, s, step, s') && Inv(sys, s') && InitialBelow(sys, floor)
    requires k in s.members && Budget(sys, s, floor, k)
    ensures Budget(sys, s', floor, k)
  {
    StepFacts(sys, s, step, s');
    LastRises(sys, s, step, s');
    forall e | 0 <= e < |sys.calls|
      ensures CauseAt(sys, s', k, e) <= CauseAt(sys, s, k, e)
    {
      CauseStep(sys, s, step, s', k, e);
    }
    var d := 0;
    if k == step.k {
      RefusalsStep(sys, step, View(s, k), floor);
      if Refuses(step, View(s, k), floor) {
        d := RefusedVote(sys, s, step, s', floor);
      }
    }
    ThreatStep(sys, s, s', k, |sys.calls|, d);
  }

  lemma {:induction false} ReachableInBudget(sys: System, s: State, steps: seq<Step>, floor: nat)
    requires Reaches(sys, steps, s) && InitialBelow(sys, floor)
    ensures Shape(sys, s) && InBudget(sys, s, floor)
    decreases |steps|
  {
    if steps != [] {
      var init, step := steps[..|steps| - 1], steps[|steps| - 1];
      var prior :| Reaches(sys, init, prior) && Shape(sys, prior) && Next(sys, prior, step, s);
      ReachableInBudget(sys, prior, init, floor);
      ReachableInv(sys, prior, init);
      StepKeepsInv(sys, prior, step, s);
      forall k | k in s.members
        ensures Budget(sys, s, floor, k)
      {
        assert Budget(sys, prior, floor, k);
        BudgetStep(sys, prior, step, s, floor, k);
      }
    }
  }

  /** At each process, and whatever the interleaving, all other calls together cause a call at most
      two refusals each. */
  lemma RefusalsBounded(sys: System, s: State, steps: seq<Step>, floor: nat, k: Key)
    requires Reaches(sys, steps, s) && InitialBelow(sys, floor) && k in s.members
    ensures Refusals(s.members[k], floor, |s.members[k].votes|) <= 2 * |sys.calls|
  {
    ReachableInBudget(sys, s, steps, floor);
    assert Budget(sys, s, floor, k);
  }
}
