/** What the context-id protocol is for: agreement, exclusive slots, termination, no deadlock, and
    the least id that is free everywhere. */
module CidTheorems {
  import opened CidProtocol
  import opened CidSafety

  // ---------------------------------------------------------------------------
  // Agreement
  // ---------------------------------------------------------------------------

  lemma MaxUnique(sys: System, s: State, c: nat, r: nat, v: nat, w: nat)
    requires Shape(sys, s) && c < |sys.calls| && IsMax(sys, s, c, r, v) && IsMax(sys, s, c, r, w)
    ensures v == w
  {
  }

  lemma MinUnique(sys: System, s: State, c: nat, r: nat, v: nat, w: nat)
    requires Shape(sys, s) && c < |sys.calls| && IsMin(sys, s, c, r, v) && IsMin(sys, s, c, r, w)
    ensures v == w
  {
  }

  /** A process that has taken round `r`'s minimum without finishing there took a 0. */
  lemma RefusedOrLast(sys: System, s: State, q: Key, r: nat)
    requires Shape(sys, s) && LocalOk(sys, s) && q in s.members && r < |s.members[q].mins|
    ensures s.members[q].mins[r] == 0 || (Finished(s.members[q].pc) && r == |s.members[q].mins| - 1)
  {
    assert HistoryOk(sys.limit, s.members[q]);
  }

  /** Nobody goes past the round that another process saw accepted. */
  lemma AcceptedRoundIsLast(sys: System, s: State, k: Key, q: Key, r: nat)
    requires Shape(sys, s) && LocalOk(sys, s) && ResultsOk(sys, s) && k in s.members && q in s.members
             && k.call == q.call
    requires Finished(s.members[k].pc) && r == |s.members[k].mins| - 1
    ensures r < |s.members[q].votes|
    ensures Finished(s.members[q].pc) ==> |s.members[q].mins| <= r + 1
    ensures !Finished(s.members[q].pc) ==> |s.members[q].mins| <= r
  {
    assert PcFits(sys.limit, s.members[k]);
    assert IsMin(sys, s, k.call, r, 1);
    assert Key(q.call, q.proc) == q;
    if r < |s.members[q].mins| {
      RefusedOrLast(sys, s, q, r);
      MinUnique(sys, s, k.call, r, s.members[q].mins[r], 1);
    }
  }

  lemma LastRound(sys: System, s: State, k: Key) returns (r: nat)
    requires Shape(sys, s) && LocalOk(sys, s) && ResultsOk(sys, s) && k in s.members && Finished(s.members[k].pc)
    ensures r == |s.members[k].mins| - 1 && s.members[k].pc.id < sys.limit
    ensures IsMax(sys, s, k.call, r, s.members[k].pc.id) && IsMin(sys, s, k.call, r, 1)
  {
    assert PcFits(sys.limit, s.members[k]);
    r := |s.members[k].mins| - 1;
    assert IsMax(sys, s, k.call, r, s.members[k].maxes[r]) && IsMin(sys, s, k.call, r, s.members[k].mins[r]);
  }

  lemma FinishedAgree(sys: System, s: State, k: Key, q: Key)
    requires Shape(sys, s) && LocalOk(sys, s) && ResultsOk(sys, s) && k in s.members && q in s.members
             && k.call == q.call
    requires Finished(s.members[k].pc) && Finished(s.members[q].pc)
    ensures s.members[k].pc.id == s.members[q].pc.id
  {
    var r := LastRound(sys, s, k);
    var r' := LastRound(sys, s, q);
    AcceptedRoundIsLast(sys, s, k, q, r);
    AcceptedRoundIsLast(sys, s, q, k, r');
    MaxUnique(sys, s, k.call, r, s.members[k].pc.id, s.members[q].pc.id);
  }

  /** All processes of a call commit the same id. */
  lemma Agreement(sys: System, s: State, steps: seq<Step>, k: Key, q: Key)
    requires Reaches(sys, steps, s) && k in s.members && q in s.members && k.call == q.call
    requires Finished(s.members[k].pc) && Finished(s.members[q].pc)
    ensures s.members[k].pc.id == s.members[q].pc.id
  {
    ReachableInv(sys, s, steps);
    FinishedAgree(sys, s, k, q);
  }

  // ---------------------------------------------------------------------------
  // Slots
  // ---------------------------------------------------------------------------

  /** Two calls never own the same slot of a process, and none of them owns a slot that was in use
      before. */
  lemma SlotsAreExclusive(sys: System, s: State, steps: seq<Step>, k: Key, q: Key, i: nat)
    requires Reaches(sys, steps, s) && k in s.members && q in s.members && k.proc == q.proc && k != q
    requires Holds(sys.limit, s.members[k].pc, i) || Created(s.members[k].pc, i)
    ensures !Holds(sys.limit, s.members[q].pc, i) && !Created(s.members[q].pc, i)
    ensures k.proc in sys.procs && i !in sys.initial[k.proc]
  {
    ReachableInv(sys, s, steps);
    assert k.call != q.call by {
      assert k == Key(k.call, k.proc) && q == Key(q.call, q.proc);
    }
    var o := s.tables[k.proc][i];
    assert o == Held(k.call) || o == New(k.call);
    assert IsKey(sys, k);
  }

  /** A step frees a slot only if the process that takes it had reserved that slot. */
  lemma StepsClearOwnSlots(sys: System, s: State, steps: seq<Step>, step: Step, s': State, p: nat, i: nat)
    requires Reaches(sys, steps, s) && Shape(sys, s) && Next(sys, s, step, s')
    requires p in s.tables && i in s.tables[p] && p in s'.tables
    requires i !in s'.tables[p]
    ensures p == step.k.proc && s.tables[p][i] == Held(step.k.call) && Holds(sys.limit, s.members[step.k].pc, i)
  {
    ReachableInv(sys, s, steps);
    EnabledTells(sys, s, step);
    EffectTable(sys, step, View(s, step.k));
    if p == step.k.proc {
      assert i !in Effect(sys, step, View(s, step.k)).table;
      assert Holds(sys.limit, s.members[step.k].pc, i);
    }
  }

  /** Between rounds a call holds no slot, and once it is done its only trace in the table is the
      communicator it created. */
  lemma OnlyTheCommittedSlotStays(sys: System, s: State, steps: seq<Step>, c: nat, p: nat, i: nat)
    requires Reaches(sys, steps, s) && p in s.tables && i in s.tables[p]
    requires s.tables[p][i] == Held(c) || s.tables[p][i] == New(c)
    ensures Key(c, p) in s.members
    ensures var pc := s.members[Key(c, p)].pc;
            && !pc.Idle? && !pc.Registered? && !pc.Spin? && !pc.Scan?
            && (pc.Done? ==> i == pc.id && s.tables[p][i] == New(c))
  {
    ReachableInv(sys, s, steps);
    OwnerHasIt(sys, s, c, p, i);
  }

  lemma OwnerHasIt(sys: System, s: State, c: nat, p: nat, i: nat)
    requires Shape(sys, s) && OwnershipOk(sys, s) && p in s.tables && i in s.tables[p]
    requires s.tables[p][i] == Held(c) || s.tables[p][i] == New(c)
    ensures Key(c, p) in s.members
    ensures var pc := s.members[Key(c, p)].pc;
            && !pc.Idle? && !pc.Registered? && !pc.Spin? && !pc.Scan?
            && (pc.Done? ==> i == pc.id && s.tables[p][i] == New(c))
  {
    assert SlotOk(sys, s, p, i, s.tables[p][i]);
  }

  /** When every call is done, each table is the old one plus exactly the committed ids. */
  lemma FinalTables(sys: System, s: State, steps: seq<Step>, p: nat, i: nat)
    requires Reaches(sys, steps, s) && p in s.tables && p in sys.initial
    requires forall k :: k in s.members ==> s.members[k].pc.Done?
    ensures i in s.tables[p] <==>
            i in sys.initial[p] || exists k :: k in s.members && k.proc == p && s.members[k].pc.id == i
  {
    ReachableInv(sys, s, steps);
    if i in s.tables[p] {
      assert SlotOk(sys, s, p, i, s.tables[p][i]);
      if i !in sys.initial[p] {
        var k := Key(s.tables[p][i].call, p);
        assert k in s.members && k.proc == p && s.members[k].pc.id == i;
      }
    }
    if k :| k in s.members && k.proc == p && s.members[k].pc.id == i {
      assert Created(s.members[k].pc, i);
    }
  }

  // ---------------------------------------------------------------------------
  // Termination
  // ---------------------------------------------------------------------------

  /** The maximum of a call's round is larger than that of the round before. */
  lemma MaximaIncrease(sys: System, s: State, k: Key, r: nat)
    requires Shape(sys, s) && LocalOk(sys, s) && ResultsOk(sys, s) && k in s.members && r + 1 < |s.members[k].maxes|
    ensures s.members[k].maxes[r] < s.members[k].maxes[r + 1]
  {
    var c, m := k.call, s.members[k];
    assert IsMax(sys, s, c, r, m.maxes[r]) && IsMax(sys, s, c, r + 1, m.maxes[r + 1]);
    var p :| p in sys.calls[c].members && s.members[Key(c, p)].cands[r] == m.maxes[r];
    var q := Key(c, p);
    assert q in s.members && PcFits(sys.limit, s.members[q]) && HistoryOk(sys.limit, s.members[q]);
    assert r < |s.members[q].maxes|;
    MaxUnique(sys, s, c, r, m.maxes[r], s.members[q].maxes[r]);
    assert s.members[q].maxes[r] < s.members[q].cands[r + 1];
  }

  lemma {:induction false} MaximaAtLeast(sys: System, s: State, k: Key, r: nat)
    requires Shape(sys, s) && LocalOk(sys, s) && ResultsOk(sys, s) && k in s.members && r < |s.members[k].maxes|
    ensures r <= s.members[k].maxes[r]
  {
    if r > 0 {
      MaximaAtLeast(sys, s, k, r - 1);
      MaximaIncrease(sys, s, k, r - 1);
    }
  }

  function Phase(limit: nat, pc: Pc): (w: nat) {
    match pc
    case Idle => 0
    case Registered => 1
    case Spin(_) => limit + 8
    case Scan(_, i) => limit + 9 + (if i < limit then i else limit)
    case MaxWait(_, _) => limit + 4
    case Swap(_, _) => limit + 5
    case MinWait(_, _, _) => limit + 6
    case Won(_) => limit + 7
    case Leaving(_) => limit + 8
    case Done(_) => limit + 9
  }

  /** How far one process has come in a call. */
  function Progress(limit: nat, m: Member): (w: nat) {
    |m.cands| * (limit + 6) + Phase(limit, m.pc)
  }

  lemma StepsProgress(sys: System, step: Step, l: Local)
    requires step.k.call < |sys.calls| && Told(sys.limit, step, l)
    ensures Progress(sys.limit, l.m) < Progress(sys.limit, Effect(sys, step, l).m)
  {
    if step.Probe? && Effect(sys, step, l).m.pc.MaxWait? {
      assert (|l.m.cands| + 1) * (sys.limit + 6) == |l.m.cands| * (sys.limit + 6) + (sys.limit + 6);
    }
  }

  function StepsOf(steps: seq<Step>, k: Key): (n: nat) {
    if steps == [] then 0
    else StepsOf(steps[..|steps| - 1], k) + (if steps[|steps| - 1].k == k then 1 else 0)
  }

  lemma {:induction false} StepsAreProgress(sys: System, s: State, steps: seq<Step>, k: Key)
    requires Reaches(sys, steps, s) && k in s.members
    ensures StepsOf(steps, k) <= Progress(sys.limit, s.members[k])
    decreases |steps|
  {
    if steps != [] {
      var init, step := steps[..|steps| - 1], steps[|steps| - 1];
      var prior :| Reaches(sys, init, prior) && Shape(sys, prior) && Next(sys, prior, step, s);
      assert k in prior.members;
      StepsAreProgress(sys, prior, init, k);
      ReachableInv(sys, prior, init);
      if step.k == k {
        EnabledTells(sys, prior, step);
        StepsProgress(sys, step, View(prior, k));
      }
    }
  }

  lemma RoundsBounded(sys: System, s: State, k: Key)
    requires Shape(sys, s) && LocalOk(sys, s) && ResultsOk(sys, s) && k in s.members
    ensures |s.members[k].cands| <= sys.limit + 1
  {
    var m := s.members[k];
    assert PcFits(sys.limit, m) && HistoryOk(sys.limit, m);
    if |m.maxes| > 0 {
      MaximaAtLeast(sys, s, k, |m.maxes| - 1);
    }
  }

  lemma ReachableRoundsBounded(sys: System, s: State, steps: seq<Step>, k: Key)
    requires Reaches(sys, steps, s) && k in s.members
    ensures |s.members[k].cands| <= sys.limit + 1
  {
    ReachableInv(sys, s, steps);
    RoundsBounded(sys, s, k);
  }

  /** The number of steps of one process in one call, if ids run from 0 up to the limit. */
  function StepBound(limit: nat): (b: nat) {
    (limit + 1) * (limit + 6) + 2 * limit + 9
  }

  /** In every run, of either kind of call and with any interleaving, each process takes a bounded
      number of steps: no call can retry forever. */
  lemma EveryRunIsFinite(sys: System, s: State, steps: seq<Step>, k: Key)
    requires Reaches(sys, steps, s) && k in s.members
    ensures StepsOf(steps, k) <= StepBound(sys.limit)
  {
    StepsAreProgress(sys, s, steps, k);
    ReachableRoundsBounded(sys, s, steps, k);
    ProgressBounded(sys.limit, s.members[k]);
  }

  lemma ProgressBounded(limit: nat, m: Member)
    requires |m.cands| <= limit + 1
    ensures Progress(limit, m) <= StepBound(limit)
  {
    assert (limit + 1 - |m.cands|) * (limit + 6) >= 0;
  }

  // ---------------------------------------------------------------------------
  // No deadlock
  // ---------------------------------------------------------------------------

  /** A finite set of values has a least one. */
  lemma {:induction false} LeastOf<T>(xs: set<T>, f: T -> nat) returns (x: T)
    requires xs != {}
    ensures x in xs && forall y :: y in xs ==> f(x) <= f(y)
  {
    x :| x in xs;
    if xs != {x} {
      var y := LeastOf(xs - {x}, f);
      x := if f(y) < f(x) then y else x;
    }
  }

  /** A finite set of values has a greatest one. */
  lemma {:induction false} GreatestOf<T>(xs: set<T>, f: T -> nat) returns (x: T)
    requires xs != {}
    ensures x in xs && forall y :: y in xs ==> f(y) <= f(x)
  {
    x :| x in xs;
    if xs != {x} {
      var y := GreatestOf(xs - {x}, f);
      x := if f(y) > f(x) then y else x;
    }
  }

  lemma {:induction false} LowestFreeFrom(t: Table, n: nat, seen: set<nat>) returns (m: nat)
    requires seen <= t.Keys && forall i: nat :: i < n <==> i in seen
    ensures IsLowestFree(t, m)
    decreases t.Keys - seen
  {
    if n in t {
      assert n in t.Keys - seen && n !in t.Keys - (seen + {n});
      m := LowestFreeFrom(t, n + 1, seen + {n});
    } else {
      m := n;
    }
  }

  predicate Local(pc: Pc) {
    pc.Idle? || pc.Registered? || pc.Scan? || pc.Swap? || pc.Won? || pc.Leaving?
  }

  /** A process that waits for nobody can move. */
  lemma LocalMoves(sys: System, s: State, k: Key) returns (step: Step)
    requires Shape(sys, s) && k in s.members && Local(s.members[k].pc)
    ensures Enabled(sys, s, step) && step.k == k
  {
    match s.members[k].pc {
      case Idle => step := Register(k);
      case Registered =>
        var n := LowestFreeFrom(s.tables[k.proc], 0, {});
        step := ReadLowestFree(k, n);
      case Scan(_, _) => step := Probe(k);
      case Swap(_, _) => step := TrySwap(k);
      case Won(_) => step := Install(k);
      case Leaving(_) => step := Unregister(k);
    }
  }

  /** The unfinished call with the lowest parent id passes the admission test everywhere. */
  lemma LowestIsAdmitted(sys: System, s: State, k: Key, low: Key)
    requires Shape(sys, s) && RegistryOk(sys, s) && k in s.members && s.members[k].pc.Spin?
    requires low.call == k.call && IsLowestUnfinished(sys, s, low)
    ensures Enabled(sys, s, Admit(k))
  {
    var list, parent := s.registry[k.proc], sys.calls[k.call].parent;
    assert parent in list;
    var j :| 0 <= j < |list| && list[j] == parent;
    assert list[0] in list && list[0] <= parent;
    var q :| q in s.members && q.proc == k.proc && sys.calls[q.call].parent == list[0];
    assert InRegistry(s.members[q].pc);
  }

  lemma MaxExists(sys: System, s: State, c: nat, r: nat) returns (v: nat)
    requires Shape(sys, s) && c < |sys.calls|
    requires forall q :: q in sys.calls[c].members ==> r < |s.members[Key(c, q)].cands|
    ensures IsMax(sys, s, c, r, v)
  {
    var f := (q: nat) => if Key(c, q) in s.members && r < |s.members[Key(c, q)].cands| then s.members[Key(c, q)].cands[r] else 0;
    var q := GreatestOf(sys.calls[c].members, f);
    v := f(q);
    forall p | p in sys.calls[c].members
      ensures s.members[Key(c, p)].cands[r] <= v
    {
      assert f(p) <= f(q);
    }
  }

  lemma MinExists(sys: System, s: State, c: nat, r: nat) returns (v: nat)
    requires Shape(sys, s) && c < |sys.calls|
    requires forall q :: q in sys.calls[c].members ==> r < |s.members[Key(c, q)].votes|
    ensures IsMin(sys, s, c, r, v)
  {
    var f := (q: nat) => if Key(c, q) in s.members && r < |s.members[Key(c, q)].votes| then s.members[Key(c, q)].votes[r] else 0;
    var q := LeastOf(sys.calls[c].members, f);
    v := f(q);
    forall p | p in sys.calls[c].members
      ensures v <= s.members[Key(c, p)].votes[r]
    {
      assert f(q) <= f(p);
    }
  }

  /** No process has run out of ids: every complete MAX reduction stayed below the limit. */
  ghost predicate NobodyExhausted(sys: System, s: State)
    requires Shape(sys, s)
  {
    forall c: nat, r: nat, v: nat :: c < |sys.calls| && IsMax(sys, s, c, r, v) ==> v < sys.limit
  }

  predicate Waiting(pc: Pc) { pc.MaxWait? || pc.MinWait? }

  /** How many collectives a process has entered. */
  function Entered(m: Member): (n: nat) { |m.cands| + |m.votes| }

  /** A process that finished has entered more collectives than the least advanced one has taken results from. */
  lemma OthersHaveEntered(sys: System, s: State, k: Key, q: Key)
    requires Shape(sys, s) && LocalOk(sys, s) && ResultsOk(sys, s) && k in s.members && q in s.members
             && k.call == q.call
    requires Waiting(s.members[k].pc)
    requires s.members[q].pc.Done? || (Waiting(s.members[q].pc) && Entered(s.members[k]) <= Entered(s.members[q]))
    ensures s.members[k].pc.MaxWait? ==> |s.members[k].maxes| < |s.members[q].cands|
    ensures s.members[k].pc.MinWait? ==> |s.members[k].mins| < |s.members[q].votes|
  {
    assert PcFits(sys.limit, s.members[k]) && PcFits(sys.limit, s.members[q]);
    if s.members[q].pc.Done? {
      AcceptedRoundIsLast(sys, s, q, k, |s.members[q].mins| - 1);
    }
  }

  lemma CompleteMaxMoves(sys: System, s: State, k: Key) returns (step: Step)
    requires Shape(sys, s) && k in s.members && s.members[k].pc.MaxWait? && NobodyExhausted(sys, s)
    requires forall q :: q in sys.calls[k.call].members ==> |s.members[k].maxes| < |s.members[Key(k.call, q)].cands|
    ensures Enabled(sys, s, step)
  {
    var v := MaxExists(sys, s, k.call, |s.members[k].maxes|);
    step := FinishMax(k, v);
  }

  lemma CompleteMinMoves(sys: System, s: State, k: Key) returns (step: Step)
    requires Shape(sys, s) && k in s.members && s.members[k].pc.MinWait?
    requires forall q :: q in sys.calls[k.call].members ==> |s.members[k].mins| < |s.members[Key(k.call, q)].votes|
    ensures Enabled(sys, s, step)
  {
    var v := MinExists(sys, s, k.call, |s.members[k].mins|);
    step := FinishMin(k, v);
  }

  lemma LeastAdvancedMoves(sys: System, s: State, k: Key) returns (step: Step)
    requires Shape(sys, s) && LocalOk(sys, s) && ResultsOk(sys, s) && k in s.members && Waiting(s.members[k].pc)
    requires forall q :: q in s.members && q.call == k.call ==>
               s.members[q].pc.Done? || (Waiting(s.members[q].pc) && Entered(s.members[k]) <= Entered(s.members[q]))
    requires NobodyExhausted(sys, s)
    ensures Enabled(sys, s, step)
  {
    forall q | q in sys.calls[k.call].members
      ensures s.members[k].pc.MaxWait? ==> |s.members[k].maxes| < |s.members[Key(k.call, q)].cands|
      ensures s.members[k].pc.MinWait? ==> |s.members[k].mins| < |s.members[Key(k.call, q)].votes|
    {
      OthersHaveEntered(sys, s, k, Key(k.call, q));
    }
    if s.members[k].pc.MaxWait? {
      step := CompleteMaxMoves(sys, s, k);
    } else {
      step := CompleteMinMoves(sys, s, k);
    }
  }

  /** As long as some call is unfinished, some process can move, unless a call ran out of ids. */
  lemma NoDeadlock(sys: System, s: State, steps: seq<Step>, unfinished: Key) returns (step: Step)
    requires Reaches(sys, steps, s) && Shape(sys, s)
    requires unfinished in s.members && !s.members[unfinished].pc.Done?
    requires NobodyExhausted(sys, s)
    ensures Enabled(sys, s, step)
  {
    ReachableInv(sys, s, steps);
    var k := LowestUnfinished(sys, s, unfinished);
    step := LowestCallMoves(sys, s, k);
  }

  ghost predicate IsLowestUnfinished(sys: System, s: State, k: Key)
    requires Shape(sys, s)
  {
    && k in s.members && !s.members[k].pc.Done?
    && forall q :: q in s.members && !s.members[q].pc.Done? ==> sys.calls[k.call].parent <= sys.calls[q.call].parent
  }

  lemma LowestUnfinished(sys: System, s: State, unfinished: Key) returns (k: Key)
    requires Shape(sys, s) && unfinished in s.members && !s.members[unfinished].pc.Done?
    ensures IsLowestUnfinished(sys, s, k)
  {
    var open := set k | k in s.members && !s.members[k].pc.Done?;
    assert unfinished in open;
    var f := (k: Key) => if k.call < |sys.calls| then sys.calls[k.call].parent else 0;
    k := LeastOf(open, f);
    forall q | q in s.members && !s.members[q].pc.Done?
      ensures sys.calls[k.call].parent <= sys.calls[q.call].parent
    {
      assert q in open && f(k) <= f(q);
    }
  }

  lemma LeastAdvanced(s: State, k: Key) returns (q: Key)
    requires k in s.members && !s.members[k].pc.Done?
    ensures q in s.members && q.call == k.call && !s.members[q].pc.Done?
    ensures forall p :: p in s.members && p.call == k.call && !s.members[p].pc.Done? ==> Entered(s.members[q]) <= Entered(s.members[p])
  {
    var open := set p | p in s.members && p.call == k.call && !s.members[p].pc.Done?;
    assert k in open;
    var f := (p: Key) => if p in s.members then Entered(s.members[p]) else 0;
    q := LeastOf(open, f);
    forall p | p in s.members && p.call == k.call && !s.members[p].pc.Done?
      ensures Entered(s.members[q]) <= Entered(s.members[p])
    {
      assert p in open && f(q) <= f(p);
    }
  }

  lemma WaitingCallMoves(sys: System, s: State, k: Key) returns (step: Step)
    requires Shape(sys, s) && LocalOk(sys, s) && ResultsOk(sys, s) && NobodyExhausted(sys, s)
    requires k in s.members && !s.members[k].pc.Done?
    requires forall q :: q in s.members && q.call == k.call ==> s.members[q].pc.Done? || Waiting(s.members[q].pc)
    ensures Enabled(sys, s, step)
  {
    var q := LeastAdvanced(s, k);
    step := LeastAdvancedMoves(sys, s, q);
  }

  lemma LowestCallMoves(sys: System, s: State, k: Key) returns (step: Step)
    requires Shape(sys, s) && LocalOk(sys, s) && ResultsOk(sys, s) && RegistryOk(sys, s)
    requires IsLowestUnfinished(sys, s, k) && NobodyExhausted(sys, s)
    ensures Enabled(sys, s, step)
  {
    if q :| q in s.members && q.call == k.call && Local(s.members[q].pc) {
      step := LocalMoves(sys, s, q);
    } else if q :| q in s.members && q.call == k.call && s.members[q].pc.Spin? {
      LowestIsAdmitted(sys, s, q, k);
      step := Admit(q);
    } else {
      step := WaitingCallMoves(sys, s, k);
    }
  }
}
