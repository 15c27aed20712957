/** Which id a call commits: one that was free at every participant and, when the call runs alone,
    the least such id, for the blocking and the non-blocking schedule alike. */
module CidLeastId {
  import opened CidProtocol
  import opened CidSafety
  import opened CidTheorems
  import opened CommonIds

  /** What was in use at the participants of call `c` when the run began. */
  ghost function UsedAt(sys: System, c: nat): (used: set<set<nat>>)
    requires ValidSystem(sys) && c < |sys.calls|
    ensures forall g :: CommonFree(used, g) <==> forall p :: p in sys.calls[c].members ==> g !in sys.initial[p]
  {
    set p | p in sys.calls[c].members :: sys.initial[p].Keys
  }

  // ---------------------------------------------------------------------------
  // What a vote says about the tables
  // ---------------------------------------------------------------------------

  ghost predicate VoteFits(before: Table, m: Member, alone: bool) {
    forall r :: 0 <= r < |m.votes| && r < |m.maxes| ==>
      && (m.votes[r] == 1 ==> m.maxes[r] !in before)
      && (m.votes[r] == 0 && alone ==> m.maxes[r] in before)
  }

  ghost predicate VotesOk(sys: System, s: State)
    requires Shape(sys, s)
  {
    forall k :: k in s.members && k.proc in sys.procs ==> VoteFits(sys.initial[k.proc], s.members[k], |sys.calls| == 1)
  }

  /** What a process sees of its slot table: old slots, and its own when it holds one. */
  ghost predicate TableFits(before: Table, c: nat, l: Local, limit: nat, alone: bool) {
    && (forall i :: i in before ==> i in l.table && l.table[i] == Old)
    && (forall i :: Holds(limit, l.m.pc, i) ==> i in l.table && l.table[i] == Held(c))
    && (alone ==> forall i :: i in l.table && i !in before ==> Holds(limit, l.m.pc, i) || Created(l.m.pc, i))
  }

  lemma SeesTable(sys: System, s: State, k: Key)
    requires Shape(sys, s) && OwnershipOk(sys, s) && k in s.members && k.proc in sys.procs
    ensures TableFits(sys.initial[k.proc], k.call, View(s, k), sys.limit, |sys.calls| == 1)
  {
    if |sys.calls| == 1 {
      forall i | i in s.tables[k.proc] && i !in sys.initial[k.proc]
        ensures Holds(sys.limit, s.members[k].pc, i) || Created(s.members[k].pc, i)
      {
        var o := s.tables[k.proc][i];
        assert SlotOk(sys, s, k.proc, i, o);
        assert o.call == k.call;
      }
    }
  }

  lemma EffectVotes(sys: System, step: Step, l: Local, before: Table, alone: bool)
    requires step.k.call < |sys.calls| && Told(sys.limit, step, l) && PcFits(sys.limit, l.m)
    requires TableFits(before, step.k.call, l, sys.limit, alone) && VoteFits(before, l.m, alone)
    ensures VoteFits(before, Effect(sys, step, l).m, alone)
  {
    var m' := Effect(sys, step, l).m;
    if step.FinishMax? && m'.pc.MinWait? {
      assert Holds(sys.limit, l.m.pc, step.max);
    }
  }

  lemma {:induction false} ReachableVotes(sys: System, s: State, steps: seq<Step>)
    requires Reaches(sys, steps, s) && Shape(sys, s)
    ensures VotesOk(sys, s)
    decreases |steps|
  {
    if steps != [] {
      var init, step := steps[..|steps| - 1], steps[|steps| - 1];
      var prior :| Reaches(sys, init, prior) && Shape(sys, prior) && Next(sys, prior, step, s);
      ReachableVotes(sys, prior, init);
      ReachableInv(sys, prior, init);
      StepVotes(sys, prior, step, s);
    }
  }

  lemma StepVotes(sys: System, s: State, step: Step, s': State)
    requires Shape(sys, s) && LocalOk(sys, s) && OwnershipOk(sys, s) && VotesOk(sys, s)
    requires Next(sys, s, step, s') && Shape(sys, s')
    ensures VotesOk(sys, s')
  {
    EnabledTells(sys, s, step);
    SeesTable(sys, s, step.k);
    EffectVotes(sys, step, View(s, step.k), sys.initial[step.k.proc], |sys.calls| == 1);
  }

  /** An id that some process of the call has accepted was in use at no participant when the run
      began, whatever other calls did meanwhile. */
  lemma CommittedIdWasFree(sys: System, s: State, steps: seq<Step>, k: Key)
    requires Reaches(sys, steps, s) && Shape(sys, s) && k in s.members && Finished(s.members[k].pc)
    ensures CommonFree(UsedAt(sys, k.call), s.members[k].pc.id) && s.members[k].pc.id < sys.limit
  {
    ReachableInv(sys, s, steps);
    ReachableVotes(sys, s, steps);
    FinishedWasFree(sys, s, k);
  }

  lemma FinishedWasFree(sys: System, s: State, k: Key)
    requires Shape(sys, s) && LocalOk(sys, s) && ResultsOk(sys, s) && VotesOk(sys, s)
    requires k in s.members && Finished(s.members[k].pc)
    ensures CommonFree(UsedAt(sys, k.call), s.members[k].pc.id) && s.members[k].pc.id < sys.limit
  {
    var r := LastRound(sys, s, k);
    forall p | p in sys.calls[k.call].members
      ensures s.members[k].pc.id !in sys.initial[p]
    {
      AcceptedAt(sys, s, k, Key(k.call, p), r);
    }
  }

  lemma AcceptedAt(sys: System, s: State, k: Key, q: Key, r: nat)
    requires Shape(sys, s) && LocalOk(sys, s) && ResultsOk(sys, s) && VotesOk(sys, s)
    requires k in s.members && q in s.members && q.call == k.call && q.proc in sys.procs && Finished(s.members[k].pc)
    requires IsMax(sys, s, k.call, r, s.members[k].pc.id) && IsMin(sys, s, k.call, r, 1)
    ensures s.members[k].pc.id !in sys.initial[q.proc]
  {
    assert PcFits(sys.limit, s.members[q]) && HistoryOk(sys.limit, s.members[q]);
    assert Key(q.call, q.proc) == q;
    assert s.members[q].votes[r] == 1;
    MaxUnique(sys, s, k.call, r, s.members[k].pc.id, s.members[q].maxes[r]);
  }

  // ---------------------------------------------------------------------------
  // The least id
  // ---------------------------------------------------------------------------

  ghost predicate Below(g: nat, m: Member) {
    && (forall r :: 0 <= r < |m.cands| ==> m.cands[r] <= g)
    && (m.pc.Spin? || m.pc.Scan? || m.pc.MaxWait? || m.pc.Swap? || m.pc.MinWait? ==> m.pc.start <= g)
    && (m.pc.Scan? ==> m.pc.i <= g)
  }

  ghost predicate AllBelow(sys: System, s: State, g: nat)
    requires Shape(sys, s)
  {
    forall k :: k in s.members && k.call == 0 ==> Below(g, s.members[k])
  }

  lemma EffectBelow(sys: System, step: Step, l: Local, before: Table, g: nat)
    requires step.k.call < |sys.calls| && Told(sys.limit, step, l) && PcFits(sys.limit, l.m) && Below(g, l.m)
    requires TableFits(before, step.k.call, l, sys.limit, true)
    requires g !in before && g < sys.limit
    requires step.ReadLowestFree? ==> IsLowestFree(l.table, step.start)
    requires step.FinishMin? && step.min == 0 ==> l.m.pc.max < g
    ensures Below(g, Effect(sys, step, l).m)
  {
  }

  lemma MaxBelow(sys: System, s: State, k: Key, g: nat)
    requires Shape(sys, s) && ResultsOk(sys, s) && LocalOk(sys, s) && AllBelow(sys, s, g)
    requires k in s.members && k.call == 0 && s.members[k].pc.MinWait?
    ensures s.members[k].pc.max <= g
  {
    assert PcFits(sys.limit, s.members[k]);
    var r := |s.members[k].maxes| - 1;
    assert IsMax(sys, s, k.call, r, s.members[k].maxes[r]);
    var p :| p in sys.calls[k.call].members && s.members[Key(k.call, p)].cands[r] == s.members[k].maxes[r];
    assert Below(g, s.members[Key(k.call, p)]);
  }

  /** A refused maximum was in use somewhere. */
  lemma RefusedNotFree(sys: System, s: State, k: Key, g: nat)
    requires Shape(sys, s) && ResultsOk(sys, s) && LocalOk(sys, s) && VotesOk(sys, s) && |sys.calls| == 1
    requires k in s.members && s.members[k].pc.MinWait? && IsMin(sys, s, k.call, |s.members[k].mins|, 0)
    requires CommonFree(UsedAt(sys, k.call), g)
    ensures s.members[k].pc.max != g
  {
    var r := |s.members[k].mins|;
    assert PcFits(sys.limit, s.members[k]);
    var p :| p in sys.calls[k.call].members && s.members[Key(k.call, p)].votes[r] == 0;
    var q := Key(k.call, p);
    assert q in s.members && HistoryOk(sys.limit, s.members[q]);
    MaxUnique(sys, s, k.call, r, s.members[k].maxes[r], s.members[q].maxes[r]);
    assert VoteFits(sys.initial[p], s.members[q], true);
  }

  lemma {:induction false} ReachableBelow(sys: System, s: State, steps: seq<Step>, g: nat)
    requires Reaches(sys, steps, s) && Shape(sys, s) && |sys.calls| == 1 && CommonFree(UsedAt(sys, 0), g)
             && g < sys.limit
    ensures AllBelow(sys, s, g)
    decreases |steps|
  {
    if steps != [] {
      var init, step := steps[..|steps| - 1], steps[|steps| - 1];
      var prior :| Reaches(sys, init, prior) && Shape(sys, prior) && Next(sys, prior, step, s);
      ReachableBelow(sys, prior, init, g);
      ReachableInv(sys, prior, init);
      ReachableVotes(sys, prior, init);
      StepBelow(sys, prior, step, s, g);
    }
  }

  lemma MinBelow(sys: System, s: State, step: Step, g: nat)
    requires Shape(sys, s) && LocalOk(sys, s) && ResultsOk(sys, s) && VotesOk(sys, s) && Enabled(sys, s, step)
    requires |sys.calls| == 1 && CommonFree(UsedAt(sys, 0), g) && AllBelow(sys, s, g)
    requires step.FinishMin? && step.min == 0
    ensures s.members[step.k].pc.max < g
  {
    MaxBelow(sys, s, step.k, g);
    RefusedNotFree(sys, s, step.k, g);
  }

  lemma LocalBelow(sys: System, s: State, step: Step, g: nat)
    requires Shape(sys, s) && LocalOk(sys, s) && OwnershipOk(sys, s) && Enabled(sys, s, step)
             && step.k.proc in sys.procs
    requires |sys.calls| == 1 && CommonFree(UsedAt(sys, 0), g) && g < sys.limit && AllBelow(sys, s, g)
    requires step.FinishMin? && step.min == 0 ==> s.members[step.k].pc.max < g
    ensures Below(g, Effect(sys, step, View(s, step.k)).m)
  {
    EnabledTells(sys, s, step);
    SeesTable(sys, s, step.k);
    EffectBelow(sys, step, View(s, step.k), sys.initial[step.k.proc], g);
  }

  lemma StepBelow(sys: System, s: State, step: Step, s': State, g: nat)
    requires Shape(sys, s) && LocalOk(sys, s) && ResultsOk(sys, s) && OwnershipOk(sys, s) && VotesOk(sys, s)
    requires Next(sys, s, step, s') && Shape(sys, s')
    requires |sys.calls| == 1 && CommonFree(UsedAt(sys, 0), g) && g < sys.limit && AllBelow(sys, s, g)
    ensures AllBelow(sys, s', g)
  {
    if step.FinishMin? && step.min == 0 {
      MinBelow(sys, s, step, g);
    }
    LocalBelow(sys, s, step, g);
  }

  /** A call that runs alone commits the least id that was free at all its processes: for any
      number of processes, any tables, both schedules and any interleaving. */
  lemma AloneCommitsLeast(sys: System, s: State, steps: seq<Step>, k: Key, g: nat)
    requires Reaches(sys, steps, s) && Shape(sys, s) && |sys.calls| == 1
    requires IsLeastCommonFree(UsedAt(sys, 0), g) && g < sys.limit
    requires k in s.members && Finished(s.members[k].pc)
    ensures s.members[k].pc.id == g
  {
    ReachableInv(sys, s, steps);
    ReachableBelow(sys, s, steps, g);
    CommittedIdWasFree(sys, s, steps, k);
    FinishedBelow(sys, s, k, g);
  }

  lemma FinishedBelow(sys: System, s: State, k: Key, g: nat)
    requires Shape(sys, s) && ResultsOk(sys, s) && LocalOk(sys, s) && AllBelow(sys, s, g)
    requires k in s.members && k.call == 0 && Finished(s.members[k].pc)
    ensures s.members[k].pc.id <= g
  {
    var r := LastRound(sys, s, k);
    var p :| p in sys.calls[k.call].members && s.members[Key(k.call, p)].cands[r] == s.members[k].pc.id;
    assert Below(g, s.members[Key(k.call, p)]);
  }

  lemma MaximumBelow(sys: System, s: State, r: nat, v: nat, g: nat)
    requires Shape(sys, s) && AllBelow(sys, s, g) && |sys.calls| > 0 && IsMax(sys, s, 0, r, v)
    ensures v <= g
  {
    var p :| p in sys.calls[0].members && s.members[Key(0, p)].cands[r] == v;
    var m := s.members[Key(0, p)];
    assert Below(g, m) && m.cands[r] == v;
  }

  lemma NoMaximumAtLimit(sys: System, s: State, g: nat)
    requires Shape(sys, s) && AllBelow(sys, s, g) && |sys.calls| == 1 && g < sys.limit
    ensures NobodyExhausted(sys, s)
  {
    forall c: nat, r: nat, v: nat | c < |sys.calls| && IsMax(sys, s, c, r, v)
      ensures v < sys.limit
    {
      assert c == 0;
      MaximumBelow(sys, s, r, v, g);
    }
  }

  /** While some id below the limit is free everywhere, a call that runs alone never runs out. */
  lemma AloneNeverExhausted(sys: System, s: State, steps: seq<Step>, g: nat)
    requires Reaches(sys, steps, s) && Shape(sys, s) && |sys.calls| == 1 && CommonFree(UsedAt(sys, 0), g)
             && g < sys.limit
    ensures NobodyExhausted(sys, s)
  {
    ReachableBelow(sys, s, steps, g);
    NoMaximumAtLimit(sys, s, g);
  }

  /** A run that cannot be continued has every process done with that least id, and it occupies
      exactly one more slot than before. */
  lemma AloneEndsWithLeast(sys: System, s: State, steps: seq<Step>, k: Key, g: nat, i: nat)
    requires Reaches(sys, steps, s) && Shape(sys, s) && |sys.calls| == 1
    requires IsLeastCommonFree(UsedAt(sys, 0), g) && g < sys.limit
    requires forall step :: !Enabled(sys, s, step)
    requires k in s.members && k.proc in sys.procs
    ensures s.members[k].pc == Done(g)
    ensures i in s.tables[k.proc] <==> i in sys.initial[k.proc] || i == g
  {
    AloneNeverExhausted(sys, s, steps, g);
    forall q | q in s.members
      ensures s.members[q].pc == Done(g)
    {
      if !s.members[q].pc.Done? {
        var step := NoDeadlock(sys, s, steps, q);
      }
      AloneCommitsLeast(sys, s, steps, q, g);
    }
    FinalTables(sys, s, steps, k.proc, i);
  }
}
