/** What every interleaving of context-id calls keeps: slot ownership, the sorted registration
    lists, and agreement on the committed id. */
module CidSafety {
  import opened CidProtocol

  // ---------------------------------------------------------------------------
  // The invariant
  // ---------------------------------------------------------------------------

  /** The program counter agrees with the recorded contributions and results. */
  ghost predicate PcFits(limit: nat, m: Member) {
    var n := |m.cands|;
    match m.pc
    case Idle => n == |m.maxes| == |m.votes| == |m.mins| == 0
    case Registered => n == |m.maxes| == |m.votes| == |m.mins| == 0
    case Spin(start) =>
      && n == |m.maxes| == |m.votes| == |m.mins|
      && (n > 0 && m.cands[n - 1] == m.maxes[n - 1] ==> m.maxes[n - 1] < start)
    case Scan(start, i) =>
      && n == |m.maxes| == |m.votes| == |m.mins| && start <= i
      && (n > 0 && m.cands[n - 1] == m.maxes[n - 1] ==> m.maxes[n - 1] < start)
    case MaxWait(_, cand) =>
      && n == |m.maxes| + 1 == |m.votes| + 1 == |m.mins| + 1
      && m.cands[n - 1] == cand <= limit
    case Swap(_, max) =>
      && n == |m.maxes| == |m.votes| + 1 == |m.mins| + 1
      && m.cands[n - 1] < m.maxes[n - 1] == max < limit
    case MinWait(start, max, response) =>
      && n == |m.maxes| == |m.votes| == |m.mins| + 1
      && m.maxes[n - 1] == max < limit && m.votes[n - 1] == response <= 1
    case Won(id) => Accepted(limit, m, id)
    case Leaving(id) => Accepted(limit, m, id)
    case Done(id) => Accepted(limit, m, id)
  }

  ghost predicate Accepted(limit: nat, m: Member, id: nat) {
    var n := |m.cands|;
    n == |m.maxes| == |m.votes| == |m.mins| && n > 0 && m.maxes[n - 1] == id < limit && m.votes[n - 1] == m.mins[n - 1] == 1
  }

  predicate Finished(pc: Pc) { pc.Won? || pc.Leaving? || pc.Done? }

  /** What one process can say about its own past rounds. */
  ghost predicate HistoryOk(limit: nat, m: Member) {
    && |m.mins| <= |m.votes| <= |m.maxes| <= |m.cands|
    && (forall r :: 0 <= r < |m.maxes| ==> m.maxes[r] < limit)
    // a process that proposed the maximum accepts it, and proposes more next time
    && (forall r :: 0 <= r < |m.votes| ==> m.votes[r] <= 1 && (m.cands[r] == m.maxes[r] ==> m.votes[r] == 1))
    && (forall r :: 0 < r < |m.cands| && r <= |m.maxes| && m.cands[r - 1] == m.maxes[r - 1] ==> m.maxes[r - 1] < m.cands[r])
    // all rounds but the last were refused
    && (forall r :: 0 <= r < |m.mins| && !(Finished(m.pc) && r == |m.mins| - 1) ==> m.mins[r] == 0)
  }

  ghost predicate LocalOk(sys: System, s: State) {
    forall k {:trigger PcFits(sys.limit, s.members[k])} {:trigger HistoryOk(sys.limit, s.members[k])} :: k in s.members ==>
      PcFits(sys.limit, s.members[k]) && HistoryOk(sys.limit, s.members[k])
  }

  /** Results are the reductions of everybody's contributions. */
  ghost predicate ResultsOk(sys: System, s: State)
    requires Shape(sys, s)
  {
    && (forall k, r {:trigger IsMax(sys, s, k.call, r, s.members[k].maxes[r])} :: k in s.members && 0 <= r < |s.members[k].maxes| ==>
          IsMax(sys, s, k.call, r, s.members[k].maxes[r]))
    && (forall k, r {:trigger IsMin(sys, s, k.call, r, s.members[k].mins[r])} :: k in s.members && 0 <= r < |s.members[k].mins| ==>
          IsMin(sys, s, k.call, r, s.members[k].mins[r]))
  }

  /** The slot a process has reserved for a running call. */
  ghost predicate Holds(limit: nat, pc: Pc, i: nat) {
    match pc
    case MaxWait(_, cand) => i == cand < limit
    case MinWait(_, max, response) => response == 1 && i == max
    case Won(id) => i == id
    case _ => false
  }

  ghost predicate Created(pc: Pc, i: nat) {
    (pc.Leaving? || pc.Done?) && pc.id == i
  }

  /** A slot says it belongs to a call exactly when that call believes it owns the slot. */
  ghost predicate OwnershipOk(sys: System, s: State)
    requires Shape(sys, s)
  {
    && (forall p, i :: p in s.tables && i in s.tables[p] ==> SlotOk(sys, s, p, i, s.tables[p][i]))
    && (forall k, i :: k in s.members && Holds(sys.limit, s.members[k].pc, i)
                       ==> i in s.tables[k.proc] && s.tables[k.proc][i] == Held(k.call))
    && (forall k, i :: k in s.members && Created(s.members[k].pc, i)
                       ==> i in s.tables[k.proc] && s.tables[k.proc][i] == New(k.call))
    && (forall p, i :: p in sys.procs && i in sys.initial[p] ==> i in s.tables[p] && s.tables[p][i] == Old)
  }

  ghost predicate SlotOk(sys: System, s: State, p: nat, i: nat, o: Owner)
    requires Shape(sys, s) && p in sys.procs
  {
    match o
    case Old => i in sys.initial[p]
    case Held(c) => IsKey(sys, Key(c, p)) && Holds(sys.limit, s.members[Key(c, p)].pc, i)
    case New(c) => IsKey(sys, Key(c, p)) && Created(s.members[Key(c, p)].pc, i)
  }

  ghost predicate Ascending(cids: seq<nat>) {
    forall i, j :: 0 <= i < j < |cids| ==> cids[i] < cids[j]
  }

  ghost predicate InRegistry(pc: Pc) { !pc.Idle? && !pc.Done? }

  /** Each list is sorted and names exactly the calls that are registered there. */
  ghost predicate RegistryOk(sys: System, s: State)
    requires Shape(sys, s)
  {
    && (forall p :: p in s.registry ==> Ascending(s.registry[p]))
    && (forall k :: k in s.members ==>
          (InRegistry(s.members[k].pc) <==> sys.calls[k.call].parent in s.registry[k.proc]))
    && (forall p, cid :: p in s.registry && cid in s.registry[p] ==>
          exists k :: k in s.members && k.proc == p && sys.calls[k.call].parent == cid)
  }

  ghost predicate Inv(sys: System, s: State) {
    && Shape(sys, s) && DistinctParents(sys)
    && LocalOk(sys, s)
    && ResultsOk(sys, s)
    && OwnershipOk(sys, s)
    && RegistryOk(sys, s)
  }

  // ---------------------------------------------------------------------------
  // Collectives are stable
  // ---------------------------------------------------------------------------

  /** The history of one process grew. */
  predicate Grows(m: Member, m': Member) {
    m.cands <= m'.cands && m.maxes <= m'.maxes && m.votes <= m'.votes && m.mins <= m'.mins
  }

  lemma PutShape(sys: System, s: State, k: Key, l: Local)
    requires Shape(sys, s) && IsKey(sys, k)
    ensures k.proc in sys.procs && Shape(sys, Put(s, k, l))
  {
  }

  lemma EffectGrows(sys: System, step: Step, l: Local)
    requires step.k.call < |sys.calls|
    ensures Grows(l.m, Effect(sys, step, l).m)
  {
  }

  lemma MaxStable(sys: System, s: State, k: Key, l: Local, c: nat, r: nat, v: nat)
    requires Shape(sys, s) && IsKey(sys, k) && Shape(sys, Put(s, k, l)) && Grows(s.members[k], l.m)
    requires c < |sys.calls| && IsMax(sys, s, c, r, v)
    ensures IsMax(sys, Put(s, k, l), c, r, v)
  {
    var s' := Put(s, k, l);
    forall q | q in sys.calls[c].members
      ensures r < |s'.members[Key(c, q)].cands| && s'.members[Key(c, q)].cands[r] == s.members[Key(c, q)].cands[r]
    {
      assert IsKey(sys, Key(c, q));
    }
  }

  lemma MinStable(sys: System, s: State, k: Key, l: Local, c: nat, r: nat, v: nat)
    requires Shape(sys, s) && IsKey(sys, k) && Shape(sys, Put(s, k, l)) && Grows(s.members[k], l.m)
    requires c < |sys.calls| && IsMin(sys, s, c, r, v)
    ensures IsMin(sys, Put(s, k, l), c, r, v)
  {
    var s' := Put(s, k, l);
    forall q | q in sys.calls[c].members
      ensures r < |s'.members[Key(c, q)].votes| && s'.members[Key(c, q)].votes[r] == s.members[Key(c, q)].votes[r]
    {
      assert IsKey(sys, Key(c, q));
    }
  }

  // ---------------------------------------------------------------------------
  // Preservation, part by part
  // ---------------------------------------------------------------------------

  /** What the guard of a step tells the process that takes it. */
  ghost predicate Told(limit: nat, step: Step, l: Local) {
    match step
    case Register(_) => l.m.pc.Idle?
    case ReadLowestFree(_, _) => l.m.pc.Registered?
    case Admit(_) => l.m.pc.Spin?
    case Probe(_) => l.m.pc.Scan?
    case FinishMax(_, max) => l.m.pc.MaxWait? && l.m.pc.cand <= max < limit
    case TrySwap(_) => l.m.pc.Swap?
    case FinishMin(_, min) => l.m.pc.MinWait? && min <= l.m.pc.response && min <= 1
    case Install(_) => l.m.pc.Won?
    case Unregister(_) => l.m.pc.Leaving?
  }

  lemma EnabledTells(sys: System, s: State, step: Step)
    requires Shape(sys, s) && IsKey(sys, step.k) && PcFits(sys.limit, s.members[step.k]) && Enabled(sys, s, step)
    requires step.k.proc in sys.procs
    ensures Told(sys.limit, step, View(s, step.k))
  {
    var k := step.k;
    assert Key(k.call, k.proc) == k;
  }

  lemma CollectivePcFits(sys: System, step: Step, l: Local)
    requires step.k.call < |sys.calls| && PcFits(sys.limit, l.m) && HistoryOk(sys.limit, l.m)
             && Told(sys.limit, step, l)
    requires step.FinishMax? || step.TrySwap? || step.FinishMin?
    ensures PcFits(sys.limit, Effect(sys, step, l).m)
  {
  }

  lemma EffectPcFits(sys: System, step: Step, l: Local)
    requires step.k.call < |sys.calls| && PcFits(sys.limit, l.m) && HistoryOk(sys.limit, l.m)
             && Told(sys.limit, step, l)
    ensures PcFits(sys.limit, Effect(sys, step, l).m)
  {
    if step.FinishMax? || step.TrySwap? || step.FinishMin? {
      CollectivePcFits(sys, step, l);
    }
  }

  lemma OfferKeepsHistory(limit: nat, m: Member, pc: Pc, cand: nat)
    requires HistoryOk(limit, m) && !Finished(m.pc) && !Finished(pc) && |m.cands| == |m.maxes|
    requires var n := |m.cands|; n > 0 && m.cands[n - 1] == m.maxes[n - 1] ==> m.maxes[n - 1] < cand
    ensures HistoryOk(limit, Offer(m, pc, cand))
  {
  }

  lemma TakeMaxKeepsHistory(limit: nat, m: Member, pc: Pc, max: nat)
    requires HistoryOk(limit, m) && !Finished(m.pc) && !Finished(pc) && |m.cands| == |m.maxes| + 1 == |m.votes| + 1
    requires max < limit
    ensures HistoryOk(limit, TakeMax(m, pc, max))
  {
  }

  lemma VoteKeepsHistory(limit: nat, m: Member, pc: Pc, v: nat)
    requires HistoryOk(limit, m) && !Finished(m.pc) && !Finished(pc) && |m.maxes| == |m.votes| + 1
    requires v <= 1 && (m.cands[|m.votes|] == m.maxes[|m.votes|] ==> v == 1)
    ensures HistoryOk(limit, Vote(m, pc, v))
  {
  }

  lemma TakeMinKeepsHistory(limit: nat, m: Member, pc: Pc, min: nat)
    requires HistoryOk(limit, m) && !Finished(m.pc) && |m.votes| == |m.mins| + 1
    requires min == 0 || Finished(pc)
    ensures HistoryOk(limit, TakeMin(m, pc, min))
  {
  }

  lemma MoveKeepsHistory(limit: nat, m: Member, pc: Pc)
    requires HistoryOk(limit, m) && (Finished(m.pc) ==> Finished(pc))
    ensures HistoryOk(limit, m.(pc := pc))
  {
  }

  lemma ProbeKeepsHistory(sys: System, step: Step, l: Local)
    requires step.k.call < |sys.calls| && PcFits(sys.limit, l.m) && HistoryOk(sys.limit, l.m)
    requires step.Probe? && l.m.pc.Scan?
    ensures HistoryOk(sys.limit, Effect(sys, step, l).m)
  {
    var pc := Effect(sys, step, l).m.pc;
    if pc.MaxWait? {
      OfferKeepsHistory(sys.limit, l.m, pc, pc.cand);
    } else {
      MoveKeepsHistory(sys.limit, l.m, pc);
    }
  }

  lemma FinishMaxKeepsHistory(sys: System, step: Step, l: Local)
    requires step.k.call < |sys.calls| && PcFits(sys.limit, l.m) && HistoryOk(sys.limit, l.m)
    requires step.FinishMax? && Told(sys.limit, step, l)
    ensures HistoryOk(sys.limit, Effect(sys, step, l).m)
  {
    var m, pc := l.m, Effect(sys, step, l).m.pc;
    if pc.MinWait? {
      TakeMaxKeepsHistory(sys.limit, m, m.pc, step.max);
      VoteKeepsHistory(sys.limit, TakeMax(m, m.pc, step.max), pc, 1);
    } else {
      TakeMaxKeepsHistory(sys.limit, m, pc, step.max);
    }
  }

  lemma EffectHistory(sys: System, step: Step, l: Local)
    requires step.k.call < |sys.calls| && PcFits(sys.limit, l.m) && HistoryOk(sys.limit, l.m)
             && Told(sys.limit, step, l)
    ensures HistoryOk(sys.limit, Effect(sys, step, l).m)
  {
    var pc := Effect(sys, step, l).m.pc;
    if step.Probe? {
      ProbeKeepsHistory(sys, step, l);
    } else if step.FinishMax? {
      FinishMaxKeepsHistory(sys, step, l);
    } else if step.TrySwap? {
      VoteKeepsHistory(sys.limit, l.m, pc, pc.response);
    } else if step.FinishMin? {
      TakeMinKeepsHistory(sys.limit, l.m, pc, step.min);
    } else {
      MoveKeepsHistory(sys.limit, l.m, pc);
    }
  }

  lemma LocalStep(sys: System, s: State, step: Step, s': State)
    requires Shape(sys, s) && LocalOk(sys, s) && Next(sys, s, step, s')
    ensures LocalOk(sys, s')
  {
    EnabledTells(sys, s, step);
    EffectPcFits(sys, step, View(s, step.k));
    EffectHistory(sys, step, View(s, step.k));
  }

  /** A step takes at most one result, and its guard says that it is the reduction. */
  lemma EffectTakes(sys: System, s: State, step: Step)
    requires Shape(sys, s) && Enabled(sys, s, step) && step.k.proc in sys.procs
    ensures var m, m' := s.members[step.k], Effect(sys, step, View(s, step.k)).m;
            && (m'.maxes == m.maxes || (m'.maxes == m.maxes + [step.max] && IsMax(sys, s, step.k.call, |m.maxes|, step.max)))
            && (m'.mins == m.mins || (m'.mins == m.mins + [step.min] && IsMin(sys, s, step.k.call, |m.mins|, step.min)))
  {
  }

  lemma MaxesStep(sys: System, s: State, step: Step, s': State, k: Key, r: nat)
    requires Shape(sys, s) && ResultsOk(sys, s) && Next(sys, s, step, s') && Shape(sys, s')
    requires k in s'.members && r < |s'.members[k].maxes|
    ensures IsMax(sys, s', k.call, r, s'.members[k].maxes[r])
  {
    EffectGrows(sys, step, View(s, step.k));
    EffectTakes(sys, s, step);
    assert k == step.k || s'.members[k] == s.members[k];
    if r < |s.members[k].maxes| {
      assert IsMax(sys, s, k.call, r, s.members[k].maxes[r]);
    }
    MaxStable(sys, s, step.k, Effect(sys, step, View(s, step.k)), k.call, r, s'.members[k].maxes[r]);
  }

  lemma MinsStep(sys: System, s: State, step: Step, s': State, k: Key, r: nat)
    requires Shape(sys, s) && ResultsOk(sys, s) && Next(sys, s, step, s') && Shape(sys, s')
    requires k in s'.members && r < |s'.members[k].mins|
    ensures IsMin(sys, s', k.call, r, s'.members[k].mins[r])
  {
    EffectGrows(sys, step, View(s, step.k));
    EffectTakes(sys, s, step);
    assert k == step.k || s'.members[k] == s.members[k];
    if r < |s.members[k].mins| {
      assert IsMin(sys, s, k.call, r, s.members[k].mins[r]);
    }
    MinStable(sys, s, step.k, Effect(sys, step, View(s, step.k)), k.call, r, s'.members[k].mins[r]);
  }

  lemma ResultsStep(sys: System, s: State, step: Step, s': State)
    requires Shape(sys, s) && ResultsOk(sys, s) && Next(sys, s, step, s') && Shape(sys, s')
    ensures ResultsOk(sys, s')
  {
    forall k, r | k in s'.members && 0 <= r < |s'.members[k].maxes|
      ensures IsMax(sys, s', k.call, r, s'.members[k].maxes[r])
    {
      MaxesStep(sys, s, step, s', k, r);
    }
    forall k, r | k in s'.members && 0 <= r < |s'.members[k].mins|
      ensures IsMin(sys, s', k.call, r, s'.members[k].mins[r])
    {
      MinsStep(sys, s, step, s', k, r);
    }
  }

  /** The table of one process after a step: the call that moved gained or lost only what it now
      holds or held before, and nobody else's slots changed. */
  ghost predicate TableMoves(limit: nat, c: nat, l: Local, l': Local) {
    forall i: nat ::
      if Holds(limit, l'.m.pc, i) then
        i in l'.table && l'.table[i] == Held(c) && (Holds(limit, l.m.pc, i) || i !in l.table)
      else if Created(l'.m.pc, i) then
        i in l'.table && l'.table[i] == New(c) && (Holds(limit, l.m.pc, i) || Created(l.m.pc, i))
      else if Holds(limit, l.m.pc, i) then
        i !in l'.table
      else
        !Created(l.m.pc, i) && (i in l.table <==> i in l'.table) && (i in l.table ==> l.table[i] == l'.table[i])
  }

  lemma EffectTable(sys: System, step: Step, l: Local)
    requires step.k.call < |sys.calls| && PcFits(sys.limit, l.m) && Told(sys.limit, step, l)
    requires forall i :: Holds(sys.limit, l.m.pc, i) ==> i in l.table && l.table[i] == Held(step.k.call)
    requires forall i :: Created(l.m.pc, i) ==> i in l.table && l.table[i] == New(step.k.call)
    ensures TableMoves(sys.limit, step.k.call, l, Effect(sys, step, l))
  {
  }

  lemma OwnershipStep(sys: System, s: State, step: Step, s': State)
    requires Shape(sys, s) && LocalOk(sys, s) && OwnershipOk(sys, s) && Next(sys, s, step, s') && Shape(sys, s')
    ensures OwnershipOk(sys, s')
  {
    EnabledTells(sys, s, step);
    EffectTable(sys, step, View(s, step.k));
    TableMovesKeepOwnership(sys, s, step.k, Effect(sys, step, View(s, step.k)));
  }

  lemma OthersKeepSlots(s: State, k: Key, l: Local, k2: Key, i: nat, o: Owner, limit: nat)
    requires k in s.members && k.proc in s.tables && k.proc in s.registry && k2.proc in s.tables
    requires TableMoves(limit, k.call, View(s, k), l) && k2 != k
    requires o == Held(k2.call) || o == New(k2.call)
    requires forall j :: Holds(limit, s.members[k].pc, j) ==> j in s.tables[k.proc] && s.tables[k.proc][j] == Held(k.call)
    requires forall j :: Created(s.members[k].pc, j) ==> j in s.tables[k.proc] && s.tables[k.proc][j] == New(k.call)
    requires i in s.tables[k2.proc] && s.tables[k2.proc][i] == o
    ensures i in Put(s, k, l).tables[k2.proc] && Put(s, k, l).tables[k2.proc][i] == o
  {
  }

  lemma TableMovesKeepHeld(sys: System, s: State, k: Key, l: Local, k2: Key, i: nat)
    requires Shape(sys, s) && OwnershipOk(sys, s) && IsKey(sys, k) && k.proc in sys.procs && Shape(sys, Put(s, k, l))
    requires TableMoves(sys.limit, k.call, View(s, k), l) && k2 in s.members
    ensures var s' := Put(s, k, l);
            && (Holds(sys.limit, s'.members[k2].pc, i) ==> i in s'.tables[k2.proc] && s'.tables[k2.proc][i] == Held(k2.call))
            && (Created(s'.members[k2].pc, i) ==> i in s'.tables[k2.proc] && s'.tables[k2.proc][i] == New(k2.call))
  {
    if k2 != k && Holds(sys.limit, s.members[k2].pc, i) {
      OthersKeepSlots(s, k, l, k2, i, Held(k2.call), sys.limit);
    }
    if k2 != k && Created(s.members[k2].pc, i) {
      OthersKeepSlots(s, k, l, k2, i, New(k2.call), sys.limit);
    }
  }

  lemma TableMovesKeepOwnership(sys: System, s: State, k: Key, l: Local)
    requires Shape(sys, s) && OwnershipOk(sys, s) && IsKey(sys, k) && k.proc in sys.procs && Shape(sys, Put(s, k, l))
    requires TableMoves(sys.limit, k.call, View(s, k), l)
    ensures OwnershipOk(sys, Put(s, k, l))
  {
    var s' := Put(s, k, l);
    forall p, i | p in s'.tables && i in s'.tables[p]
      ensures SlotOk(sys, s', p, i, s'.tables[p][i])
    {
      TableMovesKeepSlot(sys, s, k, l, p, i);
    }
    forall k2, i | k2 in s'.members && Holds(sys.limit, s'.members[k2].pc, i)
      ensures i in s'.tables[k2.proc] && s'.tables[k2.proc][i] == Held(k2.call)
    {
      TableMovesKeepHeld(sys, s, k, l, k2, i);
    }
    forall k2, i | k2 in s'.members && Created(s'.members[k2].pc, i)
      ensures i in s'.tables[k2.proc] && s'.tables[k2.proc][i] == New(k2.call)
    {
      TableMovesKeepHeld(sys, s, k, l, k2, i);
    }
  }

  lemma TableMovesKeepSlot(sys: System, s: State, k: Key, l: Local, p: nat, i: nat)
    requires Shape(sys, s) && OwnershipOk(sys, s) && IsKey(sys, k) && k.proc in sys.procs && Shape(sys, Put(s, k, l))
    requires TableMoves(sys.limit, k.call, View(s, k), l)
    requires p in sys.procs && i in Put(s, k, l).tables[p]
    ensures SlotOk(sys, Put(s, k, l), p, i, Put(s, k, l).tables[p][i])
  {
    if p == k.proc {
      if !Holds(sys.limit, l.m.pc, i) && !Created(l.m.pc, i) {
        assert i in s.tables[p] && SlotOk(sys, s, p, i, s.tables[p][i]);
      }
    } else {
      assert SlotOk(sys, s, p, i, s.tables[p][i]);
    }
  }

  lemma {:induction false} InsertNew(cids: seq<nat>, cid: nat)
    requires Ascending(cids) && cid !in cids
    ensures Ascending(InsertSorted(cids, cid))
    ensures forall x :: x in InsertSorted(cids, cid) <==> x == cid || x in cids
  {
    if cids != [] && cids[0] <= cid {
      InsertNew(cids[1..], cid);
      var r := InsertSorted(cids[1..], cid);
      assert forall x :: x in cids <==> x == cids[0] || x in cids[1..];
      forall j | 0 <= j < |r| ensures cids[0] < r[j] {
        assert r[j] in r;
      }
    }
  }

  lemma {:induction false} RemoveOnly(cids: seq<nat>, cid: nat)
    requires Ascending(cids)
    ensures Ascending(RemoveFirst(cids, cid))
    ensures forall x :: x in RemoveFirst(cids, cid) <==> x != cid && x in cids
  {
    if cids != [] {
      assert forall x :: x in cids <==> x == cids[0] || x in cids[1..];
      if cids[0] != cid {
        RemoveOnly(cids[1..], cid);
        var r := RemoveFirst(cids[1..], cid);
        forall j | 0 <= j < |r| ensures cids[0] < r[j] {
          assert r[j] in r;
        }
      }
    }
  }

  /** A registration list after a step: the process that moved added or removed only its own entry. */
  ghost predicate ListMoves(cid: nat, cids: seq<nat>, cids': seq<nat>, inside: bool) {
    && Ascending(cids')
    && (cid in cids' <==> inside)
    && (forall x :: x != cid ==> (x in cids <==> x in cids'))
  }

  lemma EffectList(sys: System, step: Step, l: Local)
    requires step.k.call < |sys.calls| && Told(sys.limit, step, l) && Ascending(l.cids)
    requires InRegistry(l.m.pc) <==> sys.calls[step.k.call].parent in l.cids
    ensures ListMoves(sys.calls[step.k.call].parent, l.cids, Effect(sys, step, l).cids, InRegistry(Effect(sys, step, l).m.pc))
  {
    if step.Register? {
      InsertNew(l.cids, sys.calls[step.k.call].parent);
    } else if step.Unregister? {
      RemoveOnly(l.cids, sys.calls[step.k.call].parent);
    }
  }

  lemma RegistryStep(sys: System, s: State, step: Step, s': State)
    requires DistinctParents(sys) && Shape(sys, s) && LocalOk(sys, s) && RegistryOk(sys, s) && Next(sys, s, step, s')
             && Shape(sys, s')
    ensures RegistryOk(sys, s')
  {
    EnabledTells(sys, s, step);
    EffectList(sys, step, View(s, step.k));
    ListMovesKeepRegistry(sys, s, step.k, Effect(sys, step, View(s, step.k)));
  }

  lemma ListMovesKeepRegistry(sys: System, s: State, k: Key, l: Local)
    requires DistinctParents(sys) && Shape(sys, s) && RegistryOk(sys, s) && IsKey(sys, k) && k.proc in sys.procs
             && Shape(sys, Put(s, k, l))
    requires ListMoves(sys.calls[k.call].parent, s.registry[k.proc], l.cids, InRegistry(l.m.pc))
    ensures RegistryOk(sys, Put(s, k, l))
  {
    var s' := Put(s, k, l);
    forall k2 | k2 in s'.members
      ensures InRegistry(s'.members[k2].pc) <==> sys.calls[k2.call].parent in s'.registry[k2.proc]
    {
      if k2 != k && k2.proc == k.proc {
        ParentsDiffer(sys, k, k2);
      }
    }
    forall p, x | p in s'.registry && x in s'.registry[p]
      ensures exists k2 :: k2 in s'.members && k2.proc == p && sys.calls[k2.call].parent == x
    {
      if p == k.proc && x == sys.calls[k.call].parent {
        assert k in s'.members;
      } else {
        assert x in s.registry[p];
        var k2 :| k2 in s.members && k2.proc == p && sys.calls[k2.call].parent == x;
        assert k2 in s'.members;
      }
    }
  }

  lemma ParentsDiffer(sys: System, k: Key, k2: Key)
    requires DistinctParents(sys) && IsKey(sys, k) && IsKey(sys, k2) && k != k2 && k.proc == k2.proc
    ensures sys.calls[k.call].parent != sys.calls[k2.call].parent
  {
    assert k.call < k2.call || k2.call < k.call by {
      assert k == Key(k.call, k.proc) && k2 == Key(k2.call, k2.proc);
    }
  }

  lemma InitInv(sys: System, s: State)
    requires Init(sys, s)
    ensures Inv(sys, s)
  {
  }

  /** Every step of every process keeps the invariant. */
  lemma StepKeepsInv(sys: System, s: State, step: Step, s': State)
    requires Inv(sys, s) && Next(sys, s, step, s')
    ensures Inv(sys, s')
  {
    PutShape(sys, s, step.k, Effect(sys, step, View(s, step.k)));
    LocalStep(sys, s, step, s');
    ResultsStep(sys, s, step, s');
    OwnershipStep(sys, s, step, s');
    RegistryStep(sys, s, step, s');
  }

  /** The invariant holds in every reachable state. */
  lemma {:induction false} ReachableInv(sys: System, s: State, steps: seq<Step>)
    requires Reaches(sys, steps, s)
    ensures Inv(sys, s)
    decreases |steps|
  {
    if steps == [] {
      InitInv(sys, s);
    } else {
      var prior :| Reaches(sys, steps[..|steps| - 1], prior) && Shape(sys, prior) && Next(sys, prior, steps[|steps| - 1], s);
      ReachableInv(sys, prior, steps[..|steps| - 1]);
      StepKeepsInv(sys, prior, steps[|steps| - 1], s);
    }
  }
}
