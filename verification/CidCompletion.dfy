/** Runs can be completed (ompi/communicator/comm_cid.c): whatever has happened so far, the processes
    can go on until every call is done, and no run is longer than a fixed bound. */
module CidCompletion {
  import opened CidProtocol
  import opened CidSafety
  import opened CidTheorems
  import opened CidLeastId
  import opened CommonIds

  /** The steps that processes in `keys` have taken. */
  function StepsIn(steps: seq<Step>, keys: set<Key>): (n: nat) {
    if steps == [] then 0
    else StepsIn(steps[..|steps| - 1], keys) + (if steps[|steps| - 1].k in keys then 1 else 0)
  }

  lemma {:induction false} StepsInSplit(steps: seq<Step>, keys: set<Key>, k: Key)
    requires k in keys
    ensures StepsIn(steps, keys) == StepsIn(steps, keys - {k}) + StepsOf(steps, k)
  {
    if steps != [] {
      StepsInSplit(steps[..|steps| - 1], keys, k);
    }
  }

  lemma {:induction false} NoStepsIn(steps: seq<Step>)
    ensures StepsIn(steps, {}) == 0
  {
    if steps != [] {
      NoStepsIn(steps[..|steps| - 1]);
    }
  }

  lemma {:induction false} StepsInBound(steps: seq<Step>, keys: set<Key>, b: nat)
    requires forall k :: k in keys ==> StepsOf(steps, k) <= b
    ensures StepsIn(steps, keys) <= |keys| * b
  {
    if keys == {} {
      NoStepsIn(steps);
    } else {
      var k :| k in keys;
      StepsInSplit(steps, keys, k);
      StepsInBound(steps, keys - {k}, b);
      assert (|keys| - 1) * b + b == |keys| * b;
    }
  }

  lemma {:induction false} AllStepsCount(sys: System, steps: seq<Step>, s: State)
    requires Reaches(sys, steps, s)
    ensures Shape(sys, s) && StepsIn(steps, s.members.Keys) == |steps|
    decreases |steps|
  {
    if steps != [] {
      var init, step := steps[..|steps| - 1], steps[|steps| - 1];
      var prior :| Reaches(sys, init, prior) && Shape(sys, prior) && Next(sys, prior, step, s);
      AllStepsCount(sys, init, prior);
      StepKeepsKeys(sys, prior, step, s);
    }
  }

  lemma StepKeepsKeys(sys: System, s: State, step: Step, t: State)
    requires Shape(sys, s) && Next(sys, s, step, t)
    ensures Shape(sys, t) && t.members.Keys == s.members.Keys && step.k in s.members.Keys
  {
    PutShape(sys, s, step.k, Effect(sys, step, View(s, step.k)));
  }

  /** The length of a run is bounded by the number of processes in all calls and the limit. */
  lemma RunLengthBounded(sys: System, steps: seq<Step>, s: State)
    requires Reaches(sys, steps, s)
    ensures |steps| <= |s.members| * StepBound(sys.limit)
  {
    AllStepsCount(sys, steps, s);
    forall k | k in s.members
      ensures StepsOf(steps, k) <= StepBound(sys.limit)
    {
      EveryRunIsFinite(sys, s, steps, k);
    }
    StepsInBound(steps, s.members.Keys, StepBound(sys.limit));
  }

  /** A possible step makes a longer run. */
  lemma Extend(sys: System, steps: seq<Step>, s: State, step: Step) returns (t: State)
    requires Reaches(sys, steps, s) && Shape(sys, s) && Enabled(sys, s, step)
    ensures Reaches(sys, steps + [step], t) && Shape(sys, t) && t.members.Keys == s.members.Keys
  {
    t := Put(s, step.k, Effect(sys, step, View(s, step.k)));
    PutShape(sys, s, step.k, Effect(sys, step, View(s, step.k)));
    assert Next(sys, s, step, t);
    StepKeepsKeys(sys, s, step, t);
    LongerRun(sys, steps, s, step, t);
  }

  lemma LongerRun(sys: System, steps: seq<Step>, s: State, step: Step, t: State)
    requires Reaches(sys, steps, s) && Shape(sys, s) && Next(sys, s, step, t)
    ensures Reaches(sys, steps + [step], t)
  {
    assert (steps + [step])[..|steps|] == steps;
  }

  /** A run that ended in a state of this shape, with room for more steps. */
  ghost predicate Run(sys: System, steps: seq<Step>, s: State, room: nat) {
    Reaches(sys, steps, s) && Shape(sys, s) && |steps| + room == |s.members| * StepBound(sys.limit)
  }

  ghost predicate AllDone(s: State) { forall k :: k in s.members ==> s.members[k].pc.Done? }

  /** An unfinished run has room for the next step, and it can be taken. */
  lemma NextStep(sys: System, steps: seq<Step>, s: State, room: nat, k: Key) returns (step: Step, t: State)
    requires Run(sys, steps, s, room) && k in s.members && !s.members[k].pc.Done? && NobodyExhausted(sys, s)
    ensures room > 0 && Run(sys, steps + [step], t, room - 1) && t.members.Keys == s.members.Keys
  {
    step := NoDeadlock(sys, s, steps, k);
    t := Extend(sys, steps, s, step);
    assert t.members.Keys == s.members.Keys;
    assert |t.members| == |t.members.Keys| && |s.members| == |s.members.Keys|;
    RunLengthBounded(sys, steps + [step], t);
  }

  /** A run can be continued until all calls are done, or until some call has run out of ids. */
  lemma {:induction false} RunsCanFinish(sys: System, steps: seq<Step>, s: State, room: nat)
    returns (run: seq<Step>, t: State, left: nat)
    requires Run(sys, steps, s, room)
    ensures steps <= run && Run(sys, run, t, left) && t.members.Keys == s.members.Keys
    ensures AllDone(t) || !NobodyExhausted(sys, t)
    decreases room
  {
    run, t, left := steps, s, room;
    if NobodyExhausted(sys, s) && !AllDone(s) {
      var k :| k in s.members && !s.members[k].pc.Done?;
      var step, next := NextStep(sys, steps, s, room, k);
      run, t, left := RunsCanFinish(sys, steps + [step], next, room - 1);
    }
  }

  /** From every reachable state of a lone call with a commonly free id below the limit, the run can be
      continued until every process is done with the least such id. */
  lemma AloneCanFinish(sys: System, steps: seq<Step>, s: State, g: nat) returns (run: seq<Step>, t: State)
    requires Reaches(sys, steps, s) && Shape(sys, s) && |sys.calls| == 1
    requires IsLeastCommonFree(UsedAt(sys, 0), g) && g < sys.limit
    ensures steps <= run && Reaches(sys, run, t) && t.members.Keys == s.members.Keys
    ensures forall k :: k in t.members ==> t.members[k].pc == Done(g)
  {
    RunLengthBounded(sys, steps, s);
    var left;
    run, t, left := RunsCanFinish(sys, steps, s, |s.members| * StepBound(sys.limit) - |steps|);
    DoneWithLeast(sys, run, t, g);
  }

  lemma DoneWithLeast(sys: System, run: seq<Step>, t: State, g: nat)
    requires Reaches(sys, run, t) && Shape(sys, t) && |sys.calls| == 1 && IsLeastCommonFree(UsedAt(sys, 0), g)
             && g < sys.limit
    requires AllDone(t) || !NobodyExhausted(sys, t)
    ensures forall k :: k in t.members ==> t.members[k].pc == Done(g)
  {
    AloneNeverExhausted(sys, t, run, g);
    forall k | k in t.members
      ensures t.members[k].pc == Done(g)
    {
      AloneCommitsLeast(sys, t, run, k, g);
    }
  }

  /** Two processes, of which the second has id 0 in use: both end with id 1. */
  lemma TwoProcesses() returns (sys: System, run: seq<Step>, t: State)
    ensures sys == System({0, 1}, [Call(0, {0, 1}, Blocking)], 2, map[0 := map[], 1 := map[0 := Old]])
    ensures Reaches(sys, run, t) && t.members.Keys == {Key(0, 0), Key(0, 1)}
    ensures t.members[Key(0, 0)].pc == Done(1) && t.members[Key(0, 1)].pc == Done(1)
  {
    var s;
    sys, s := TwoIdle();
    LeastOfTwo(sys);
    run, t := AloneCanFinish(sys, [], s, 1);
  }

  lemma TwoIdle() returns (sys: System, s: State)
    ensures sys == System({0, 1}, [Call(0, {0, 1}, Blocking)], 2, map[0 := map[], 1 := map[0 := Old]])
    ensures Reaches(sys, [], s) && Shape(sys, s) && s.members.Keys == {Key(0, 0), Key(0, 1)}
  {
    sys := System({0, 1}, [Call(0, {0, 1}, Blocking)], 2, map[0 := map[], 1 := map[0 := Old]]);
    var idle := Member(Idle, [], [], [], []);
    s := State(map[Key(0, 0) := idle, Key(0, 1) := idle], sys.initial, map[0 := [], 1 := []]);
    assert Init(sys, s);
  }

  lemma LeastOfTwo(sys: System)
    requires sys == System({0, 1}, [Call(0, {0, 1}, Blocking)], 2, map[0 := map[], 1 := map[0 := Old]])
    ensures ValidSystem(sys) && IsLeastCommonFree(UsedAt(sys, 0), 1)
  {
  }
}
