/** Concurrent context-id agreement (ompi/communicator/comm_cid.c).

    Any number of communicator-creation calls run at the same time on any number of
    processes.  Each process owns one slot table and one sorted list of the calls that
    registered there.  A state is advanced by single steps of single processes, in any
    order; the two collectives of a round are the only synchronisation. */
module CidProtocol {

  /** Which of the two implementations a call uses. */
  datatype Mode = Blocking | NonBlocking

  /** One communicator creation: the parent's context id and the participating processes. */
  datatype Call = Call(parent: nat, members: set<nat>, mode: Mode)

  /** What a used slot holds: a communicator that was there before, the reservation of
      a running call, or the communicator a finished call created. */
  datatype Owner = Old | Held(call: nat) | New(call: nat)

  type Table = map<nat, Owner>

  datatype System = System(procs: set<nat>, calls: seq<Call>, limit: nat, initial: map<nat, Table>)

  /** Where a process stands inside one call. */
  datatype Pc =
    | Idle
    | Registered
    | Spin(start: nat)
    | Scan(start: nat, i: nat)
    | MaxWait(start: nat, cand: nat)
    | Swap(start: nat, max: nat)
    | MinWait(start: nat, max: nat, response: nat)
    | Won(id: nat)
    | Leaving(id: nat)
    | Done(id: nat)

  /** One process's part of a call.  Round `r` has two collectives: `cands[r]` is what this process
      put into the MAX reduction and `maxes[r]` what it got back, `votes[r]` is what it put into the
      MIN reduction and `mins[r]` what it got back. */
  datatype Member = Member(pc: Pc, cands: seq<nat>, maxes: seq<nat>, votes: seq<nat>, mins: seq<nat>)

  datatype Key = Key(call: nat, proc: nat)

  datatype State = State(members: map<Key, Member>, tables: map<nat, Table>, registry: map<nat, seq<nat>>)

  ghost predicate ValidSystem(sys: System) {
    && sys.initial.Keys == sys.procs
    && (forall p, i :: p in sys.procs && i in sys.initial[p] ==> sys.initial[p][i] == Old)
    && (forall c :: 0 <= c < |sys.calls| ==> sys.calls[c].members <= sys.procs && sys.calls[c].members != {})
  }

  /** Two calls that meet on a process have different parents there. */
  ghost predicate DistinctParents(sys: System) {
    forall c, d, p :: 0 <= c < d < |sys.calls| && p in sys.calls[c].members && p in sys.calls[d].members
                      ==> sys.calls[c].parent != sys.calls[d].parent
  }

  ghost predicate IsKey(sys: System, k: Key) {
    k.call < |sys.calls| && k.proc in sys.calls[k.call].members
  }

  ghost predicate Shape(sys: System, s: State) {
    && ValidSystem(sys)
    && (forall k :: k in s.members <==> IsKey(sys, k))
    && s.tables.Keys == sys.procs
    && s.registry.Keys == sys.procs
  }

  ghost predicate Init(sys: System, s: State) {
    && Shape(sys, s) && DistinctParents(sys)
    && (forall k :: k in s.members ==> s.members[k] == Member(Idle, [], [], [], []))
    && s.tables == sys.initial
    && (forall p :: p in s.registry ==> s.registry[p] == [])
  }

  // ---------------------------------------------------------------------------
  // Collectives
  // ---------------------------------------------------------------------------

  /** `v` is the MPI_MAX of what all members of call `c` contribute in round `r`. */
  ghost predicate IsMax(sys: System, s: State, c: nat, r: nat, v: nat)
    requires Shape(sys, s) && c < |sys.calls|
  {
    && (forall q :: q in sys.calls[c].members ==>
          r < |s.members[Key(c, q)].cands| && s.members[Key(c, q)].cands[r] <= v)
    && (exists q :: q in sys.calls[c].members && s.members[Key(c, q)].cands[r] == v)
  }

  /** `v` is the MPI_MIN of what all members of call `c` contribute in round `r`. */
  ghost predicate IsMin(sys: System, s: State, c: nat, r: nat, v: nat)
    requires Shape(sys, s) && c < |sys.calls|
  {
    && (forall q :: q in sys.calls[c].members ==>
          r < |s.members[Key(c, q)].votes| && v <= s.members[Key(c, q)].votes[r])
    && (exists q :: q in sys.calls[c].members && s.members[Key(c, q)].votes[r] == v)
  }

  // ---------------------------------------------------------------------------
  // Steps
  // ---------------------------------------------------------------------------

  /** The position at which a parent id goes into the sorted registration list: before the
      first larger entry. */
  function InsertSorted(cids: seq<nat>, cid: nat): (r: seq<nat>) {
    if cids == [] then [cid]
    else if cids[0] > cid then [cid] + cids
    else [cids[0]] + InsertSorted(cids[1..], cid)
  }

  /** The list without the first occurrence of `cid`. */
  function RemoveFirst(cids: seq<nat>, cid: nat): (r: seq<nat>) {
    if cids == [] then []
    else if cids[0] == cid then cids[1..]
    else [cids[0]] + RemoveFirst(cids[1..], cid)
  }

  /** The table's `lowest_free`: no lower slot is free. */
  ghost predicate IsLowestFree(t: Table, n: nat) {
    n !in t && forall i :: 0 <= i < n ==> i in t
  }

  datatype Step =
    | Register(k: Key)
    | ReadLowestFree(k: Key, start: nat)
    | Admit(k: Key)
    | Probe(k: Key)
    | FinishMax(k: Key, max: nat)
    | TrySwap(k: Key)
    | FinishMin(k: Key, min: nat)
    | Install(k: Key)
    | Unregister(k: Key)

  /** What a step of one process can change: its own record of the call, the slot table and the
      registration list of the process. */
  datatype Local = Local(m: Member, table: Table, cids: seq<nat>)

  function Offer(m: Member, pc: Pc, cand: nat): (r: Member) {
    m.(pc := pc, cands := m.cands + [cand])
  }

  function TakeMax(m: Member, pc: Pc, max: nat): (r: Member) {
    m.(pc := pc, maxes := m.maxes + [max])
  }

  function Vote(m: Member, pc: Pc, v: nat): (r: Member) {
    m.(pc := pc, votes := m.votes + [v])
  }

  function TakeMin(m: Member, pc: Pc, min: nat): (r: Member) {
    m.(pc := pc, mins := m.mins + [min])
  }

  /** Where a process that could not take the maximum resumes: the blocking loop always moves past
      it, the non-blocking callback keeps its old start. */
  function RetryStart(mode: Mode, start: nat, max: nat): (r: nat) {
    if mode.Blocking? then max + 1 else start
  }

  /** May this process take this step now?  Spinning in the admission test changes nothing and is
      not a step; `DistinctParents` leaves no second call with the same parent that would have to wait in
      `Register`. */
  ghost predicate Enabled(sys: System, s: State, step: Step)
    requires Shape(sys, s)
  {
    var k := step.k;
    IsKey(sys, k) &&
    var m := s.members[k];
    match step
    case Register(_) => m.pc.Idle?
    case ReadLowestFree(_, start) => m.pc.Registered? && IsLowestFree(s.tables[k.proc], start)
    case Admit(_) =>
      m.pc.Spin? && s.registry[k.proc] != [] && s.registry[k.proc][0] == sys.calls[k.call].parent
    case Probe(_) => m.pc.Scan?
    case FinishMax(_, max) =>
      m.pc.MaxWait? && IsMax(sys, s, k.call, |m.maxes|, max) && max < sys.limit  // nobody ran out of ids
    case TrySwap(_) => m.pc.Swap?
    case FinishMin(_, min) => m.pc.MinWait? && IsMin(sys, s, k.call, |m.mins|, min)
    case Install(_) => m.pc.Won?
    case Unregister(_) => m.pc.Leaving?
  }

  /** What an enabled step does to the process that takes it. */
  function Effect(sys: System, step: Step, l: Local): (r: Local)
    requires step.k.call < |sys.calls|
  {
    var c, call, m, t, pc := step.k.call, sys.calls[step.k.call], l.m, l.table, l.m.pc;
    match step
    case Register(_) => Local(m.(pc := Registered), t, InsertSorted(l.cids, call.parent))
    case ReadLowestFree(_, start) => Local(m.(pc := Spin(start)), t, l.cids)
    case Admit(_) => if pc.Spin? then Local(m.(pc := Scan(pc.start, pc.start)), t, l.cids) else l
    case Probe(_) =>
      if !pc.Scan? then l
      else if pc.i >= sys.limit then Local(Offer(m, MaxWait(pc.start, sys.limit), sys.limit), t, l.cids)
      else if pc.i in t then Local(m.(pc := Scan(pc.start, pc.i + 1)), t, l.cids)
      else Local(Offer(m, MaxWait(pc.start, pc.i), pc.i), t[pc.i := Held(c)], l.cids)
    case FinishMax(_, max) =>
      if !pc.MaxWait? then l
      else if max == pc.cand then Local(Vote(TakeMax(m, pc, max), MinWait(pc.start, max, 1), 1), t, l.cids)
      else Local(TakeMax(m, Swap(pc.start, max), max), t - {pc.cand}, l.cids)
    case TrySwap(_) =>
      if !pc.Swap? then l
      else if pc.max in t then Local(Vote(m, MinWait(pc.start, pc.max, 0), 0), t, l.cids)
      else Local(Vote(m, MinWait(pc.start, pc.max, 1), 1), t[pc.max := Held(c)], l.cids)
    case FinishMin(_, min) =>
      if !pc.MinWait? then l
      else if min == 1 then Local(TakeMin(m, Won(pc.max), min), t, l.cids)
      else if pc.response == 1 then Local(TakeMin(m, Spin(pc.max + 1), min), t - {pc.max}, l.cids)
      else Local(TakeMin(m, Spin(RetryStart(call.mode, pc.start, pc.max)), min), t, l.cids)
    case Install(_) => if pc.Won? then Local(m.(pc := Leaving(pc.id)), t[pc.id := New(c)], l.cids) else l
    case Unregister(_) =>
      if pc.Leaving? then Local(m.(pc := Done(pc.id)), t, RemoveFirst(l.cids, call.parent)) else l
  }

  function View(s: State, k: Key): (r: Local)
    requires k in s.members && k.proc in s.tables && k.proc in s.registry
  {
    Local(s.members[k], s.tables[k.proc], s.registry[k.proc])
  }

  function Put(s: State, k: Key, l: Local): (r: State) {
    State(s.members[k := l.m], s.tables[k.proc := l.table], s.registry[k.proc := l.cids])
  }

  /** One step of one process. */
  ghost predicate Next(sys: System, s: State, step: Step, s': State)
    requires Shape(sys, s)
  {
    && Enabled(sys, s, step)
    && step.k.proc in sys.procs
    && s' == Put(s, step.k, Effect(sys, step, View(s, step.k)))
  }

  /** Some run takes exactly these steps, in this order, and ends in `s`. */
  ghost predicate Reaches(sys: System, steps: seq<Step>, s: State)
    decreases |steps|
  {
    if steps == [] then
      Init(sys, s)
    else
      exists prior :: Reaches(sys, steps[..|steps| - 1], prior) && Shape(sys, prior) && Next(sys, prior, steps[|steps| - 1], s)
  }
}
