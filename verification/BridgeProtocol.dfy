/** ompi_comm_allreduce_intra_bridge (ompi/communicator/comm_cid.c): two groups reduce on their own, their
    leaders exchange and combine the two results, and each leader broadcasts the outcome in its group.

    The collective operations inside a group appear by what they promise: nobody leaves the reduction
    before everybody has entered it, and nobody takes the broadcast value before the leader is there.
    A send, or the leader's part of the broadcast, may return at once or only when its value was
    taken; progress is shown without relying on the first. */
module BridgeProtocol {

  datatype Side = Here | There

  datatype Pair<T> = Pair(here: T, there: T) {
    function At(side: Side): (t: T) { if side.Here? then here else there }

    function With(side: Side, t: T): (p: Pair<T>) { if side.Here? then this.(here := t) else this.(there := t) }
  }

  function Across(side: Side): (other: Side) { if side.Here? then There else Here }

  /** The two groups with the value each one's reduction gives, and how a leader joins the two values.
      An unknown operation is refused. */
  datatype Bridge<!T> = Bridge(refused: bool, join: (T, T) -> T, local: Pair<T>, size: Pair<nat>, leader: Pair<nat>)

  datatype Id = Id(side: Side, rank: nat)

  /** Where a member stands.  The leader alone passes through the states from `Posting` to `Combining`. */
  datatype Pc = Start | Refused | Reducing | Posting | Sends | Sending | Waiting | Combining | Enters | InBcast | Done

  datatype Member<T> = Member(pc: Pc, tmp: T, out: T)

  /** What was sent to a leader, and how many of the messages have arrived in its buffer. */
  datatype Channel<T> = Channel(sent: seq<T>, arrived: nat)

  datatype State<T> = State(members: map<Id, Member<T>>, to: Pair<Channel<T>>)

  datatype Step =
    | Enter(k: Id) | Refuse(k: Id) | TakeReduction(k: Id)
    | Post(k: Id) | Send(k: Id) | SendReturns(k: Id) | Arrive(k: Id) | WaitReturns(k: Id) | Combine(k: Id)
    | EnterBcast(k: Id) | TakeBcast(k: Id) | LeaveBcast(k: Id)

  ghost predicate ValidBridge<T>(b: Bridge<T>) {
    && b.leader.here < b.size.here && b.leader.there < b.size.there
    && (!b.refused ==> b.join(b.local.here, b.local.there) == b.join(b.local.there, b.local.here))
  }

  predicate IsMember<T>(b: Bridge<T>, k: Id) { k.rank < b.size.At(k.side) }

  function Leader<T>(b: Bridge<T>, side: Side): (k: Id) { Id(side, b.leader.At(side)) }

  function Stage(pc: Pc): (n: nat) {
    match pc
    case Start => 0
    case Refused => 1
    case Reducing => 1
    case Posting => 2
    case Sends => 3
    case Sending => 4
    case Waiting => 5
    case Combining => 6
    case Enters => 7
    case InBcast => 8
    case Done => 9
  }

  ghost predicate Shape<T>(b: Bridge<T>, s: State<T>) {
    && ValidBridge(b)
    && (forall k :: k in s.members <==> IsMember(b, k))
  }

  ghost predicate Init<T>(b: Bridge<T>, s: State<T>) {
    && Shape(b, s)
    && (forall k :: k in s.members ==> s.members[k].pc == Start)
    && s.to == Pair(Channel([], 0), Channel([], 0))
  }

  ghost predicate AllPast<T>(s: State<T>, side: Side, stage: nat) {
    forall k :: k in s.members && k.side == side ==> Stage(s.members[k].pc) > stage
  }

  ghost predicate Enabled<T>(b: Bridge<T>, s: State<T>, step: Step)
    requires Shape(b, s)
  {
    var k := step.k;
    k in s.members &&
    var pc, leader, channel := s.members[k].pc, Leader(b, k.side), s.to.At(k.side);
    match step
    case Enter(_) => pc == Start && !b.refused
    case Refuse(_) => pc == Start && b.refused
    case TakeReduction(_) => pc == Reducing && AllPast(s, k.side, 0)
    case Post(_) => pc == Posting
    case Send(_) => pc == Sends
    case SendReturns(_) => pc == Sending
    case Arrive(_) => k == leader && 2 < Stage(pc) && channel.arrived < |channel.sent|
    case WaitReturns(_) => pc == Waiting && channel.arrived > 0
    case Combine(_) => pc == Combining
    case EnterBcast(_) => pc == Enters
    case TakeBcast(_) => pc == InBcast && k != leader && Stage(s.members[leader].pc) > 7
    case LeaveBcast(_) => pc == InBcast && k == leader
  }

  /** Steps that do not rely on a send, or the sender's part of a broadcast, returning early. */
  ghost predicate Forced<T>(b: Bridge<T>, s: State<T>, step: Step)
    requires Shape(b, s)
  {
    && Enabled(b, s, step)
    && (step.SendReturns? ==> s.to.At(Across(step.k.side)).arrived == |s.to.At(Across(step.k.side)).sent|)
    && (step.LeaveBcast? ==>
          forall k :: k in s.members && k.side == step.k.side && k != step.k ==> s.members[k].pc == Done)
  }

  ghost function MemberAfter<T>(b: Bridge<T>, s: State<T>, step: Step): (m: Member<T>)
    requires Shape(b, s) && Enabled(b, s, step)
  {
    var m, leader := s.members[step.k], Leader(b, step.k.side);
    match step
    case Enter(_) => m.(pc := Reducing)
    case Refuse(_) => m.(pc := Refused)
    case TakeReduction(k) => m.(pc := if k == leader then Posting else Enters, tmp := b.local.At(k.side))
    case Post(_) => m.(pc := Sends)
    case Send(_) => m.(pc := Sending)
    case SendReturns(_) => m.(pc := Waiting)
    case Arrive(k) => m.(out := s.to.At(k.side).sent[s.to.At(k.side).arrived])
    case WaitReturns(_) => m.(pc := Combining)
    case Combine(_) => m.(pc := Enters, out := b.join(m.out, m.tmp))
    case EnterBcast(_) => m.(pc := InBcast)
    case TakeBcast(_) => m.(pc := Done, out := s.members[leader].out)
    case LeaveBcast(_) => m.(pc := Done)
  }

  ghost function ChannelsAfter<T>(b: Bridge<T>, s: State<T>, step: Step): (to: Pair<Channel<T>>)
    requires Shape(b, s) && Enabled(b, s, step)
  {
    var own, other := step.k.side, Across(step.k.side);
    if step.Send? then s.to.With(other, s.to.At(other).(sent := s.to.At(other).sent + [s.members[step.k].tmp]))
    else if step.Arrive? then s.to.With(own, s.to.At(own).(arrived := s.to.At(own).arrived + 1))
    else s.to
  }

  ghost function After<T>(b: Bridge<T>, s: State<T>, step: Step): (s': State<T>)
    requires Shape(b, s) && Enabled(b, s, step)
    ensures Shape(b, s')
  {
    State(s.members[step.k := MemberAfter(b, s, step)], ChannelsAfter(b, s, step))
  }

  ghost predicate Reaches<T(!new)>(b: Bridge<T>, steps: seq<Step>, s: State<T>)
    ensures Reaches(b, steps, s) ==> Shape(b, s)
    decreases |steps|
  {
    if steps == [] then Init(b, s)
    else
      var last := steps[|steps| - 1];
      exists prior :: Reaches(b, steps[..|steps| - 1], prior) && Enabled(b, prior, last) && s == After(b, prior, last)
  }

  // ---------------------------------------------------------------------------
  // The invariant
  // ---------------------------------------------------------------------------

  function Total<T>(b: Bridge<T>): (v: T) { b.join(b.local.here, b.local.there) }

  ghost predicate MemberOk<T>(b: Bridge<T>, s: State<T>, k: Id)
    requires Shape(b, s) && k in s.members
  {
    var m, leader := s.members[k], Leader(b, k.side);
    && (m.pc == Refused ==> b.refused)
    && (Stage(m.pc) > 0 && m.pc != Refused ==> !b.refused)
    && (Stage(m.pc) > 1 ==> m.tmp == b.local.At(k.side))
    && (k != leader && Stage(m.pc) > 1 ==> Stage(m.pc) >= 7)
    && (k != leader && m.pc == Done ==> Stage(s.members[leader].pc) > 7 && m.out == Total(b))
  }

  /** What the leader has sent. */
  ghost predicate SentOk<T>(b: Bridge<T>, s: State<T>, side: Side)
    requires Shape(b, s)
  {
    s.to.At(Across(side)).sent == if Stage(s.members[Leader(b, side)].pc) > 3 then [b.local.At(side)] else []
  }

  /** What has arrived at the leader. */
  ghost predicate LeaderOk<T>(b: Bridge<T>, s: State<T>, side: Side)
    requires Shape(b, s)
  {
    var m, channel := s.members[Leader(b, side)], s.to.At(side);
    && channel.arrived <= |channel.sent|
    && (Stage(m.pc) <= 2 ==> channel.arrived == 0)
    && (Stage(m.pc) > 5 ==> channel.arrived == 1)
    && (Stage(m.pc) <= 6 && channel.arrived == 1 ==> m.out == b.local.At(Across(side)))
    && (Stage(m.pc) > 6 ==> m.out == Total(b))
  }

  ghost predicate Inv<T>(b: Bridge<T>, s: State<T>) {
    && Shape(b, s)
    && (forall k {:trigger MemberOk(b, s, k)} :: k in s.members ==> MemberOk(b, s, k))
    && SentOk(b, s, Here) && SentOk(b, s, There) && LeaderOk(b, s, Here) && LeaderOk(b, s, There)
  }

  lemma StepMember<T>(b: Bridge<T>, s: State<T>, step: Step, k: Id)
    requires Shape(b, s) && Enabled(b, s, step) && k in s.members
    requires MemberOk(b, s, k) && MemberOk(b, s, step.k) && MemberOk(b, s, Leader(b, k.side)) && LeaderOk(b, s, k.side)
    ensures MemberOk(b, After(b, s, step), k)
  {
  }

  lemma StepSent<T>(b: Bridge<T>, s: State<T>, step: Step, side: Side)
    requires Shape(b, s) && Enabled(b, s, step)
    requires MemberOk(b, s, step.k) && SentOk(b, s, side)
    ensures SentOk(b, After(b, s, step), side)
  {
  }

  lemma OthersStep<T>(b: Bridge<T>, s: State<T>, step: Step, side: Side)
    requires Shape(b, s) && Enabled(b, s, step) && step.k != Leader(b, side) && LeaderOk(b, s, side)
    ensures LeaderOk(b, After(b, s, step), side)
  {
    var s' := After(b, s, step);
    assert s'.members[Leader(b, side)] == s.members[Leader(b, side)];
    assert s'.to.At(side).arrived == s.to.At(side).arrived && |s'.to.At(side).sent| >= |s.to.At(side).sent|;
  }

  lemma LeaderSteps<T>(b: Bridge<T>, s: State<T>, step: Step, side: Side)
    requires Shape(b, s) && Enabled(b, s, step) && step.k == Leader(b, side) && !step.Combine? && !step.Arrive?
    requires MemberOk(b, s, step.k) && LeaderOk(b, s, side) && SentOk(b, s, Across(side))
    ensures LeaderOk(b, After(b, s, step), side)
  {
    var s' := After(b, s, step);
    assert s'.to.At(side) == s.to.At(side);
    assert s'.members[step.k].out == s.members[step.k].out;
  }

  lemma LeaderReceives<T>(b: Bridge<T>, s: State<T>, step: Step, side: Side)
    requires Shape(b, s) && Enabled(b, s, step) && step.k == Leader(b, side) && step.Arrive?
    requires LeaderOk(b, s, side) && SentOk(b, s, Across(side))
    ensures LeaderOk(b, After(b, s, step), side)
  {
    var s' := After(b, s, step);
    assert s.to.At(side).arrived == 0 && s.to.At(side).sent == [b.local.At(Across(side))];
    assert s'.to.At(side).arrived == 1 && s'.members[step.k].out == b.local.At(Across(side));
  }

  lemma LeaderCombines<T>(b: Bridge<T>, s: State<T>, step: Step, side: Side)
    requires Shape(b, s) && Enabled(b, s, step) && step.k == Leader(b, side) && step.Combine?
    requires MemberOk(b, s, step.k) && LeaderOk(b, s, side)
    ensures LeaderOk(b, After(b, s, step), side)
  {
    var s', m := After(b, s, step), s.members[step.k];
    assert s'.to == s.to && s'.members[step.k] == Member(Enters, m.tmp, b.join(m.out, m.tmp));
  }

  lemma StepLeader<T>(b: Bridge<T>, s: State<T>, step: Step, side: Side)
    requires Shape(b, s) && Enabled(b, s, step)
    requires MemberOk(b, s, step.k) && LeaderOk(b, s, side) && SentOk(b, s, Across(side))
    ensures LeaderOk(b, After(b, s, step), side)
  {
    if step.k != Leader(b, side) {
      OthersStep(b, s, step, side);
    } else if step.Combine? {
      LeaderCombines(b, s, step, side);
    } else if step.Arrive? {
      LeaderReceives(b, s, step, side);
    } else {
      LeaderSteps(b, s, step, side);
    }
  }

  lemma StepKeepsInv<T>(b: Bridge<T>, s: State<T>, step: Step)
    requires Inv(b, s) && Enabled(b, s, step)
    ensures Inv(b, After(b, s, step))
  {
    forall k | k in s.members
      ensures MemberOk(b, After(b, s, step), k)
    {
      assert MemberOk(b, s, k) && MemberOk(b, s, step.k) && MemberOk(b, s, Leader(b, k.side));
      StepMember(b, s, step, k);
    }
    assert MemberOk(b, s, step.k);
    StepSent(b, s, step, Here);
    StepSent(b, s, step, There);
    StepLeader(b, s, step, Here);
    StepLeader(b, s, step, There);
  }

  lemma {:induction false} ReachableInv<T(!new)>(b: Bridge<T>, steps: seq<Step>, s: State<T>)
    requires Reaches(b, steps, s)
    ensures Inv(b, s)
    decreases |steps|
  {
    if steps != [] {
      var init, last := steps[..|steps| - 1], steps[|steps| - 1];
      var prior :| Reaches(b, init, prior) && Enabled(b, prior, last) && s == After(b, prior, last);
      ReachableInv(b, init, prior);
      StepKeepsInv(b, prior, last);
    }
  }

  // ---------------------------------------------------------------------------
  // Progress
  // ---------------------------------------------------------------------------

  ghost function Progress<T>(b: Bridge<T>, s: State<T>, k: Id): (n: nat)
    requires Shape(b, s) && k in s.members
  {
    Stage(s.members[k].pc) + (if k == Leader(b, k.side) then s.to.At(k.side).arrived else 0)
  }

  function StepsOf(steps: seq<Step>, k: Id): (n: nat) {
    if steps == [] then 0
    else StepsOf(steps[..|steps| - 1], k) + (if steps[|steps| - 1].k == k then 1 else 0)
  }

  lemma StepAdvances<T>(b: Bridge<T>, s: State<T>, step: Step, k: Id)
    requires Shape(b, s) && Enabled(b, s, step) && k in s.members
    ensures Progress(b, After(b, s, step), k) >= Progress(b, s, k) + (if step.k == k then 1 else 0)
  {
  }

  lemma ProgressIsBounded<T>(b: Bridge<T>, s: State<T>, k: Id)
    requires Inv(b, s) && k in s.members
    ensures Progress(b, s, k) <= 10
  {
    assert LeaderOk(b, s, k.side) && SentOk(b, s, Across(k.side));
  }

  /** No run is longer than ten steps per member. */
  lemma RunsAreFinite<T(!new)>(b: Bridge<T>, steps: seq<Step>, s: State<T>, k: Id)
    requires Reaches(b, steps, s) && k in s.members
    ensures StepsOf(steps, k) <= Progress(b, s, k) <= 10
  {
    StepsMakeProgress(b, steps, s, k);
    ReachableInv(b, steps, s);
    ProgressIsBounded(b, s, k);
  }

  lemma {:induction false} StepsMakeProgress<T(!new)>(b: Bridge<T>, steps: seq<Step>, s: State<T>, k: Id)
    requires Reaches(b, steps, s) && k in s.members
    ensures StepsOf(steps, k) <= Progress(b, s, k)
    decreases |steps|
  {
    if steps != [] {
      var init, last := steps[..|steps| - 1], steps[|steps| - 1];
      var prior :| Reaches(b, init, prior) && Enabled(b, prior, last) && s == After(b, prior, last);
      StepsMakeProgress(b, init, prior, k);
      StepAdvances(b, prior, last, k);
    }
  }

  predicate Finished(pc: Pc) { pc == Done || pc == Refused }

  /** The exchange between the leaders moves on, whichever way their sends behave. */
  lemma LeaderMoves<T>(b: Bridge<T>, s: State<T>, side: Side) returns (step: Step)
    requires Inv(b, s) && 1 < Stage(s.members[Leader(b, side)].pc) < 8
    requires Stage(s.members[Leader(b, Across(side))].pc) > 1
    ensures Forced(b, s, step)
  {
    var k, other := Leader(b, side), Leader(b, Across(side));
    assert MemberOk(b, s, k) && MemberOk(b, s, other) && LeaderOk(b, s, side) && LeaderOk(b, s, Across(side));
    assert SentOk(b, s, side) && SentOk(b, s, Across(side));
    match s.members[k].pc {
      case Posting => step := Post(k);
      case Sends => step := Send(k);
      case Sending =>
        if s.members[other].pc == Posting {
          step := Post(other);
        } else {
          step := if s.to.At(other.side).arrived == 0 then Arrive(other) else SendReturns(k);
        }
      case Waiting =>
        if s.members[other].pc == Posting {
          step := Post(other);
        } else if s.members[other].pc == Sends {
          step := Send(other);
        } else {
          step := if s.to.At(side).arrived == 0 then Arrive(k) else WaitReturns(k);
        }
      case Combining => step := Combine(k);
      case Enters => step := EnterBcast(k);
    }
  }

  /** Inside a group whose leader has the result. */
  lemma MemberMoves<T>(b: Bridge<T>, s: State<T>, k: Id) returns (step: Step)
    requires Inv(b, s) && k in s.members && 1 < Stage(s.members[k].pc) < 9
    requires Stage(s.members[Leader(b, k.side)].pc) > 7 && AllPast(s, k.side, 1)
    ensures Forced(b, s, step)
  {
    assert MemberOk(b, s, k);
    var leader := Leader(b, k.side);
    if k != leader {
      step := if s.members[k].pc == Enters then EnterBcast(k) else TakeBcast(k);
    } else if q :| q in s.members && q.side == k.side && q != k && s.members[q].pc != Done {
      assert MemberOk(b, s, q);
      step := if s.members[q].pc == Enters then EnterBcast(q) else TakeBcast(q);
    } else {
      step := LeaveBcast(k);
    }
  }

  /** Before the exchange, somebody has to enter or leave the reduction. */
  lemma EarlyMoves<T>(b: Bridge<T>, s: State<T>, k: Id) returns (step: Step)
    requires Inv(b, s) && k in s.members && Stage(s.members[k].pc) <= 1 && !Finished(s.members[k].pc)
    ensures Forced(b, s, step)
  {
    assert MemberOk(b, s, k);
    if s.members[k].pc == Start {
      step := if b.refused then Refuse(k) else Enter(k);
    } else if q :| q in s.members && q.side == k.side && Stage(s.members[q].pc) == 0 {
      step := Enter(q);
    } else {
      step := TakeReduction(k);
    }
  }

  /** No deadlock: while a member is unfinished some step is possible, even if no send ever returns
      before its message was received. */
  lemma NoDeadlock<T(!new)>(b: Bridge<T>, steps: seq<Step>, s: State<T>, unfinished: Id) returns (step: Step)
    requires Reaches(b, steps, s) && unfinished in s.members && !Finished(s.members[unfinished].pc)
    ensures Forced(b, s, step)
  {
    ReachableInv(b, steps, s);
    step := Moves(b, s, unfinished);
  }

  lemma Moves<T>(b: Bridge<T>, s: State<T>, k: Id) returns (step: Step)
    requires Inv(b, s) && k in s.members && !Finished(s.members[k].pc)
    ensures Forced(b, s, step)
  {
    if q :| q in s.members && !Finished(s.members[q].pc) && Stage(s.members[q].pc) <= 1 {
      step := EarlyMoves(b, s, q);
    } else {
      NoneRefused(b, s, k);
      if Stage(s.members[Leader(b, k.side)].pc) < 8 {
        step := LeaderMoves(b, s, k.side);
      } else {
        step := MemberMoves(b, s, k);
      }
    }
  }

  /** Once a member is past the reduction, the operation was not refused anywhere. */
  lemma NoneRefused<T>(b: Bridge<T>, s: State<T>, k: Id)
    requires Inv(b, s) && k in s.members && Stage(s.members[k].pc) > 1
    requires forall q :: q in s.members && Stage(s.members[q].pc) <= 1 ==> s.members[q].pc == Refused
    ensures AllPast(s, Here, 1) && AllPast(s, There, 1)
  {
    assert MemberOk(b, s, k);
    forall q | q in s.members
      ensures Stage(s.members[q].pc) > 1
    {
      assert MemberOk(b, s, q);
    }
  }

  // ---------------------------------------------------------------------------
  // The result
  // ---------------------------------------------------------------------------

  lemma AllFinish<T(!new)>(b: Bridge<T>, steps: seq<Step>, s: State<T>, k: Id)
    requires Reaches(b, steps, s) && k in s.members
    requires forall step :: !Forced(b, s, step)
    ensures Finished(s.members[k].pc)
  {
    if !Finished(s.members[k].pc) {
      var step := NoDeadlock(b, steps, s, k);
    }
  }

  /** What the invariant says of a member and the leaders when all three are finished. */
  lemma FinishedHaveTotal<T>(b: Bridge<T>, s: State<T>, k: Id)
    requires Inv(b, s) && k in s.members && Finished(s.members[k].pc)
    requires Finished(s.members[Leader(b, Here)].pc) && Finished(s.members[Leader(b, There)].pc)
    ensures b.refused ==> s.members[k].pc == Refused && s.to.At(k.side) == Channel([], 0)
    ensures !b.refused ==>
              && s.members[k].pc == Done && s.members[k].out == Total(b)
              && s.to.At(k.side) == Channel([b.local.At(Across(k.side))], 1)
  {
    var leader, other := Leader(b, k.side), Leader(b, Across(k.side));
    assert MemberOk(b, s, k) && MemberOk(b, s, leader) && MemberOk(b, s, other);
    assert LeaderOk(b, s, k.side) && SentOk(b, s, Across(k.side));
  }

  /** A run that cannot be continued has every member of both groups finished with the joined value,
      after one message each way between the leaders; an unknown operation is refused by everybody
      and nothing is sent. */
  lemma BridgeDelivers<T(!new)>(b: Bridge<T>, steps: seq<Step>, s: State<T>, k: Id)
    requires Reaches(b, steps, s) && IsMember(b, k)
    requires forall step :: !Forced(b, s, step)
    ensures k in s.members
    ensures b.refused ==> s.members[k].pc == Refused && s.to.At(k.side) == Channel([], 0)
    ensures !b.refused ==>
              && s.members[k].pc == Done && s.members[k].out == Total(b)
              && s.to.At(k.side) == Channel([b.local.At(Across(k.side))], 1)
  {
    AllFinish(b, steps, s, k);
    AllFinish(b, steps, s, Leader(b, Here));
    AllFinish(b, steps, s, Leader(b, There));
    ReachableInv(b, steps, s);
    FinishedHaveTotal(b, s, k);
  }
}
