/** The progress engine of the communicator requests (ompi/communicator/comm_request.c). */
module CommEngine {
  import opened CommRequest
  import opened CommTurn
  import opened Options

  class Engine {
    var active: seq<nat>
    var schedules: map<nat, seq<Item>>
    var statuses: map<nat, Status>
    /** The subrequests that the lower layers have completed. */
    var complete: set<int>
    var registered: bool

    ghost var history: map<nat, History>

    ghost function Now(): (w: World)
      reads this
    {
      World(active, schedules, statuses, history)
    }

    /** The progress function is registered as long as some request is active. */
    ghost predicate Valid()
      reads this
    {
      Ok(Now(), complete) && (registered <==> active != [])
    }

    constructor ()
      ensures Valid() && Now() == World([], map[], map[], map[]) && complete == {}
    {
      active, schedules, statuses, complete, registered := [], map[], map[], {}, false;
      history := map[];
    }

    /** Something outside completes a subrequest. */
    method CompleteSubrequest(q: int)
      requires Valid()
      modifies `complete
      ensures Valid() && complete == old(complete) + {q}
    {
      forall r | r in history
        ensures RequestOk(Now(), r, complete + {q})
      {
        assert RequestOk(Now(), r, complete);
      }
      complete := complete + {q};
    }

    /** ompi_comm_request_get: a request with an empty schedule. */
    method GetRequest(r: nat)
      requires Ok(Now(), complete)
      modifies `schedules, `history
      ensures Ok(Now(), complete) && Now() == Apply(old(Now()), Get(r))
      ensures r in old(schedules) ==> schedules == old(schedules)
      ensures r !in old(schedules) ==> schedules == old(schedules)[r := []]
    {
      ApplyAllKeepsOk(Now(), [Get(r)], complete);
      One(Now(), Get(r));
      if r !in schedules {
        schedules := schedules[r := []];
        history := history[r := History([], [], 0)];
      }
    }

    /** ompi_comm_request_schedule_append. */
    method ScheduleAppend(r: nat, callback: Option<int>, subreqs: seq<int>) returns (ret: int)
      requires Ok(Now(), complete)
      modifies `schedules, `history
      ensures Ok(Now(), complete) && Now() == Apply(old(Now()), Append(r, callback, subreqs))
      ensures ret == if |subreqs| > 2 then ERR_BAD_PARAM else SUCCESS
      ensures r in old(schedules) && r !in old(statuses) && |subreqs| <= 2 ==>
                schedules == old(schedules)[r := old(schedules)[r] + [Item(callback, subreqs, |subreqs|)]]
      ensures r !in old(schedules) || r in old(statuses) || |subreqs| > 2 ==> schedules == old(schedules)
    {
      ApplyAllKeepsOk(Now(), [Append(r, callback, subreqs)], complete);
      One(Now(), Append(r, callback, subreqs));
      if |subreqs| > MAX_SUBREQ {
        return ERR_BAD_PARAM;
      }
      if r in schedules && r !in statuses {
        var item := Item(callback, subreqs, |subreqs|);
        schedules := schedules[r := schedules[r] + [item]];
        history := history[r := history[r].(appended := history[r].appended + [item])];
      }
      ret := SUCCESS;
    }

    /** ompi_comm_request_start. */
    method StartRequest(r: nat)
      requires Ok(Now(), complete)
      modifies `active, `registered
      ensures Ok(Now(), complete) && Now() == Apply(old(Now()), Start(r))
      ensures registered == (old(registered) || active != old(active))
      ensures active == old(active) + (if r in schedules && r !in statuses && r !in old(active) then [r] else [])
    {
      ApplyAllKeepsOk(Now(), [Start(r)], complete);
      One(Now(), Start(r));
      if r in schedules && r !in statuses && r !in active {
        active := active + [r];
        if !registered {
          registered := true;
        }
      }
    }

    /** What a callback does with the interface. */
    method PerformAll(ops: seq<Op>)
      requires Ok(Now(), complete) && registered
      modifies this
      ensures Ok(Now(), complete) && Now() == ApplyAll(old(Now()), ops) && complete == old(complete) && registered
    {
      for i := 0 to |ops|
        invariant Ok(Now(), complete) && Now() == ApplyAll(old(Now()), ops[..i]) && complete == old(complete)
                  && registered
      {
        assert ops[..i + 1][..i] == ops[..i];
        match ops[i] {
          case Get(r) => GetRequest(r);
          case Append(r, callback, subreqs) => var ret := ScheduleAppend(r, callback, subreqs);
          case Start(r) => StartRequest(r);
        }
      }
      assert ops[..|ops|] == ops;
    }

    /** The test of the subrequests of an item, from the last to the first. */
    method Test(item: Item) returns (count: nat)
      requires item.count <= |item.subreqs|
      ensures count == Remaining(item.subreqs, item.count, complete)
    {
      count := item.count;
      while count > 0
        invariant count <= item.count
        invariant Remaining(item.subreqs, count, complete) == Remaining(item.subreqs, item.count, complete)
      {
        if item.subreqs[count - 1] in complete {
          count := count - 1;
        } else {
          break;
        }
      }
    }

    /** The end of a visit: a request with nothing left is complete. */
    method CompleteIfEmpty(r: nat, rc: int)
      requires r in schedules && r in history
      modifies `active, `statuses, `history
      ensures Now() == CompletedIfEmpty(old(Now()), r, rc)
    {
      if schedules[r] == [] {
        active := Without(active, r);
        statuses := statuses[r := Status(if rc == SUCCESS then SUCCESS else ERR_INTERN)];
        history := history[r := history[r].(completions := history[r].completions + 1)];
      }
    }

    /** The first item is taken off and fires, or is put back to wait. */
    method RunFirst(r: nat, e: Effect) returns (rc: int, ran: bool)
      requires Ok(Now(), complete) && r in active && WellShaped(Now()) && r in history && registered
               && schedules[r] != []
      modifies this
      ensures complete == old(complete) && registered && r in schedules && r in history
      ensures CompletedIfEmpty(Now(), r, rc) == CommRequest.Visit(old(Now()), r, complete, e).w
      ensures ran == CommRequest.Visit(old(Now()), r, complete, e).ran
    {
      rc, ran := SUCCESS, false;
      var item, rest := schedules[r][0], schedules[r][1..];
      var count := Test(item);
      assert RequestOk(Now(), r, complete);
      RemainingOk(item, item.count, complete);
      if count == 0 {
        TakenKeepsOk(Now(), r, complete);
        schedules := schedules[r := rest];
        history := history[r := history[r].(fired := history[r].fired + [Fresh(item)])];
        if item.callback.Some? {
          OthersUntouched(Now(), e.ops, r);
          PerformAll(e.ops);
          rc, ran := e.rc, true;
        }
      } else {
        schedules := schedules[r := [item.(count := count)] + rest];
      }
    }

    /** One visit. */
    method Visit(r: nat, e: Effect) returns (ran: bool)
      requires Ok(Now(), complete) && r in active && WellShaped(Now()) && r in history && registered
      modifies this
      ensures complete == old(complete) && registered
      ensures Now() == CommRequest.Visit(old(Now()), r, complete, e).w
      ensures ran == CommRequest.Visit(old(Now()), r, complete, e).ran
    {
      var rc := SUCCESS;
      ran := false;
      if schedules[r] != [] {
        rc, ran := RunFirst(r, e);
      }
      CompleteIfEmpty(r, rc);
    }

    /** ompi_comm_request_progress; `script` says what the callbacks of this turn do, one after the other. */
    method Progress(script: seq<Effect>) returns (log: seq<nat>)
      requires Valid()
      modifies this
      ensures Valid() && complete == old(complete)
      ensures Turned(Now(), log) == Turn(old(Now()), First(old(active)), complete, script)
      ensures old(active) <= log && Distinct(log)
      ensures forall r :: r in old(history) ==>
                if r in log then ServedOnce(old(Now()), Now(), r, complete) else Untouched(old(Now()), Now(), r)
    {
      if active == [] {
        log := [];
      } else {
        log := Turns(script);
      }
      registered := active != [];
      forall r
        ensures Ok(Now(), complete) && old(active) <= log && Distinct(log)
        ensures r in old(history) ==>
                  if r in log then ServedOnce(old(Now()), Now(), r, complete) else Untouched(old(Now()), Now(), r)
      {
        WholeTurn(old(Now()), complete, script, r);
      }
    }

    /** The loop over the active requests; the next one is fetched before the visit. */
    method Turns(script: seq<Effect>) returns (log: seq<nat>)
      requires Valid() && active != []
      modifies this
      ensures complete == old(complete)
      ensures Turned(Now(), log) == Turn(old(Now()), First(old(active)), complete, script)
    {
      var cur, rest := First(active), script;
      log := [];
      while cur.Some?
        invariant Ok(Now(), complete) && complete == old(complete) && registered && (cur.Some? ==> cur.value in active)
        invariant Goes(Turn(old(Now()), First(old(active)), complete, script), log, Turn(Now(), cur, complete, rest))
        decreases |rest|, |Behind(active, cur)|
      {
        var r, next := cur.value, After(active, cur.value);
        var e := if rest == [] then NOTHING else rest[0];
        ghost var w := Now();
        VisitKeepsOk(w, r, complete, e);
        TurnShrinks(w, r, complete, e);
        var ran := Visit(r, e);
        GoesOn(Turn(old(Now()), First(old(active)), complete, script), log, r,
               Turn(Now(), next, complete, if ran && rest != [] then rest[1..] else rest));
        if ran && rest != [] {
          rest := rest[1..];
        }
        cur := next;
        log := log + [r];
      }
    }
  }

  /** The whole turn `t` is the visits in `log`, and then the turn `rest`. */
  ghost predicate Goes(t: Turned, log: seq<nat>, rest: Turned) { t == Turned(rest.w, log + rest.log) }

  lemma GoesOn(t: Turned, log: seq<nat>, r: nat, rest: Turned)
    requires Goes(t, log, Turned(rest.w, [r] + rest.log))
    ensures Goes(t, log + [r], rest)
  {
    assert log + ([r] + rest.log) == (log + [r]) + rest.log;
  }

  lemma One(w: World, op: Op)
    ensures ApplyAll(w, [op]) == Apply(w, op)
  {
    assert [op][..0] == [];
  }
}
