/** What the operations on communicator requests and a turn of the progress engine keep
    (ompi/communicator/comm_request.c), whatever the callbacks do: items fire in their order and after
    their subrequests, a request completes once, and every active request is visited exactly once. */
module CommTurn {
  import opened CommRequest
  import opened Options

  // ---------------------------------------------------------------------------
  // The invariant
  // ---------------------------------------------------------------------------

  ghost predicate ItemOk(i: Item, complete: set<int>) {
    && |i.subreqs| <= MAX_SUBREQ && i.count <= |i.subreqs|
    && forall k :: i.count <= k < |i.subreqs| ==> i.subreqs[k] in complete
  }

  /** Every subrequest of the item has completed. */
  ghost predicate MayFire(i: Item, complete: set<int>) {
    forall k :: 0 <= k < |i.subreqs| ==> i.subreqs[k] in complete
  }

  /** Items fire in the order in which they were appended, each after its subrequests. */
  ghost predicate Consistent(schedule: seq<Item>, h: History, complete: set<int>) {
    && h.appended == h.fired + AllFresh(schedule)
    && (forall i :: 0 <= i < |schedule| ==> ItemOk(schedule[i], complete))
    && (forall i :: 0 <= i < |h.fired| ==> MayFire(h.fired[i], complete))
  }

  /** A request is completed once when it has ended, and not at all before. */
  ghost predicate RequestOk(w: World, r: nat, complete: set<int>) {
    && r in w.schedules && r in w.history && Consistent(w.schedules[r], w.history[r], complete)
    && w.history[r].completions == (if r in w.statuses then 1 else 0) && (r in w.statuses ==> w.schedules[r] == [])
  }

  ghost predicate Distinct(s: seq<nat>) { forall i, j :: 0 <= i < j < |s| ==> s[i] != s[j] }

  ghost predicate ActiveOk(w: World) { Distinct(w.active) && forall r :: r in w.active ==> Live(w, r) }

  ghost predicate RequestsOk(w: World, complete: set<int>) {
    && w.schedules.Keys == w.history.Keys && w.statuses.Keys <= w.history.Keys
    && forall r {:trigger RequestOk(w, r, complete)} :: r in w.history ==> RequestOk(w, r, complete)
  }

  ghost predicate Ok(w: World, complete: set<int>) { RequestsOk(w, complete) && ActiveOk(w) }

  lemma OkIsShaped(w: World, complete: set<int>)
    requires RequestsOk(w, complete)
    ensures WellShaped(w)
  {
    forall r | r in w.schedules
      ensures forall i :: 0 <= i < |w.schedules[r]| ==> w.schedules[r][i].count <= |w.schedules[r][i].subreqs|
    {
      assert RequestOk(w, r, complete);
    }
  }

  /** A change to one request leaves the others as they are. */
  lemma OneChanged(r: nat, w: World, w': World, complete: set<int>)
    requires RequestsOk(w, complete) && RequestOk(w', r, complete)
    requires w'.schedules.Keys == w.schedules.Keys + {r} && w'.history.Keys == w.history.Keys + {r}
             && w'.statuses.Keys <= w.statuses.Keys + {r}
    requires forall p :: p in w.history && p != r ==>
               w'.schedules[p] == w.schedules[p] && w'.history[p] == w.history[p] && (p in w'.statuses <==> p in w.statuses)
    ensures RequestsOk(w', complete)
  {
    forall p | p in w'.history
      ensures RequestOk(w', p, complete)
    {
      assert p == r || RequestOk(w, p, complete);
    }
  }

  /** What has fired is what was appended first, and the rest is still waiting in its order. */
  lemma FiresInOrder(schedule: seq<Item>, h: History, complete: set<int>, i: nat)
    requires Consistent(schedule, h, complete) && i < |h.appended|
    ensures if i < |h.fired| then h.fired[i] == h.appended[i] && MayFire(h.appended[i], complete)
            else i - |h.fired| < |schedule| && h.appended[i] == Fresh(schedule[i - |h.fired|])
  {
    if i < |h.fired| {
      assert (h.fired + AllFresh(schedule))[i] == h.fired[i];
    } else {
      assert (h.fired + AllFresh(schedule))[i] == AllFresh(schedule)[i - |h.fired|];
    }
  }

  // ---------------------------------------------------------------------------
  // The operations
  // ---------------------------------------------------------------------------

  lemma AppendKeepsConsistent(schedule: seq<Item>, h: History, complete: set<int>, item: Item)
    requires Consistent(schedule, h, complete) && |item.subreqs| <= MAX_SUBREQ && item.count == |item.subreqs|
    ensures Consistent(schedule + [item], h.(appended := h.appended + [item]), complete)
  {
    assert AllFresh(schedule + [item]) == AllFresh(schedule) + [item];
    assert h.appended + [item] == h.fired + (AllFresh(schedule) + [item]);
  }

  lemma ApplyKeepsRequests(w: World, op: Op, complete: set<int>)
    requires RequestsOk(w, complete)
    ensures RequestsOk(Apply(w, op), complete)
  {
    var w' := Apply(w, op);
    if op.Get? && op.r !in w.history {
      OneChanged(op.r, w, w', complete);
    } else if op.Append? && w' != w {
      var item := Item(op.callback, op.subreqs, |op.subreqs|);
      assert RequestOk(w, op.r, complete);
      AppendKeepsConsistent(w.schedules[op.r], w.history[op.r], complete, item);
      OneChanged(op.r, w, w', complete);
    } else {
      forall r | r in w.history
        ensures RequestOk(w', r, complete)
      {
        assert RequestOk(w, r, complete);
      }
    }
  }

  /** What an operation can do to the active list. */
  lemma ApplyActive(w: World, op: Op)
    requires ActiveOk(w) && w.statuses.Keys <= w.history.Keys
    ensures ActiveOk(Apply(w, op)) && Apply(w, op).statuses == w.statuses
    ensures var w' := Apply(w, op);
            w'.active == w.active || (w'.active == w.active + [op.r] && op.r !in w.active && op.r !in w.statuses)
  {
  }

  /** For a request that is not visited: it may get further items behind the others, and nothing else. */
  ghost predicate Untouched(w: World, w': World, r: nat) {
    && r in w.history && r in w.schedules && r in w'.history && r in w'.schedules
    && w'.history[r].fired == w.history[r].fired && w'.history[r].completions == w.history[r].completions
    && w.history[r].appended <= w'.history[r].appended && w.schedules[r] <= w'.schedules[r]
    && (r in w'.statuses <==> r in w.statuses) && (r in w.active ==> r in w'.active)
  }

  lemma UntouchedTwice(w: World, w': World, w'': World, r: nat)
    requires Untouched(w, w', r) && Untouched(w', w'', r)
    ensures Untouched(w, w'', r)
  {
  }

  lemma {:induction false} ApplyAllKeepsOk(w: World, ops: seq<Op>, complete: set<int>)
    requires Ok(w, complete)
    ensures Ok(ApplyAll(w, ops), complete) && ApplyAll(w, ops).statuses == w.statuses
  {
    if ops != [] {
      var init := ops[..|ops| - 1];
      ApplyAllKeepsOk(w, init, complete);
      ApplyKeepsRequests(ApplyAll(w, init), ops[|ops| - 1], complete);
      ApplyActive(ApplyAll(w, init), ops[|ops| - 1]);
    }
  }

  lemma {:induction false} OthersUntouched(w: World, ops: seq<Op>, r: nat)
    requires r in w.history && r in w.schedules
    ensures Untouched(w, ApplyAll(w, ops), r)
  {
    if ops != [] {
      var init := ops[..|ops| - 1];
      OthersUntouched(w, init, r);
      UntouchedTwice(w, ApplyAll(w, init), Apply(ApplyAll(w, init), ops[|ops| - 1]), r);
    }
  }

  /** `more` joined the list behind the others, each for the first time. */
  ghost predicate Joins(active: seq<nat>, statuses: map<nat, Status>, more: seq<nat>) {
    Distinct(more) && forall r :: r in more ==> r !in active && r !in statuses
  }

  lemma {:induction false} ApplyAllActive(w: World, ops: seq<Op>, complete: set<int>) returns (more: seq<nat>)
    requires Ok(w, complete)
    ensures ApplyAll(w, ops).active == w.active + more && Joins(w.active, w.statuses, more)
    ensures ops == [] ==> more == []
  {
    more := [];
    if ops != [] {
      var init := ops[..|ops| - 1];
      ApplyAllKeepsOk(w, init, complete);
      more := ApplyAllActive(w, init, complete);
      ApplyActive(ApplyAll(w, init), ops[|ops| - 1]);
      if ApplyAll(w, ops).active != ApplyAll(w, init).active {
        var r := ops[|ops| - 1].r;
        assert r !in w.active + more;
        assert (w.active + more) + [r] == w.active + (more + [r]);
        more := more + [r];
      }
    }
  }

  // ---------------------------------------------------------------------------
  // A visit
  // ---------------------------------------------------------------------------

  lemma {:induction false} RemainingOk(item: Item, count: nat, complete: set<int>)
    requires count <= |item.subreqs| && ItemOk(item.(count := count), complete)
    ensures var n := Remaining(item.subreqs, count, complete);
            ItemOk(item.(count := n), complete) && (n == 0 <==> MayFire(item, complete))
  {
    if count > 0 && item.subreqs[count - 1] in complete {
      RemainingOk(item, count - 1, complete);
    }
  }

  ghost predicate Fires(w: World, r: nat, complete: set<int>)
    requires r in w.schedules
  {
    w.schedules[r] != [] && MayFire(w.schedules[r][0], complete)
  }

  lemma TakenKeepsOk(w: World, r: nat, complete: set<int>)
    requires Ok(w, complete) && Live(w, r) && Fires(w, r, complete)
    ensures Ok(Taken(w, r), complete)
  {
    var s, h := w.schedules[r], w.history[r];
    assert RequestOk(w, r, complete);
    assert AllFresh(s) == [Fresh(s[0])] + AllFresh(s[1..]);
    assert h.fired + ([Fresh(s[0])] + AllFresh(s[1..])) == (h.fired + [Fresh(s[0])]) + AllFresh(s[1..]);
    OneChanged(r, w, Taken(w, r), complete);
  }

  lemma WaitingKeepsOk(w: World, r: nat, complete: set<int>, count: nat)
    requires Ok(w, complete) && Live(w, r) && w.schedules[r] != []
             && ItemOk(w.schedules[r][0].(count := count), complete)
    ensures Ok(Waiting(w, r, count), complete)
  {
    var s := w.schedules[r];
    assert RequestOk(w, r, complete);
    assert AllFresh([s[0].(count := count)] + s[1..]) == AllFresh(s);
    OneChanged(r, w, Waiting(w, r, count), complete);
  }

  lemma CompletedKeepsOk(w: World, r: nat, rc: int, complete: set<int>)
    requires Ok(w, complete) && Live(w, r) && w.schedules[r] == []
    ensures Ok(Completed(w, r, rc), complete)
  {
    assert RequestOk(w, r, complete);
    OneChanged(r, w, Completed(w, r, rc), complete);
    WithoutIsDistinct(w.active, r);
  }

  lemma {:induction false} WithoutIsDistinct(s: seq<nat>, r: nat)
    requires Distinct(s)
    ensures Distinct(Without(s, r))
  {
    if s != [] {
      var n := |s| - 1;
      WithoutIsDistinct(s[..n], r);
      assert s[n] !in s[..n] && s[n] !in Without(s[..n], r);
    }
  }

  /** What one visit means for the request that is visited.  It is over if and only if nothing is left. */
  ghost predicate Served(w: World, w': World, r: nat, complete: set<int>) {
    && r in w.history && r in w.schedules && r in w'.history && r in w'.schedules
    && w'.history[r].fired == w.history[r].fired + (if Fires(w, r, complete) then [Fresh(w.schedules[r][0])] else [])
    && w.history[r].appended <= w'.history[r].appended
    && (r in w'.statuses <==> w'.schedules[r] == []) && (r in w'.statuses <==> r !in w'.active)
  }

  lemma CompletedIfEmptyServes(w: World, v: World, r: nat, rc: int, complete: set<int>)
    requires Ok(v, complete) && Live(v, r) && r in v.active && r in w.history && r in w.schedules
    requires v.history[r].fired == w.history[r].fired + (if Fires(w, r, complete) then [Fresh(w.schedules[r][0])] else [])
    requires w.history[r].appended <= v.history[r].appended
    ensures Ok(CompletedIfEmpty(v, r, rc), complete) && Served(w, CompletedIfEmpty(v, r, rc), r, complete)
    ensures CompletedIfEmpty(v, r, rc).active == if v.schedules[r] == [] then Without(v.active, r) else v.active
  {
    if v.schedules[r] == [] {
      CompletedKeepsOk(v, r, rc, complete);
    }
  }

  /** A visit keeps the invariant, serves its request and leaves the others alone. */
  lemma VisitKeepsOk(w: World, r: nat, complete: set<int>, e: Effect)
    requires Ok(w, complete) && r in w.active
    ensures WellShaped(w) && Live(w, r)
    ensures Ok(Visit(w, r, complete, e).w, complete) && Served(w, Visit(w, r, complete, e).w, r, complete)
  {
    OkIsShaped(w, complete);
    assert RequestOk(w, r, complete);
    var s := w.schedules[r];
    if s == [] {
      CompletedKeepsOk(w, r, SUCCESS, complete);
    } else {
      var n := Remaining(s[0].subreqs, s[0].count, complete);
      RemainingOk(s[0], s[0].count, complete);
      if n > 0 {
        WaitingKeepsOk(w, r, complete, n);
      } else {
        TakenKeepsOk(w, r, complete);
        var ops, rc := if s[0].callback.Some? then e.ops else [], if s[0].callback.Some? then e.rc else SUCCESS;
        ApplyAllKeepsOk(Taken(w, r), ops, complete);
        OthersUntouched(Taken(w, r), ops, r);
        var more := ApplyAllActive(Taken(w, r), ops, complete);
        CompletedIfEmptyServes(w, ApplyAll(Taken(w, r), ops), r, rc, complete);
      }
    }
  }

  lemma VisitLeavesOthers(w: World, r: nat, complete: set<int>, e: Effect, p: nat)
    requires Ok(w, complete) && r in w.active && p in w.history && p != r && WellShaped(w) && r in w.history
    ensures Untouched(w, Visit(w, r, complete, e).w, p)
  {
    var s := w.schedules[r];
    if s != [] && Remaining(s[0].subreqs, s[0].count, complete) == 0 && s[0].callback.Some? {
      OthersUntouched(Taken(w, r), e.ops, p);
    }
  }

  /** The active list after a visit: the request stays or goes, and others may have joined. */
  lemma VisitActive(w: World, r: nat, complete: set<int>, e: Effect) returns (more: seq<nat>)
    requires Ok(w, complete) && r in w.active && WellShaped(w) && r in w.history
    ensures var v := Visit(w, r, complete, e);
            && Joins(w.active, w.statuses, more) && (!v.ran || e.ops == [] ==> more == [])
            && v.w.active == (if r in v.w.active then w.active + more else Without(w.active + more, r))
            && v.w.statuses.Keys <= w.statuses.Keys + {r}
  {
    more := [];
    assert w.active + [] == w.active;
    var s := w.schedules[r];
    assert RequestOk(w, r, complete);
    if s != [] && Remaining(s[0].subreqs, s[0].count, complete) == 0 {
      RemainingOk(s[0], s[0].count, complete);
      TakenKeepsOk(w, r, complete);
      if s[0].callback.Some? {
        more := ApplyAllActive(Taken(w, r), e.ops, complete);
        ApplyAllKeepsOk(Taken(w, r), e.ops, complete);
      }
    }
  }

  // ---------------------------------------------------------------------------
  // A turn
  // ---------------------------------------------------------------------------

  /** The part of the list from `r` on. */
  function Suffix(s: seq<nat>, r: nat): (t: seq<nat>)
    ensures if r in s then t != [] && t[0] == r else t == []
    ensures |t| <= |s| && forall x :: x in t ==> x in s
  {
    if s == [] then [] else if s[0] == r then s else Suffix(s[1..], r)
  }

  /** The request behind `r` on the list. */
  function After(s: seq<nat>, r: nat): (n: Option<nat>) {
    var t := Suffix(s, r);
    if |t| >= 2 then Some(t[1]) else None
  }

  function Behind(s: seq<nat>, cur: Option<nat>): (t: seq<nat>) { if cur.None? then [] else Suffix(s, cur.value) }

  lemma {:induction false} SuffixAppend(s: seq<nat>, more: seq<nat>, r: nat)
    requires r in s
    ensures Suffix(s + more, r) == Suffix(s, r) + more
  {
    if s[0] != r {
      assert (s + more)[1..] == s[1..] + more;
      SuffixAppend(s[1..], more, r);
    } else {
      assert (s + more)[0] == r;
    }
  }

  lemma {:induction false} SuffixNext(s: seq<nat>, r: nat)
    requires Distinct(s) && r in s && |Suffix(s, r)| >= 2
    ensures Suffix(s, Suffix(s, r)[1]) == Suffix(s, r)[1..]
  {
    if s[0] != r {
      SuffixNext(s[1..], r);
      assert s[0] !in s[1..];
    }
  }

  lemma {:induction false} WithoutAbsent(s: seq<nat>, r: nat)
    requires r !in s
    ensures Without(s, r) == s
  {
    if s != [] {
      WithoutAbsent(s[..|s| - 1], r);
    }
  }

  lemma {:induction false} WithoutFirst(x: nat, s: seq<nat>, r: nat)
    ensures Without([x] + s, r) == (if x == r then [] else [x]) + Without(s, r)
  {
    if s == [] {
      assert [x] + s == [x] && [x][..0] == [];
    } else {
      var n := |s| - 1;
      WithoutFirst(x, s[..n], r);
      assert ([x] + s)[..n + 1] == [x] + s[..n];
    }
  }

  /** Taking out `r` leaves the part of the list behind it. */
  lemma {:induction false} SuffixWithout(s: seq<nat>, r: nat, next: nat)
    requires Distinct(s) && r in s && next in Suffix(s, r) && next != r
    ensures Suffix(Without(s, r), next) == Suffix(s, next)
  {
    var rest := s[1..];
    assert s == [s[0]] + rest;
    WithoutFirst(s[0], rest, r);
    if s[0] == r {
      WithoutAbsent(rest, r);
      assert Without(s, r) == rest;
    } else {
      SuffixWithout(rest, r, next);
      assert ([s[0]] + Without(rest, r))[1..] == Without(rest, r);
      assert next in rest;
    }
  }

  /** What the visit makes of the part of the list that is still to come. */
  lemma NextIsThere(w: World, r: nat, complete: set<int>, e: Effect) returns (more: seq<nat>)
    requires Ok(w, complete) && r in w.active && WellShaped(w) && r in w.history
    ensures var v, next := Visit(w, r, complete, e), After(w.active, r);
            && (next.Some? ==> next.value in v.w.active)
            && Behind(v.w.active, next) == (if next.Some? then Suffix(w.active, r)[1..] + more else [])
            && Joins(w.active, w.statuses, more) && (!v.ran || e.ops == [] ==> more == [])
  {
    more := VisitActive(w, r, complete, e);
    var v, next := Visit(w, r, complete, e), After(w.active, r);
    if next.Some? {
      SuffixNext(w.active, r);
      SuffixAppend(w.active, more, next.value);
      if r !in v.w.active {
        SuffixAppend(w.active, more, r);
        JoinedIsDistinct(w.active, w.statuses, more);
        SuffixWithout(w.active + more, r, next.value);
      }
    }
  }

  /** The next request is on the list, and without new ones there are fewer to come. */
  lemma TurnShrinks(w: World, r: nat, complete: set<int>, e: Effect)
    requires Ok(w, complete) && r in w.active && WellShaped(w) && r in w.history
    ensures var v, next := Visit(w, r, complete, e), After(w.active, r);
            && (next.Some? ==> next.value in v.w.active)
            && (!v.ran || e.ops == [] ==> |Behind(v.w.active, next)| < |Suffix(w.active, r)|)
  {
    var more := NextIsThere(w, r, complete, e);
  }

  lemma JoinedIsDistinct(active: seq<nat>, statuses: map<nat, Status>, more: seq<nat>)
    requires Distinct(active) && Joins(active, statuses, more)
    ensures Distinct(active + more)
  {
    forall i, j | 0 <= i < j < |active + more|
      ensures (active + more)[i] != (active + more)[j]
    {
      if i < |active| <= j {
        assert more[j - |active|] in more;
      }
    }
  }

  /** A turn: the world at its end and the requests in the order in which they were visited. */
  datatype Turned = Turned(w: World, log: seq<nat>)

  const NOTHING := Effect(SUCCESS, [])

  /** The turn from request `cur` on.  The next request is fetched before the visit, as
      OPAL_LIST_FOREACH_SAFE does.  `script` says what the callbacks do, one after the other; a callback
      for which nothing is said does nothing. */
  ghost function Turn(w: World, cur: Option<nat>, complete: set<int>, script: seq<Effect>): (t: Turned)
    requires Ok(w, complete) && (cur.Some? ==> cur.value in w.active)
    decreases |script|, |Behind(w.active, cur)|
  {
    if cur.None? then Turned(w, [])
    else
      var r, next, e := cur.value, After(w.active, cur.value), if script == [] then NOTHING else script[0];
      VisitKeepsOk(w, r, complete, e);
      var v := Visit(w, r, complete, e);
      TurnShrinks(w, r, complete, e);
      var t := Turn(v.w, next, complete, if v.ran && script != [] then script[1..] else script);
      Turned(t.w, [r] + t.log)
  }

  /** A turn keeps the invariant: the order of the items, and one completion for each request. */
  lemma {:induction false} TurnKeepsOk(w: World, cur: Option<nat>, complete: set<int>, script: seq<Effect>)
    requires Ok(w, complete) && (cur.Some? ==> cur.value in w.active)
    ensures Ok(Turn(w, cur, complete, script).w, complete)
    decreases |script|, |Behind(w.active, cur)|
  {
    if cur.Some? {
      var r, e := cur.value, if script == [] then NOTHING else script[0];
      VisitKeepsOk(w, r, complete, e);
      TurnShrinks(w, r, complete, e);
      var v := Visit(w, r, complete, e);
      TurnKeepsOk(v.w, After(w.active, r), complete, if v.ran && script != [] then script[1..] else script);
    }
  }

  /** Requests that a turn from `left` on can still visit. */
  ghost predicate ToCome(w: World, left: seq<nat>, log: seq<nat>) {
    left <= log && Distinct(log) && forall r :: r in log ==> r in left || (r !in w.active && r !in w.statuses)
  }

  lemma OneMoreInLog(w: World, r: nat, v: World, left: seq<nat>, more: seq<nat>, log: seq<nat>)
    requires r in w.active && r !in left && forall x :: x in left ==> x in w.active
    requires Joins(w.active, w.statuses, more) && w.statuses.Keys <= v.statuses.Keys
    requires (forall x :: x in w.active && x != r ==> x in v.active) && (r in v.active || r in v.statuses)
    requires ToCome(v, left + more, log) || (left == [] && log == [])
    ensures ToCome(w, [r] + left, [r] + log)
  {
    if log != [] {
      assert left <= left + more;
      forall x | x in log
        ensures x != r && (x in left || (x !in w.active && x !in w.statuses))
      {
        assert x in left + more || (x !in v.active && x !in v.statuses);
      }
    }
  }

  lemma {:induction false} SuffixDistinct(s: seq<nat>, r: nat)
    requires Distinct(s) && r in s
    ensures r !in Suffix(s, r)[1..]
  {
    if s[0] != r {
      SuffixDistinct(s[1..], r);
    }
  }

  /** What a visit leaves of the lists of active and of completed requests. */
  lemma VisitKeepsLists(w: World, r: nat, complete: set<int>, e: Effect)
    requires Ok(w, complete) && r in w.active && WellShaped(w) && r in w.history
    ensures var v := Visit(w, r, complete, e).w;
            && w.statuses.Keys <= v.statuses.Keys && (forall x :: x in w.active && x != r ==> x in v.active)
            && (r in v.active || r in v.statuses)
  {
    var v := Visit(w, r, complete, e).w;
    VisitKeepsOk(w, r, complete, e);
    forall x | x in w.history && x != r
      ensures Untouched(w, v, x)
    {
      VisitLeavesOthers(w, r, complete, e, x);
    }
    assert forall x :: x in w.statuses ==> Untouched(w, v, x);
    assert forall x :: x in w.active && x != r ==> Untouched(w, v, x);
  }

  /** A turn visits the requests that were on the list, in their order, then some that joined it, and
      none twice. */
  lemma {:induction false} TurnVisits(w: World, cur: Option<nat>, complete: set<int>, script: seq<Effect>)
    requires Ok(w, complete) && (cur.Some? ==> cur.value in w.active)
    ensures ToCome(w, Behind(w.active, cur), Turn(w, cur, complete, script).log)
    decreases |script|, |Behind(w.active, cur)|
  {
    if cur.Some? {
      var r, next, e := cur.value, After(w.active, cur.value), if script == [] then NOTHING else script[0];
      VisitKeepsOk(w, r, complete, e);
      TurnShrinks(w, r, complete, e);
      VisitKeepsLists(w, r, complete, e);
      var v := Visit(w, r, complete, e);
      var more := NextIsThere(w, r, complete, e);
      var script' := if v.ran && script != [] then script[1..] else script;
      TurnVisits(v.w, next, complete, script');
      SuffixDistinct(w.active, r);
      var left := Suffix(w.active, r)[1..];
      assert Suffix(w.active, r) == [r] + left;
      OneMoreInLog(w, r, v.w, left, more, Turn(v.w, next, complete, script').log);
    }
  }

  /** What a turn means for a request that is visited in it. */
  ghost predicate ServedOnce(w: World, w': World, r: nat, complete: set<int>) {
    && r in w.history && r in w.schedules && r in w'.history && r in w'.schedules
    && (w.schedules[r] != [] ==>
          w'.history[r].fired == w.history[r].fired + (if Fires(w, r, complete) then [Fresh(w.schedules[r][0])] else []))
    && |w'.history[r].fired| <= |w.history[r].fired| + 1
    && w.history[r].appended <= w'.history[r].appended
    && (r in w'.statuses <==> w'.schedules[r] == []) && (r in w'.statuses <==> r !in w'.active)
  }

  lemma ServedThenUntouched(w: World, v: World, w': World, r: nat, complete: set<int>)
    requires Served(w, v, r, complete) && Untouched(v, w', r) && Ok(w', complete)
    ensures ServedOnce(w, w', r, complete)
  {
    assert RequestOk(w', r, complete);
  }

  lemma UntouchedThenServed(w: World, v: World, w': World, r: nat, complete: set<int>)
    requires Untouched(w, v, r) && ServedOnce(v, w', r, complete)
    ensures ServedOnce(w, w', r, complete)
  {
  }

  /** A request that is visited fires its first item exactly when all subrequests of that have completed,
      and is over exactly when nothing is left; one that is not visited only gets further items. */
  lemma {:induction false} TurnServes(w: World, cur: Option<nat>, complete: set<int>, script: seq<Effect>, r: nat)
    requires Ok(w, complete) && (cur.Some? ==> cur.value in w.active) && r in w.history
    ensures var t := Turn(w, cur, complete, script);
            if r in t.log then ServedOnce(w, t.w, r, complete) else Untouched(w, t.w, r)
    decreases |script|, |Behind(w.active, cur)|
  {
    if cur.Some? {
      var q, next, e := cur.value, After(w.active, cur.value), if script == [] then NOTHING else script[0];
      VisitKeepsOk(w, q, complete, e);
      TurnShrinks(w, q, complete, e);
      var v := Visit(w, q, complete, e);
      var script' := if v.ran && script != [] then script[1..] else script;
      var t := Turn(v.w, next, complete, script');
      TurnKeepsOk(v.w, next, complete, script');
      if r == q {
        TurnServes(v.w, next, complete, script', r);
        TurnVisits(w, cur, complete, script);
        VisitedIsOver(q, t.log);
        ServedThenUntouched(w, v.w, t.w, r, complete);
      } else {
        VisitLeavesOthers(w, q, complete, e, r);
        TurnServes(v.w, next, complete, script', r);
        if r in t.log {
          UntouchedThenServed(w, v.w, t.w, r, complete);
        } else {
          UntouchedTwice(w, v.w, t.w, r);
        }
      }
    }
  }

  lemma VisitedIsOver(q: nat, log: seq<nat>)
    requires Distinct([q] + log)
    ensures q !in log
  {
    forall i | 0 <= i < |log|
      ensures log[i] != q
    {
      assert ([q] + log)[0] == q && ([q] + log)[i + 1] == log[i];
    }
  }

  function First(active: seq<nat>): (r: Option<nat>) { if active == [] then None else Some(active[0]) }

  /** A whole turn: the active requests are visited once each, in their order, then at most once some that
      were started during the turn. */
  lemma WholeTurn(w: World, complete: set<int>, script: seq<Effect>, r: nat)
    requires Ok(w, complete)
    ensures var t := Turn(w, First(w.active), complete, script);
            && Ok(t.w, complete) && w.active <= t.log && Distinct(t.log)
            && (r in w.history ==> if r in t.log then ServedOnce(w, t.w, r, complete) else Untouched(w, t.w, r))
            && (r in t.log && r !in w.active ==> r in t.w.history && r !in w.statuses)
  {
    var cur := First(w.active);
    TurnKeepsOk(w, cur, complete, script);
    TurnVisits(w, cur, complete, script);
    if r in w.history {
      TurnServes(w, cur, complete, script, r);
    }
    TurnKnows(w, cur, complete, script, r);
  }

  /** Whoever is visited is a request. */
  lemma {:induction false} TurnKnows(w: World, cur: Option<nat>, complete: set<int>, script: seq<Effect>, r: nat)
    requires Ok(w, complete) && (cur.Some? ==> cur.value in w.active)
    ensures var t := Turn(w, cur, complete, script);
            (r in t.log ==> r in t.w.history) && w.history.Keys <= t.w.history.Keys
    decreases |script|, |Behind(w.active, cur)|
  {
    if cur.Some? {
      var q, next, e := cur.value, After(w.active, cur.value), if script == [] then NOTHING else script[0];
      VisitKeepsOk(w, q, complete, e);
      TurnShrinks(w, q, complete, e);
      var v := Visit(w, q, complete, e);
      forall x | x in w.history && x != q
        ensures x in v.w.history
      {
        VisitLeavesOthers(w, q, complete, e, x);
      }
      TurnKnows(v.w, next, complete, if v.ran && script != [] then script[1..] else script, r);
    }
  }
}
