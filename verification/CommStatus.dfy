/** With which status a communicator request ends (ompi/communicator/comm_request.c). */
module CommStatus {
  import opened CommRequest
  import opened CommTurn
  import opened Options

  /** The items of a request that have fired so far. */
  function FiredOf(w: World, r: nat): (s: seq<Item>) { if r in w.history then w.history[r].fired else [] }

  /** The error field of a request that ends with this item as the last one to fire, if one did: the callback of an
      earlier item is not asked again. */
  function EndsWith(before: seq<Item>, now: seq<Item>, rc: int): (error: int) {
    if |now| > |before| && now[|now| - 1].callback.Some? && rc != 0 then 17 else 0
  }

  /** Callbacks neither fire items nor end requests. */
  lemma {:induction false} OpsFireNothing(w: World, ops: seq<Op>, r: nat)
    ensures FiredOf(ApplyAll(w, ops), r) == FiredOf(w, r) && ApplyAll(w, ops).statuses == w.statuses
  {
    if ops != [] {
      OpsFireNothing(w, ops[..|ops| - 1], r);
    }
  }

  /** A visit that ends its request leaves the status that the callback which ran in it, if one did, has asked for;
      it neither ends nor fires anything of another request. */
  lemma VisitStatus(w: World, r: nat, complete: set<int>, e: Effect, p: nat)
    requires Ok(w, complete) && r in w.active && WellShaped(w) && r in w.history
    ensures var v := Visit(w, r, complete, e).w;
            && (r in v.statuses ==> v.statuses[r].error == EndsWith(FiredOf(w, r), FiredOf(v, r), e.rc))
            && (p != r ==> FiredOf(v, p) == FiredOf(w, p) && (p in v.statuses <==> p in w.statuses)
                           && (p in v.statuses ==> v.statuses[p] == w.statuses[p]))
  {
    var s := w.schedules[r];
    if s != [] && Remaining(s[0].subreqs, s[0].count, complete) == 0 && s[0].callback.Some? {
      OpsFireNothing(Taken(w, r), e.ops, r);
      OpsFireNothing(Taken(w, r), e.ops, p);
    }
  }

  /** What the callback that a visit of `r` runs in this turn does. */
  ghost function EffectOn(w: World, cur: Option<nat>, complete: set<int>, script: seq<Effect>, r: nat): (e: Effect)
    requires Ok(w, complete) && (cur.Some? ==> cur.value in w.active)
    decreases |script|, |Behind(w.active, cur)|
  {
    if cur.None? then NOTHING
    else
      var q, next, e := cur.value, After(w.active, cur.value), if script == [] then NOTHING else script[0];
      if q == r then e
      else
        VisitKeepsOk(w, q, complete, e);
        var v := Visit(w, q, complete, e);
        TurnShrinks(w, q, complete, e);
        EffectOn(v.w, next, complete, if v.ran && script != [] then script[1..] else script, r)
  }

  /** A request that ends in a turn ends with the status that the callback of its last item asked for, and with
      success if there was none; the status of one that had ended before stays. */
  lemma {:induction false} TurnStatus(w: World, cur: Option<nat>, complete: set<int>, script: seq<Effect>, r: nat)
    requires Ok(w, complete) && (cur.Some? ==> cur.value in w.active)
    ensures var w' := Turn(w, cur, complete, script).w;
            && (r in w.statuses ==> r in w'.statuses && w'.statuses[r] == w.statuses[r])
            && (r in w'.statuses && r !in w.statuses ==>
                  w'.statuses[r].error == EndsWith(FiredOf(w, r), FiredOf(w', r), EffectOn(w, cur, complete, script, r).rc))
    ensures var t := Turn(w, cur, complete, script);
            r !in t.log ==> FiredOf(t.w, r) == FiredOf(w, r) && (r in t.w.statuses <==> r in w.statuses)
    decreases |script|, |Behind(w.active, cur)|
  {
    if cur.Some? {
      var q, next, e := cur.value, After(w.active, cur.value), if script == [] then NOTHING else script[0];
      VisitKeepsOk(w, q, complete, e);
      TurnShrinks(w, q, complete, e);
      VisitStatus(w, q, complete, e, r);
      var v := Visit(w, q, complete, e);
      var script' := if v.ran && script != [] then script[1..] else script;
      TurnStatus(v.w, next, complete, script', r);
      if q == r {
        TurnVisits(w, cur, complete, script);
        VisitedIsOver(q, Turn(v.w, next, complete, script').log);
      }
    }
  }
}
