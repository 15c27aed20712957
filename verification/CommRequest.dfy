/** Communicator requests (ompi/communicator/comm_request.c): each carries a schedule of items, an item
    being a few subrequests to wait for and then a callback.  The progress engine visits the active
    requests turn by turn.  A callback runs without the engine's lock and may itself use the interface:
    get and start further requests, and append items to its own or to other requests.

    This is what the operations and a turn do, as functions, and what they keep. */
module CommRequest {
  import opened Options

  const MAX_SUBREQ := 2
  const SUCCESS := 0
  const ERR_BAD_PARAM := -5
  const ERR_INTERN := 17

  /** `count` of the subrequests have not been seen complete yet, namely the first ones. */
  datatype Item = Item(callback: Option<int>, subreqs: seq<int>, count: nat)

  /** What a callback can do with the interface. */
  datatype Op = Get(r: nat) | Append(r: nat, callback: Option<int>, subreqs: seq<int>) | Start(r: nat)

  /** What a callback does: its return value, and its uses of the interface in their order. */
  datatype Effect = Effect(rc: int, ops: seq<Op>)

  /** A completed request's error field. */
  datatype Status = Status(error: int)

  /** The history of one request: what was appended, what has fired, how often it was completed. */
  datatype History = History(appended: seq<Item>, fired: seq<Item>, completions: nat)

  datatype World = World(active: seq<nat>, schedules: map<nat, seq<Item>>, statuses: map<nat, Status>,
                         history: map<nat, History>)

  // ---------------------------------------------------------------------------
  // The operations
  // ---------------------------------------------------------------------------

  /** An item as it was appended. */
  function Fresh(i: Item): (f: Item) { i.(count := |i.subreqs|) }

  function AllFresh(s: seq<Item>): (r: seq<Item>)
    ensures |r| == |s|
  {
    seq(|s|, i requires 0 <= i < |s| => Fresh(s[i]))
  }

  function Appended(w: World, r: nat, item: Item): (w': World)
    requires r in w.schedules && r in w.history
  {
    var h := w.history[r];
    w.(schedules := w.schedules[r := w.schedules[r] + [item]],
       history := w.history[r := h.(appended := h.appended + [item])])
  }

  predicate Live(w: World, r: nat) { r in w.history && r in w.schedules && r !in w.statuses }

  /** One use of the interface.  An operation on a request for which it is not meant changes nothing. */
  function Apply(w: World, op: Op): (w': World) {
    match op
    case Get(r) =>
      if r in w.history then w
      else w.(schedules := w.schedules[r := []], history := w.history[r := History([], [], 0)])
    case Append(r, callback, subreqs) =>
      if Live(w, r) && |subreqs| <= MAX_SUBREQ then Appended(w, r, Item(callback, subreqs, |subreqs|)) else w
    case Start(r) => if Live(w, r) && r !in w.active then w.(active := w.active + [r]) else w
  }

  function ApplyAll(w: World, ops: seq<Op>): (w': World) {
    if ops == [] then w else Apply(ApplyAll(w, ops[..|ops| - 1]), ops[|ops| - 1])
  }

  // ---------------------------------------------------------------------------
  // One visit
  // ---------------------------------------------------------------------------

  /** How many subrequests are left when those at the end that have completed are taken off. */
  function Remaining(subreqs: seq<int>, count: nat, complete: set<int>): (n: nat)
    requires count <= |subreqs|
    ensures n <= count
  {
    if count > 0 && subreqs[count - 1] in complete then Remaining(subreqs, count - 1, complete) else count
  }

  /** The request is complete. */
  function Completed(w: World, r: nat, rc: int): (w': World)
    requires r in w.history
  {
    w.(active := Without(w.active, r), statuses := w.statuses[r := Status(if rc == SUCCESS then SUCCESS else ERR_INTERN)],
       history := w.history[r := w.history[r].(completions := w.history[r].completions + 1)])
  }

  function CompletedIfEmpty(w: World, r: nat, rc: int): (w': World)
    requires r in w.history && r in w.schedules
  {
    if w.schedules[r] == [] then Completed(w, r, rc) else w
  }

  /** The first item leaves the schedule. */
  function Taken(w: World, r: nat): (w': World)
    requires r in w.history && r in w.schedules && w.schedules[r] != []
  {
    var h, s := w.history[r], w.schedules[r];
    w.(schedules := w.schedules[r := s[1..]], history := w.history[r := h.(fired := h.fired + [Fresh(s[0])])])
  }

  function Waiting(w: World, r: nat, count: nat): (w': World)
    requires r in w.schedules && w.schedules[r] != []
  {
    w.(schedules := w.schedules[r := [w.schedules[r][0].(count := count)] + w.schedules[r][1..]])
  }

  predicate WellShaped(w: World) {
    && w.schedules.Keys == w.history.Keys
    && forall r :: r in w.schedules ==>
         forall i :: 0 <= i < |w.schedules[r]| ==> w.schedules[r][i].count <= |w.schedules[r][i].subreqs|
  }

  /** What a visit does: the world after it, and whether it ran a callback. */
  datatype Visited = Visited(w: World, ran: bool)

  /** One visit: fire, wait, or complete the request; `e` is what the callback does if one runs. */
  function Visit(w: World, r: nat, complete: set<int>, e: Effect): (v: Visited)
    requires WellShaped(w) && r in w.history
  {
    var s := w.schedules[r];
    if s == [] then Visited(Completed(w, r, SUCCESS), false)
    else
      var n := Remaining(s[0].subreqs, s[0].count, complete);
      if n > 0 then Visited(Waiting(w, r, n), false)
      else if s[0].callback.None? then Visited(CompletedIfEmpty(Taken(w, r), r, SUCCESS), false)
      else
        OpsKeepShape(Taken(w, r), e.ops);
        Visited(CompletedIfEmpty(ApplyAll(Taken(w, r), e.ops), r, e.rc), true)
  }

  lemma {:induction false} OpsKeepShape(w: World, ops: seq<Op>)
    requires WellShaped(w)
    ensures WellShaped(ApplyAll(w, ops)) && w.history.Keys <= ApplyAll(w, ops).history.Keys
  {
    if ops != [] {
      OpsKeepShape(w, ops[..|ops| - 1]);
    }
  }

  function Without(s: seq<nat>, r: nat): (t: seq<nat>)
    ensures forall x :: x in t <==> x in s && x != r
  {
    if s == [] then []
    else
      var n := |s| - 1;
      assert s == s[..n] + [s[n]];
      Without(s[..n], r) + (if s[n] == r then [] else [s[n]])
  }
}
