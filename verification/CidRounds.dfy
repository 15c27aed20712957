/** ompi_comm_nextcid and its non-blocking twin run by one group of processes: every process runs
    the same loop and the two reductions of a round make them move in step.  What running out of
    ids does is modelled as well. */
module CidRounds {
  import opened CidProtocol
  import opened CommonIds

  /** How the group leaves the call.  `Committed`: every process returns this id.  `Split`: the
      processes in `bailed` return "out of resource", all others wait in a reduction that cannot
      complete. */
  datatype Outcome = Committed(id: nat) | Split(bailed: set<nat>)

  ghost function Sets(tables: seq<set<nat>>): (used: set<set<nat>>)
    ensures forall g :: CommonFree(used, g) <==> forall p :: 0 <= p < |tables| ==> g !in tables[p]
  {
    set t | t in tables
  }

  ghost predicate IsFirstFree(used: set<nat>, start: nat, limit: nat, cand: nat) {
    && (forall i :: start <= i < cand ==> i in used)
    && (cand == limit || (start <= cand < limit && cand !in used))
  }

  /** The scan for the first slot that can be reserved. */
  method Scan(used: set<nat>, start: nat, limit: nat) returns (cand: nat, flag: bool)
    ensures flag <==> cand < limit
    ensures if start <= limit then IsFirstFree(used, start, limit, cand) else cand == limit
  {
    cand, flag := limit, false;
    var i := start;
    while i < limit
      invariant start <= i && (start <= limit ==> i <= limit)
      invariant forall j :: start <= j < i ==> j in used
    {
      if i !in used {
        cand, flag := i, true;
        break;
      }
      i := i + 1;
    }
  }

  /** MPI_MAX over the group. */
  method AllreduceMax(values: array<nat>) returns (m: nat)
    requires values.Length > 0
    ensures m in values[..] && forall p :: 0 <= p < values.Length ==> values[p] <= m
  {
    m := values[0];
    for p := 1 to values.Length
      invariant m in values[..]
      invariant forall q :: 0 <= q < p ==> values[q] <= m
    {
      if values[p] > m {
        m := values[p];
      }
    }
  }

  /** No process starts past an id that is free everywhere. */
  ghost predicate StartsBelowFree(tables: seq<set<nat>>, start: seq<nat>, limit: nat) {
    forall p, g: nat :: 0 <= p < |start| && g < limit && CommonFree(Sets(tables), g) ==> start[p] <= g
  }

  /** The maximum of the candidates is at most every id that is free everywhere, and at least the
      start of every process. */
  lemma BestCandidate(tables: seq<set<nat>>, start: array<nat>, cand: array<nat>, limit: nat, m: nat)
    requires |tables| == start.Length == cand.Length > 0
    requires forall p :: 0 <= p < cand.Length ==> cand[p] <= m
    requires m in cand[..]
    requires forall p :: 0 <= p < cand.Length ==>
               if start[p] <= limit then IsFirstFree(tables[p], start[p], limit, cand[p]) else cand[p] == limit
    requires StartsBelowFree(tables, start[..], limit)
    ensures m <= limit
    ensures m < limit ==> forall p :: 0 <= p < cand.Length ==> start[p] <= cand[p] < limit && cand[p] !in tables[p]
    ensures forall g: nat :: g < limit && CommonFree(Sets(tables), g) ==> m <= g
  {
    forall g: nat | g < limit && CommonFree(Sets(tables), g)
      ensures m <= g
    {
      var p :| 0 <= p < cand.Length && cand[p] == m;
      assert start[..][p] <= g && g !in tables[p];
    }
  }

  /** After a refused maximum no process starts past an id that is free everywhere. */
  lemma RetryStartsBelowFree(mode: Mode, tables: seq<set<nat>>, start: seq<nat>, response: seq<bool>, limit: nat,
                             m: nat,
                             next: seq<nat>)
    requires |tables| == |start| == |response| == |next| && StartsBelowFree(tables, start, limit)
             && !CommonFree(Sets(tables), m)
    requires forall g: nat :: g < limit && CommonFree(Sets(tables), g) ==> m <= g
    requires forall p :: 0 <= p < |next| ==> next[p] == if response[p] then m + 1 else RetryStart(mode, start[p], m)
    ensures StartsBelowFree(tables, next, limit)
  {
    forall p, g: nat | 0 <= p < |next| && g < limit && CommonFree(Sets(tables), g)
      ensures next[p] <= g
    {
      assert start[p] <= g && m <= g && m != g;
    }
  }

  // ---------------------------------------------------------------------------
  // Running out of ids
  // ---------------------------------------------------------------------------

  ghost predicate NoneFree(used: set<nat>, lo: nat, hi: nat) { forall i :: lo <= i < hi ==> i in used }

  /** Every process has a free id from `lo` up to `hi`. */
  ghost predicate AllHave(tables: seq<set<nat>>, lo: nat, hi: nat) {
    forall p :: 0 <= p < |tables| ==> !NoneFree(tables[p], lo, hi)
  }

  /** The least end, from `hi` on, of a range of ids that begins at `lo` and has a free one for everybody. */
  ghost function LeastEnd(tables: seq<set<nat>>, lo: nat, hi: nat, limit: nat): (end: nat)
    requires hi <= limit
    ensures hi <= end <= limit
    decreases limit - hi
  {
    if hi == limit || AllHave(tables, lo, hi) then hi else LeastEnd(tables, lo, hi + 1, limit)
  }

  /** Where the blocking call begins its last round when no id is free everywhere: the ids from `lo` on are cut
      into the shortest ranges in which everybody has a free id, and what is left over begins there. */
  ghost function LastStart(tables: seq<set<nat>>, lo: nat, limit: nat): (start: nat)
    requires tables != []
    decreases limit - lo
  {
    if lo < limit && AllHave(tables, lo, limit) then
      assert !AllHave(tables, lo, lo) by { assert NoneFree(tables[0], lo, lo); }
      LastStart(tables, LeastEnd(tables, lo, lo, limit), limit)
    else lo
  }

  /** Every process starts at `lo`, or past it with nothing free in between. */
  ghost predicate StartsAt(tables: seq<set<nat>>, start: seq<nat>, lo: nat)
    requires |tables| == |start|
  {
    forall p :: 0 <= p < |start| ==> lo <= start[p] && NoneFree(tables[p], lo, start[p])
  }

  /** What everybody's scan has found. */
  ghost predicate Scanned(tables: seq<set<nat>>, start: seq<nat>, cand: seq<nat>, limit: nat)
    requires |tables| == |start| == |cand|
  {
    forall p :: 0 <= p < |cand| ==>
      if start[p] <= limit then IsFirstFree(tables[p], start[p], limit, cand[p]) else cand[p] == limit
  }

  lemma {:induction false} LeastEndIs(tables: seq<set<nat>>, lo: nat, hi: nat, limit: nat, end: nat)
    requires hi <= end <= limit && (end == limit || AllHave(tables, lo, end))
    requires forall h :: hi <= h < end ==> !AllHave(tables, lo, h)
    ensures LeastEnd(tables, lo, hi, limit) == end
    decreases end - hi
  {
    if hi < end {
      LeastEndIs(tables, lo, hi + 1, limit, end);
    }
  }

  /** A round whose maximum is below the limit tries the last id of the shortest range. */
  lemma RoundEnds(tables: seq<set<nat>>, start: seq<nat>, cand: seq<nat>, lo: nat, limit: nat, m: nat)
    requires |tables| == |start| == |cand| > 0 && StartsAt(tables, start, lo) && Scanned(tables, start, cand, limit)
    requires m < limit && m in cand && forall p :: 0 <= p < |cand| ==> cand[p] <= m
    ensures LastStart(tables, lo, limit) == LastStart(tables, m + 1, limit)
  {
    var top :| 0 <= top < |cand| && cand[top] == m;
    assert lo <= start[top] <= m && NoneFree(tables[top], lo, m);
    forall p, h | 0 <= p < |tables| && m < h <= limit
      ensures !NoneFree(tables[p], lo, h)
    {
      assert lo <= cand[p] < h && cand[p] !in tables[p];
    }
    forall h | lo <= h < m + 1
      ensures !AllHave(tables, lo, h)
    {
      assert NoneFree(tables[top], lo, h);
    }
    LeastEndIs(tables, lo, lo, limit, m + 1);
    assert AllHave(tables, lo, limit);
  }

  /** In the last round the processes without a candidate are those with nothing free from `lo` on. */
  lemma LastRound(tables: seq<set<nat>>, start: seq<nat>, cand: seq<nat>, lo: nat, limit: nat)
    requires |tables| == |start| == |cand| > 0 && StartsAt(tables, start, lo) && Scanned(tables, start, cand, limit)
    requires limit in cand
    ensures forall p :: 0 <= p < |cand| ==> (cand[p] == limit <==> NoneFree(tables[p], lo, limit))
    ensures LastStart(tables, lo, limit) == lo
  {
    forall p | 0 <= p < |cand|
      ensures cand[p] == limit <==> NoneFree(tables[p], lo, limit)
    {
      if cand[p] < limit {
        assert lo <= cand[p] && cand[p] !in tables[p];
      }
    }
    var p :| 0 <= p < |cand| && cand[p] == limit;
    assert !AllHave(tables, lo, limit);
  }

  /** Nobody has moved from the lowest free id of its table, or somebody has a free id that it has not tried. */
  ghost predicate Hopeful(tables: seq<set<nat>>, start: seq<nat>, limit: nat)
    requires |tables| == |start|
  {
    || (forall p :: 0 <= p < |start| ==> NoneFree(tables[p], 0, start[p]))
    || exists p :: 0 <= p < |start| && !NoneFree(tables[p], start[p], limit)
  }

  /** The non-blocking call leaves nobody with a candidate exactly when nobody has a free id at all. */
  lemma NobodyHasCandidate(tables: seq<set<nat>>, start: seq<nat>, cand: seq<nat>, limit: nat)
    requires |tables| == |start| == |cand| && Hopeful(tables, start, limit) && Scanned(tables, start, cand, limit)
    ensures (forall p :: 0 <= p < |cand| ==> cand[p] == limit)
            <==> forall p :: 0 <= p < |cand| ==> NoneFree(tables[p], 0, limit)
  {
    forall p | 0 <= p < |cand|
      ensures cand[p] == limit <==> NoneFree(tables[p], start[p], limit)
    {
      if start[p] <= limit && cand[p] < limit {
        assert start[p] <= cand[p] && cand[p] !in tables[p];
      }
    }
  }

  /** Every process reserves its first candidate. */
  method ReserveCandidates(used: array<set<nat>>, start: array<nat>, limit: nat, ghost tables: seq<set<nat>>)
    returns (cand: array<nat>)
    requires used.Length == start.Length && used[..] == tables
    modifies used
    ensures fresh(cand) && cand.Length == used.Length
    ensures forall p :: 0 <= p < used.Length ==> used[p] == Reserved(tables[p], cand[p], limit)
    ensures forall p :: 0 <= p < used.Length ==>
              if start[p] <= limit then IsFirstFree(tables[p], start[p], limit, cand[p]) else cand[p] == limit
  {
    cand := new nat[used.Length];
    for p := 0 to used.Length
      invariant forall q :: 0 <= q < p ==>
                  && used[q] == Reserved(tables[q], cand[q], limit)
                  && if start[q] <= limit then IsFirstFree(tables[q], start[q], limit, cand[q]) else cand[q] == limit
      invariant forall q :: p <= q < used.Length ==> used[q] == tables[q]
      modifies used, cand
    {
      var c, flag := Scan(used[p], start[p], limit);
      cand[p] := c;
      if flag {
        used[p] := used[p] + {c};
      }
    }
  }

  function Reserved(table: set<nat>, cand: nat, limit: nat): (t: set<nat>) {
    if cand < limit then table + {cand} else table
  }

  /** Every process moves its reservation to the maximum, if it can. */
  method SwapToMax(used: array<set<nat>>, cand: array<nat>, nextcid: nat, ghost tables: seq<set<nat>>)
    returns (response: array<bool>)
    requires used.Length == cand.Length == |tables|
    requires forall p :: 0 <= p < used.Length ==> used[p] == tables[p] + {cand[p]} && cand[p] !in tables[p]
    modifies used
    ensures fresh(response) && response.Length == used.Length
    ensures forall p :: 0 <= p < used.Length ==>
              && (response[p] <==> nextcid !in tables[p])
              && used[p] == tables[p] + (if response[p] then {nextcid} else {})
  {
    response := new bool[used.Length];
    for p := 0 to used.Length
      invariant forall q :: 0 <= q < p ==>
                  && (response[q] <==> nextcid !in tables[q])
                  && used[q] == tables[q] + (if response[q] then {nextcid} else {})
      invariant forall q :: p <= q < used.Length ==> used[q] == tables[q] + {cand[q]}
      modifies used, response
    {
      if cand[p] == nextcid {
        response[p] := true;
      } else {
        used[p] := used[p] - {cand[p]};
        assert used[p] == tables[p];
        response[p] := nextcid !in used[p];
        if response[p] {
          used[p] := used[p] + {nextcid};
        }
      }
    }
  }

  /** MPI_MIN over the group's answers. */
  method AllreduceMin(response: array<bool>) returns (glresponse: bool)
    ensures glresponse <==> forall p :: 0 <= p < response.Length ==> response[p]
  {
    glresponse := true;
    for p := 0 to response.Length
      invariant glresponse <==> forall q :: 0 <= q < p ==> response[q]
    {
      glresponse := glresponse && response[p];
    }
  }

  /** A refused maximum is released and the next start is set. */
  method ReleaseAndRetry(mode: Mode, used: array<set<nat>>, start: array<nat>, response: array<bool>, nextcid: nat,
                         ghost tables: seq<set<nat>>)
    requires used.Length == start.Length == response.Length == |tables|
    requires forall p :: 0 <= p < used.Length ==>
               && (response[p] <==> nextcid !in tables[p])
               && used[p] == tables[p] + (if response[p] then {nextcid} else {})
    modifies used, start
    ensures used[..] == tables
    ensures forall p :: 0 <= p < start.Length ==>
              start[p] == if response[p] then nextcid + 1 else RetryStart(mode, old(start[p]), nextcid)
  {
    for p := 0 to used.Length
      invariant forall q :: 0 <= q < p ==> used[q] == tables[q]
      invariant forall q :: 0 <= q < p ==>
                  start[q] == if response[q] then nextcid + 1 else RetryStart(mode, old(start[q]), nextcid)
      invariant forall q :: p <= q < used.Length ==> used[q] == old(used[q]) && start[q] == old(start[q])
    {
      if response[p] {
        used[p] := used[p] - {nextcid};
        start[p] := nextcid + 1;
      } else {
        start[p] := RetryStart(mode, start[p], nextcid);
      }
    }
  }

  /** The blocking call after a round whose maximum is the limit: a process that did find an id
      gives it back and returns the error, one that did not accepts the limit as its answer. */
  method BlockingOutOfIds(used: array<set<nat>>, cand: array<nat>, limit: nat, ghost tables: seq<set<nat>>)
    returns (out: Outcome)
    requires used.Length == cand.Length == |tables|
    requires forall p :: 0 <= p < cand.Length ==>
               && cand[p] <= limit && (cand[p] < limit ==> cand[p] !in tables[p])
               && used[p] == Reserved(tables[p], cand[p], limit)
    modifies used
    ensures if forall p :: 0 <= p < cand.Length ==> cand[p] == limit then
              out == Committed(limit) && forall p :: 0 <= p < used.Length ==> used[p] == tables[p] + {limit}
            else
              && out.Split? && used[..] == tables
              && forall p: nat :: p in out.bailed <==> p < cand.Length && cand[p] < limit
  {
    var bailed: set<nat> := {};
    for p := 0 to cand.Length
      invariant forall q: nat :: q in bailed <==> q < p && cand[q] < limit
      invariant forall q :: 0 <= q < p ==> used[q] == tables[q]
      invariant forall q :: p <= q < cand.Length ==> used[q] == Reserved(tables[q], cand[q], limit)
    {
      if cand[p] < limit {
        used[p] := used[p] - {cand[p]};
        bailed := bailed + {p};
      }
    }
    if bailed != {} {
      var p :| p in bailed;
      return Split(bailed);
    }
    for p := 0 to cand.Length
      invariant forall q :: 0 <= q < p ==> used[q] == tables[q] + {limit}
      invariant forall q :: p <= q < cand.Length ==> used[q] == tables[q]
    {
      used[p] := used[p] + {limit};
    }
    return Committed(limit);
  }

  /** The non-blocking call after such a round: a process that found no id returns the error, the
      others swap their reservation to the limit and wait. */
  method NonBlockingOutOfIds(used: array<set<nat>>, cand: array<nat>, limit: nat, ghost tables: seq<set<nat>>)
    returns (out: Outcome)
    requires used.Length == cand.Length == |tables|
    requires forall p :: 0 <= p < cand.Length ==>
               && cand[p] <= limit && (cand[p] < limit ==> cand[p] !in tables[p])
               && used[p] == Reserved(tables[p], cand[p], limit)
    modifies used
    ensures out.Split? && forall p: nat :: p in out.bailed <==> p < cand.Length && cand[p] == limit
    ensures forall p :: 0 <= p < used.Length ==> used[p] == tables[p] + (if p in out.bailed then {} else {limit})
  {
    var bailed: set<nat> := {};
    for p := 0 to cand.Length
      invariant forall q: nat :: q in bailed <==> q < p && cand[q] == limit
      invariant forall q :: 0 <= q < p ==> used[q] == tables[q] + (if q in bailed then {} else {limit})
      invariant forall q :: p <= q < cand.Length ==> used[q] == Reserved(tables[q], cand[q], limit)
    {
      if cand[p] == limit {
        bailed := bailed + {p};
      } else {
        used[p] := used[p] - {cand[p]} + {limit};
      }
    }
    return Split(bailed);
  }

  /** First half of a round: everybody reserves a candidate, MPI_MAX picks one. */
  method Propose(used: array<set<nat>>, start: array<nat>, limit: nat, ghost tables: seq<set<nat>>)
    returns (cand: array<nat>, nextcid: nat)
    requires used.Length == start.Length > 0 && used[..] == tables && StartsBelowFree(tables, start[..], limit)
    modifies used
    ensures fresh(cand) && cand.Length == used.Length && nextcid <= limit
    ensures forall p :: 0 <= p < used.Length ==>
              && used[p] == Reserved(tables[p], cand[p], limit) && cand[p] <= limit
              && (cand[p] < limit ==> cand[p] !in tables[p])
              && (nextcid < limit ==> cand[p] < limit && start[p] <= nextcid)
    ensures nextcid in cand[..] && (forall p :: 0 <= p < cand.Length ==> cand[p] <= nextcid)
    ensures Scanned(tables, start[..], cand[..], limit)
    ensures forall g: nat :: g < limit && CommonFree(Sets(tables), g) ==> nextcid <= g
  {
    cand := ReserveCandidates(used, start, limit, tables);
    nextcid := AllreduceMax(cand);
    BestCandidate(tables, start, cand, limit, nextcid);
  }

  /** Second half of a round: everybody tries the maximum, MPI_MIN says whether all could take it;
      if not it is released and the next starts are set. */
  method Settle(mode: Mode, used: array<set<nat>>, start: array<nat>, cand: array<nat>, limit: nat, nextcid: nat,
                ghost tables: seq<set<nat>>)
    returns (accepted: bool)
    requires used.Length == start.Length == cand.Length == |tables| && StartsBelowFree(tables, start[..], limit)
    requires forall p :: 0 <= p < used.Length ==> used[p] == tables[p] + {cand[p]} && cand[p] !in tables[p]
    requires forall g: nat :: g < limit && CommonFree(Sets(tables), g) ==> nextcid <= g
    modifies used, start
    ensures accepted <==> CommonFree(Sets(tables), nextcid)
    ensures accepted ==> forall p :: 0 <= p < used.Length ==> used[p] == tables[p] + {nextcid}
    ensures !accepted ==>
              && used[..] == tables && StartsBelowFree(tables, start[..], limit)
              && (forall p :: 0 <= p < used.Length && cand[p] == nextcid ==> start[p] == nextcid + 1)
              && (forall p :: 0 <= p < used.Length && nextcid in tables[p] ==>
                    start[p] == RetryStart(mode, old(start[p]), nextcid))
              && (mode.Blocking? ==> forall p :: 0 <= p < used.Length ==> start[p] == nextcid + 1)
  {
    var response := SwapToMax(used, cand, nextcid, tables);
    accepted := AllreduceMin(response);
    if !accepted {
      ghost var before := start[..];
      ReleaseAndRetry(mode, used, start, response, nextcid, tables);
      RetryStartsBelowFree(mode, tables, before, response[..], limit, nextcid, start[..]);
    }
  }

  /** What the starts say before a round. */
  ghost predicate StartsOk(mode: Mode, tables: seq<set<nat>>, start: seq<nat>, lo: nat, limit: nat)
    requires |tables| == |start| > 0
  {
    && StartsBelowFree(tables, start, limit)
    && match mode
       case Blocking => StartsAt(tables, start, lo) && LastStart(tables, lo, limit) == LastStart(tables, 0, limit)
       case NonBlocking => Hopeful(tables, start, limit)
  }

  /** How a call ends that runs out of ids. */
  ghost predicate OutOfIds(mode: Mode, tables: seq<set<nat>>, limit: nat, out: Outcome)
    requires tables != []
  {
    match mode
    case Blocking =>
      out == Committed(limit)
      <==> forall p :: 0 <= p < |tables| ==> NoneFree(tables[p], LastStart(tables, 0, limit), limit)
    case NonBlocking =>
      && out.Split?
      && ((forall p: nat :: p < |tables| ==> p in out.bailed)
          <==> forall p :: 0 <= p < |tables| ==> NoneFree(tables[p], 0, limit))
  }

  /** The round whose maximum is the limit. */
  method LastTurn(mode: Mode, used: array<set<nat>>, start: array<nat>, cand: array<nat>, limit: nat,
                  ghost tables: seq<set<nat>>, ghost lo: nat)
    returns (out: Outcome)
    requires used.Length == start.Length == cand.Length == |tables| > 0
    requires StartsOk(mode, tables, start[..], lo, limit) && Scanned(tables, start[..], cand[..], limit)
             && limit in cand[..]
    requires forall p :: 0 <= p < cand.Length ==>
               && cand[p] <= limit && (cand[p] < limit ==> cand[p] !in tables[p])
               && used[p] == Reserved(tables[p], cand[p], limit)
    modifies used
    ensures OutOfIds(mode, tables, limit, out)
    ensures out.Committed? ==> mode.Blocking? && out.id == limit
    ensures out.Committed? ==> forall p :: 0 <= p < used.Length ==> used[p] == tables[p] + {limit}
    ensures out.Split? ==> exists p: nat :: p < used.Length && p in out.bailed
    ensures out.Split? && mode.Blocking? ==> used[..] == tables && exists p: nat :: p < used.Length && p !in out.bailed
    ensures out.Split? && mode.NonBlocking? ==>
              forall p :: 0 <= p < used.Length ==> used[p] == tables[p] + (if p in out.bailed then {} else {limit})
  {
    ghost var c := cand[..];
    var top :| 0 <= top < cand.Length && cand[top] == limit;
    if mode.Blocking? {
      LastRound(tables, start[..], c, lo, limit);
      out := BlockingOutOfIds(used, cand, limit, tables);
    } else {
      NobodyHasCandidate(tables, start[..], c, limit);
      out := NonBlockingOutOfIds(used, cand, limit, tables);
    }
  }

  /** The starts after a refused maximum. */
  lemma StartsAfter(mode: Mode, tables: seq<set<nat>>, before: seq<nat>, cand: seq<nat>, start: seq<nat>, lo: nat,
                    limit: nat, m: nat, next: nat)
    requires next == m + 1 && |tables| == |before| == |cand| == |start| > 0 && m < limit && m in cand
    requires StartsOk(mode, tables, before, lo, limit) && Scanned(tables, before, cand, limit)
    requires forall p :: 0 <= p < |cand| ==> cand[p] <= m
    requires StartsBelowFree(tables, start, limit) && !CommonFree(Sets(tables), m)
    requires forall p :: 0 <= p < |start| && m in tables[p] ==> start[p] == RetryStart(mode, before[p], m)
    requires mode.Blocking? ==> forall p :: 0 <= p < |start| ==> start[p] == m + 1
    ensures StartsOk(mode, tables, start, next, limit)
  {
    if mode.Blocking? {
      RoundEnds(tables, before, cand, lo, limit, m);
    } else {
      var p :| 0 <= p < |tables| && m in tables[p];
      assert start[p] <= cand[p] < limit && cand[p] !in tables[p];
      assert !NoneFree(tables[p], start[p], limit);
    }
  }

  lemma FirstStarts(mode: Mode, tables: seq<set<nat>>, start: seq<nat>, limit: nat)
    requires |tables| == |start| > 0
    requires forall p :: 0 <= p < |start| ==> forall i :: 0 <= i < start[p] ==> i in tables[p]
    ensures StartsOk(mode, tables, start, 0, limit)
  {
    forall p, g: nat | 0 <= p < |start| && g < limit && CommonFree(Sets(tables), g)
      ensures start[p] <= g
    {
      assert g !in tables[p];
    }
  }

  /** The second half of a round, and where it leaves the starts. */
  method Decide(mode: Mode, used: array<set<nat>>, start: array<nat>, cand: array<nat>, limit: nat, nextcid: nat,
                ghost tables: seq<set<nat>>, ghost lo: nat)
    returns (accepted: bool, ghost next: nat)
    requires used.Length == start.Length == cand.Length == |tables| > 0 && nextcid < limit
    requires StartsOk(mode, tables, start[..], lo, limit) && Scanned(tables, start[..], cand[..], limit)
    requires nextcid in cand[..] && forall p :: 0 <= p < cand.Length ==> cand[p] <= nextcid
    requires forall p :: 0 <= p < used.Length ==> used[p] == tables[p] + {cand[p]} && cand[p] !in tables[p]
    requires forall g: nat :: g < limit && CommonFree(Sets(tables), g) ==> nextcid <= g
    modifies used, start
    ensures accepted <==> CommonFree(Sets(tables), nextcid)
    ensures accepted ==> forall p :: 0 <= p < used.Length ==> used[p] == tables[p] + {nextcid}
    ensures next == nextcid + 1
    ensures !accepted ==> used[..] == tables && StartsOk(mode, tables, start[..], next, limit)
    ensures !accepted ==> forall p :: 0 <= p < used.Length && cand[p] == nextcid ==> start[p] == next
  {
    ghost var before, c := start[..], cand[..];
    next := nextcid + 1;
    accepted := Settle(mode, used, start, cand, limit, nextcid, tables);
    if !accepted {
      StartsAfter(mode, tables, before, c, start[..], lo, limit, nextcid, next);
    }
  }

  /** What a call has done when it is over. */
  ghost predicate Over(mode: Mode, tables: seq<set<nat>>, limit: nat, out: Outcome, used: seq<set<nat>>)
    requires |tables| == |used| > 0
  {
    && ((out.Committed? && out.id < limit) <==> exists g: nat :: g < limit && CommonFree(Sets(tables), g))
    && (out.Committed? && out.id < limit ==> IsLeastCommonFree(Sets(tables), out.id))
    && (out.Committed? ==> forall p :: 0 <= p < |used| ==> used[p] == tables[p] + {out.id})
    && (out.Committed? && out.id >= limit ==> mode.Blocking? && out.id == limit)
    && (out.Split? ==> exists p: nat :: p < |used| && p in out.bailed)
    && (out.Split? && mode.Blocking? ==> used == tables && exists p: nat :: p < |used| && p !in out.bailed)
    && (out.Split? && mode.NonBlocking? ==>
          forall p :: 0 <= p < |used| ==> used[p] == tables[p] + (if p in out.bailed then {} else {limit}))
    && (!(exists g: nat :: g < limit && CommonFree(Sets(tables), g)) ==> OutOfIds(mode, tables, limit, out))
  }

  /** One round.  `top` is a process that starts at `low` or later. */
  method Turn(mode: Mode, used: array<set<nat>>, start: array<nat>, limit: nat, ghost tables: seq<set<nat>>,
              ghost low: nat, ghost top: nat)
    returns (over: bool, out: Outcome, ghost low': nat, ghost top': nat)
    requires used.Length == start.Length == |tables| > 0 && used[..] == tables && top < start.Length
             && low <= start[top]
    requires StartsOk(mode, tables, start[..], low, limit)
    modifies used, start
    ensures over ==> Over(mode, tables, limit, out, used[..])
    ensures !over ==> used[..] == tables && StartsOk(mode, tables, start[..], low', limit)
    ensures !over ==> low < low' <= limit && top' < start.Length && low' <= start[top']
  {
    var cand, nextcid := Propose(used, start, limit, tables);
    over, out, low', top' := true, Committed(nextcid), low, top;
    if nextcid == limit {
      out := LastTurn(mode, used, start, cand, limit, tables, low);
    } else {
      assert low <= start[top] <= nextcid;
      top' :| 0 <= top' < start.Length && cand[top'] == nextcid;
      over, low' := Decide(mode, used, start, cand, limit, nextcid, tables, low);
    }
  }

  /** The whole call.  `used[p]` are the ids process `p` has in use; `lowest[p]` is the
      `lowest_free` of its table.  The group commits an id below the limit if and only if one was
      free everywhere, and then it is the least such id. */
  method NextCid(mode: Mode, used: array<set<nat>>, lowest: seq<nat>, limit: nat) returns (out: Outcome)
    requires used.Length > 0 && |lowest| == used.Length
    requires forall p :: 0 <= p < used.Length ==> lowest[p] !in used[p] && forall i :: 0 <= i < lowest[p] ==> i in used[p]
    modifies used
    ensures (out.Committed? && out.id < limit) <==> exists g: nat :: g < limit && CommonFree(Sets(old(used[..])), g)
    ensures out.Committed? && out.id < limit ==> IsLeastCommonFree(Sets(old(used[..])), out.id)
    ensures out.Committed? ==> forall p :: 0 <= p < used.Length ==> used[p] == old(used[p]) + {out.id}
    ensures out.Committed? && out.id >= limit ==> mode.Blocking? && out.id == limit
    ensures out.Split? ==> exists p: nat :: p < used.Length && p in out.bailed
    ensures out.Split? && mode.Blocking? ==>
              used[..] == old(used[..]) && exists p: nat :: p < used.Length && p !in out.bailed
    ensures out.Split? && mode.NonBlocking? ==>
              forall p :: 0 <= p < used.Length ==> used[p] == old(used[p]) + (if p in out.bailed then {} else {limit})
    ensures !(exists g: nat :: g < limit && CommonFree(Sets(old(used[..])), g)) ==>
              OutOfIds(mode, old(used[..]), limit, out)
  {
    var n := used.Length;
    var start := new nat[n](p requires 0 <= p < |lowest| => lowest[p]);
    ghost var tables := used[..];
    ghost var low: nat, top: nat := 0, 0;
    FirstStarts(mode, tables, start[..], limit);
    while true
      invariant fresh(start) && start.Length == n && used[..] == tables
      invariant low <= limit && top < n && low <= start[top]
      invariant StartsOk(mode, tables, start[..], low, limit)
      decreases limit - low
    {
      var over;
      over, out, low, top := Turn(mode, used, start, limit, tables, low, top);
      if over {
        return;
      }
    }
  }

  // ---------------------------------------------------------------------------
  // Both ends of the blocking call
  // ---------------------------------------------------------------------------

  lemma FirstRange(a: set<nat>, b: set<nat>, limit: nat)
    requires limit >= 2 && a * {0, 1} == {1} && b * {0, 1} == {0}
    ensures LastStart([a, b], 0, limit) == LastStart([a, b], 2, limit)
  {
    var tables := [a, b];
    assert 0 !in a && 1 !in b && 0 in b by {
      assert 0 !in a * {0, 1} && 1 !in b * {0, 1} && 0 in b * {0, 1};
    }
    assert !AllHave(tables, 0, 0) by { assert NoneFree(tables[0], 0, 0); }
    assert !AllHave(tables, 0, 1) by { assert NoneFree(tables[1], 0, 1); }
    assert !NoneFree(tables[0], 0, 2) && !NoneFree(tables[1], 0, 2) && !NoneFree(tables[0], 0, limit)
           && !NoneFree(tables[1], 0, limit) by {
      assert 0 !in tables[0] && 1 !in tables[1];
    }
    LeastEndIs(tables, 0, 0, limit, 2);
  }

  /** Two processes, each with one free id of its own: everybody returns the limit. */
  method EndsAlike() returns (out: Outcome)
    ensures out == Committed(2)
  {
    var used := new set<nat>[2];
    used[0], used[1] := {1}, {0};
    FirstRange({1}, {0}, 2);
    assert used[..] == [{1}, {0}];
    assert !CommonFree(Sets(used[..]), 0) && !CommonFree(Sets(used[..]), 1);
    out := NextCid(Blocking, used, [0, 1], 2);
  }

  /** One of them has another free id behind: it returns the error, and the other one waits. */
  method EndsSplit() returns (out: Outcome)
    ensures out.Split?
  {
    var used := new set<nat>[2];
    used[0], used[1] := {1, 2}, {0};
    FirstRange({1, 2}, {0}, 3);
    assert used[..] == [{1, 2}, {0}];
    assert !CommonFree(Sets(used[..]), 0) && !CommonFree(Sets(used[..]), 1) && !CommonFree(Sets(used[..]), 2);
    assert NoneFree(used[..][0], 2, 3) && !NoneFree(used[..][1], 2, 3) by {
      assert 2 !in used[..][1];
    }
    out := NextCid(Blocking, used, [0, 1], 3);
  }
}
