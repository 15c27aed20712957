/** The sorted registration lists of the context-id calls (ompi/communicator/comm_cid.c): each process keeps
    one, and in a build without thread support it may hold an id more than once. */
module CidLists {
  import opened CidProtocol

  ghost predicate AtLeast(low: nat, cids: seq<nat>) {
    cids == [] || (low <= cids[0] && AtLeast(low, cids[1..]))
  }

  lemma {:induction false} AtLeastLess(low: nat, high: nat, cids: seq<nat>)
    requires low <= high && AtLeast(high, cids)
    ensures AtLeast(low, cids)
  {
    if cids != [] {
      AtLeastLess(low, high, cids[1..]);
    }
  }

  ghost predicate Sorted(cids: seq<nat>) {
    cids == [] || (AtLeast(cids[0], cids[1..]) && Sorted(cids[1..]))
  }

  function Count(cids: seq<nat>, x: nat): (n: nat) {
    if cids == [] then 0 else (if cids[0] == x then 1 else 0) + Count(cids[1..], x)
  }

  lemma {:induction false} InsertAtLeast(cids: seq<nat>, cid: nat, low: nat)
    requires AtLeast(low, cids) && low <= cid
    ensures AtLeast(low, InsertSorted(cids, cid))
  {
    if cids == [] {
    } else if cids[0] > cid {
      assert ([cid] + cids)[1..] == cids;
    } else {
      var r := InsertSorted(cids[1..], cid);
      assert ([cids[0]] + r)[1..] == r;
      InsertAtLeast(cids[1..], cid, low);
    }
  }

  /** One more entry, in order, even if the id is on the list already. */
  lemma {:induction false} InsertSortedOk(cids: seq<nat>, cid: nat, x: nat)
    requires Sorted(cids)
    ensures Sorted(InsertSorted(cids, cid))
    ensures Count(InsertSorted(cids, cid), x) == Count(cids, x) + (if x == cid then 1 else 0)
  {
    if cids == [] {
    } else if cids[0] > cid {
      assert ([cid] + cids)[1..] == cids;
      AtLeastLess(cid, cids[0], cids[1..]);
    } else {
      var r := InsertSorted(cids[1..], cid);
      assert ([cids[0]] + r)[1..] == r;
      InsertSortedOk(cids[1..], cid, x);
      InsertAtLeast(cids[1..], cid, cids[0]);
    }
  }

  lemma {:induction false} RemoveAtLeast(cids: seq<nat>, cid: nat, low: nat)
    requires AtLeast(low, cids)
    ensures AtLeast(low, RemoveFirst(cids, cid))
  {
    if cids != [] && cids[0] != cid {
      var r := RemoveFirst(cids[1..], cid);
      assert ([cids[0]] + r)[1..] == r;
      RemoveAtLeast(cids[1..], cid, low);
    }
  }

  /** One entry less, if there is one. */
  lemma {:induction false} RemoveFirstOk(cids: seq<nat>, cid: nat, x: nat)
    requires Sorted(cids)
    ensures Sorted(RemoveFirst(cids, cid))
    ensures Count(RemoveFirst(cids, cid), x) == Count(cids, x) - (if x == cid && Count(cids, x) > 0 then 1 else 0)
  {
    if cids != [] && cids[0] != cid {
      var r := RemoveFirst(cids[1..], cid);
      assert ([cids[0]] + r)[1..] == r;
      RemoveFirstOk(cids[1..], cid, x);
      RemoveAtLeast(cids[1..], cid, cids[0]);
    }
  }
}
