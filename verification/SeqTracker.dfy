/** The tracker of sequence numbers already seen (ompi/class/ompi_seq_tracker.c): a set of 32-bit
    numbers kept as an ordered list of maximal ranges, searched from a moving cursor. */
module SeqTracker {

  const MAX: int := 0xFFFF_FFFF

  /** The value of an unsigned 32-bit expression. */
  function Wrap(x: int): (r: int) { x % 0x1_0000_0000 }

  predicate IsId(x: int) { 0 <= x <= MAX }

  datatype Range = Range(low: int, high: int)

  ghost predicate In(rs: seq<Range>, x: int) {
    exists i {:trigger rs[i]} :: 0 <= i < |rs| && rs[i].low <= x <= rs[i].high
  }

  /** Sorted, disjoint and not even adjacent. */
  ghost predicate Maximal(rs: seq<Range>) {
    && (forall i :: 0 <= i < |rs| ==> 0 <= rs[i].low <= rs[i].high <= MAX)
    && (forall i, j :: 0 <= i < j < |rs| ==> rs[i].high + 1 < rs[j].low)
  }

  lemma InConcat(a: seq<Range>, b: seq<Range>, x: int)
    ensures In(a + b, x) <==> In(a, x) || In(b, x)
  {
    var c := a + b;
    if In(a, x) {
      var i :| 0 <= i < |a| && a[i].low <= x <= a[i].high;
      assert c[i] == a[i];
    }
    if In(b, x) {
      var i :| 0 <= i < |b| && b[i].low <= x <= b[i].high;
      assert c[|a| + i] == b[i];
    }
  }

  /** Every element of `a` lies well below every element of `b`. */
  predicate Apart(a: seq<Range>, b: seq<Range>) {
    a != [] && b != [] ==> a[|a| - 1].high + 1 < b[0].low
  }

  lemma MaximalConcat(a: seq<Range>, b: seq<Range>)
    ensures Maximal(a + b) <==> Maximal(a) && Maximal(b) && Apart(a, b)
  {
    if Maximal(a) && Maximal(b) && Apart(a, b) {
      MaximalGlue(a, b);
    }
    if Maximal(a + b) {
      MaximalSplit(a, b);
    }
  }

  lemma MaximalSplit(a: seq<Range>, b: seq<Range>)
    requires Maximal(a + b)
    ensures Maximal(a) && Maximal(b) && Apart(a, b)
  {
    var c := a + b;
    assert forall i :: 0 <= i < |a| ==> a[i] == c[i];
    assert forall i :: 0 <= i < |b| ==> b[i] == c[|a| + i];
  }

  lemma MaximalGlue(a: seq<Range>, b: seq<Range>)
    requires Maximal(a) && Maximal(b) && Apart(a, b)
    ensures Maximal(a + b)
  {
    var c := a + b;
    forall i, j | 0 <= i < j < |c|
      ensures c[i].high + 1 < c[j].low
    {
      if i < |a| <= j {
        assert i == |a| - 1 || a[i].high + 1 < a[|a| - 1].low <= a[|a| - 1].high;
        assert j == |a| || b[0].low <= b[0].high < b[j - |a|].low;
      }
    }
  }

  /** The list is determined by the set it stands for. */
  lemma {:induction false} MaximalIsUnique(a: seq<Range>, b: seq<Range>)
    requires Maximal(a) && Maximal(b) && forall x :: In(a, x) <==> In(b, x)
    ensures a == b
  {
    if a == [] {
      if b != [] {
        assert In(b, b[0].low);
      }
    } else {
      FirstRange(a, b);
      FirstRange(b, a);
      TailsAgree(a, b);
      assert a == [a[0]] + a[1..] && b == [b[0]] + b[1..];
      MaximalConcat([a[0]], a[1..]);
      MaximalConcat([b[0]], b[1..]);
      MaximalIsUnique(a[1..], b[1..]);
    }
  }

  lemma FirstRange(a: seq<Range>, b: seq<Range>)
    requires a != [] && Maximal(a) && Maximal(b) && forall x :: In(a, x) <==> In(b, x)
    ensures b != [] && b[0].low <= a[0].low && (b[0].low == a[0].low ==> b[0].high >= a[0].high)
  {
    assert In(a, a[0].low) && In(b, a[0].low);
    assert b[0].low <= b[0].high;
    var next := b[0].high + 1;
    assert !In(b, next);
    assert a[0].low <= next <= a[0].high ==> In(a, next);
  }

  lemma TailsAgree(a: seq<Range>, b: seq<Range>)
    requires a != [] && b != [] && a[0] == b[0] && Maximal(a) && Maximal(b) && forall x :: In(a, x) <==> In(b, x)
    ensures forall x :: In(a[1..], x) <==> In(b[1..], x)
  {
    forall x
      ensures In(a[1..], x) <==> In(b[1..], x)
    {
      InTail(a, x);
      InTail(b, x);
      assert In(a, x) <==> In(b, x);
    }
  }

  lemma InTail(a: seq<Range>, x: int)
    requires a != [] && Maximal(a)
    ensures In(a[1..], x) <==> In(a, x) && x > a[0].high
  {
    if In(a, x) && x > a[0].high {
      var i :| 0 <= i < |a| && a[i].low <= x <= a[i].high;
      assert a[i] == a[1..][i - 1];
    }
  }

  // ---------------------------------------------------------------------------
  // Changes to the list
  // ---------------------------------------------------------------------------

  /** `after` stands for the set of `before` with `id` added, and is again a list of maximal ranges. */
  ghost predicate Added(before: seq<Range>, id: int, after: seq<Range>) {
    Maximal(after) && forall x :: In(after, x) <==> In(before, x) || x == id
  }

  /** The ranges `mid` are replaced by ranges that stand for `id` besides. */
  lemma Replaced(a: seq<Range>, mid: seq<Range>, c: seq<Range>, mid': seq<Range>, id: int)
    requires Maximal(a + mid + c) && Added(mid, id, mid')
    requires Apart(a, mid') && Apart(mid', c) && mid' != []
    ensures Added(a + mid + c, id, a + mid' + c)
  {
    Around(a, mid, c);
    MaximalConcat(a, mid');
    MaximalConcat(a + mid', c);
    forall x
      ensures In(a + mid' + c, x) <==> In(a + mid + c, x) || x == id
    {
      InThree(a, mid, c, x);
      InThree(a, mid', c, x);
    }
  }

  lemma InThree(a: seq<Range>, b: seq<Range>, c: seq<Range>, x: int)
    ensures In(a + b + c, x) <==> In(a, x) || In(b, x) || In(c, x)
  {
    InConcat(a + b, c, x);
    InConcat(a, b, x);
  }

  lemma Around(a: seq<Range>, b: seq<Range>, c: seq<Range>)
    requires Maximal(a + b + c)
    ensures Maximal(a) && Maximal(c)
  {
    MaximalConcat(a + b, c);
    MaximalConcat(a, b);
  }

  lemma InOne(r: Range, x: int)
    ensures In([r], x) <==> r.low <= x <= r.high
  {
    assert [r][0] == r;
  }

  /** A number that touches no range gets one of its own. */
  lemma NewRange(rs: seq<Range>, p: int, id: int)
    requires Maximal(rs) && IsId(id) && 0 <= p <= |rs|
    requires p > 0 ==> rs[p - 1].high + 1 < id
    requires p < |rs| ==> id + 1 < rs[p].low
    ensures Added(rs, id, rs[..p] + [Range(id, id)] + rs[p..])
  {
    assert rs == rs[..p] + rs[p..];
    ApartAround(rs, p, Range(id, id));
    Between(rs[..p], rs[p..], id);
  }

  lemma ApartAround(rs: seq<Range>, p: nat, r: Range)
    requires p <= |rs| && (p > 0 ==> rs[p - 1].high + 1 < r.low) && (p < |rs| ==> r.high + 1 < rs[p].low)
    ensures Apart(rs[..p], [r]) && Apart([r], rs[p..])
  {
  }

  lemma Between(a: seq<Range>, c: seq<Range>, id: int)
    requires Maximal(a + c) && IsId(id) && Apart(a, [Range(id, id)]) && Apart([Range(id, id)], c)
    ensures Added(a + c, id, a + [Range(id, id)] + c)
  {
    assert a + [] + c == a + c;
    Alone(id);
    Replaced(a, [], c, [Range(id, id)], id);
  }

  lemma Alone(id: int)
    requires IsId(id)
    ensures Added([], id, [Range(id, id)])
  {
    forall x
      ensures In([Range(id, id)], x) <==> In([], x) || x == id
    {
      InOne(Range(id, id), x);
    }
  }

  /** A number next to one range extends it. */
  lemma Extended(rs: seq<Range>, i: int, id: int)
    requires Maximal(rs) && IsId(id) && 0 <= i < |rs| && (id == rs[i].high + 1 || id == rs[i].low - 1)
    requires i > 0 ==> rs[i - 1].high + 1 < id
    requires i + 1 < |rs| ==> id + 1 < rs[i + 1].low
    ensures var r := if id < rs[i].low then Range(id, rs[i].high) else Range(rs[i].low, id);
            Added(rs, id, rs[..i] + [r] + rs[i + 1..])
  {
    var r := if id < rs[i].low then Range(id, rs[i].high) else Range(rs[i].low, id);
    assert rs == rs[..i] + [rs[i]] + rs[i + 1..];
    forall x
      ensures In([r], x) <==> In([rs[i]], x) || x == id
    {
      InOne(r, x);
      InOne(rs[i], x);
    }
    Replaced(rs[..i], [rs[i]], rs[i + 1..], [r], id);
  }

  /** A number that fills the gap between two ranges joins them. */
  lemma Joined(rs: seq<Range>, i: int, id: int)
    requires Maximal(rs) && 0 <= i < |rs| - 1 && rs[i].high + 1 == id == rs[i + 1].low - 1
    ensures Added(rs, id, rs[..i] + [Range(rs[i].low, rs[i + 1].high)] + rs[i + 2..])
  {
    var r := Range(rs[i].low, rs[i + 1].high);
    var mid := [rs[i]] + [rs[i + 1]];
    assert rs == rs[..i] + mid + rs[i + 2..];
    forall x
      ensures In([r], x) <==> In(mid, x) || x == id
    {
      InOne(r, x);
      InOne(rs[i], x);
      InOne(rs[i + 1], x);
      InConcat([rs[i]], [rs[i + 1]], x);
    }
    Replaced(rs[..i], mid, rs[i + 2..], [r], id);
  }

  // ---------------------------------------------------------------------------
  // The tracker
  // ---------------------------------------------------------------------------

  /** The two insertions that go wrong, because one of the neighbour tests wraps around: they turn the
      range under the cursor upside down. */
  ghost predicate Overturns(r: Range, id: int) {
    (id == 0 && r.high == MAX && r.low > 0) || (id == MAX && r.low == 0 && r.high < MAX - 1)
  }

  /** What follows from not having found `id` at the cursor: the search goes in one direction, and
      the ranges it has passed do not even touch `id`. */
  ghost predicate Searching(rs: seq<Range>, cur: int, id: int, item: int, direction: int) {
    && -1 <= item <= |rs| && 0 <= cur <= |rs|
    && (direction == 0 ==> item == cur)
    && (direction == 1 ==> 0 < item && rs[item - 1].high + 1 < id)
    && (direction == -1 ==> item < |rs| - 1 && id + 1 < rs[item + 1].low)
    && direction in {-1, 0, 1}
  }

  /** The insertion starts at a cursor where a test wraps around. */
  ghost predicate Wraps(rs: seq<Range>, cur: int, id: int) {
    0 <= cur < |rs| && Overturns(rs[cur], id)
  }

  /** Away from the cursor no test wraps around. */
  lemma OnlyAtCursor(rs: seq<Range>, cur: int, id: int, item: int, direction: int)
    requires Maximal(rs) && IsId(id) && Searching(rs, cur, id, item, direction) && 0 <= item < |rs| && 0 <= cur < |rs|
    requires direction != 0 ==> !Wraps(rs, cur, id)
    ensures Overturns(rs[item], id) <==> Wraps(rs, cur, id)
    ensures direction == 1 && id < rs[item].low && Wrap(rs[item].low - 1) != id ==> id + 1 < rs[item].low
    ensures direction == -1 && id > rs[item].high && Wrap(rs[item].high + 1) != id ==> rs[item].high + 1 < id
  {
  }

  /** One step further. */
  lemma SearchStep(rs: seq<Range>, cur: int, id: int, item: int, direction: int)
    requires Maximal(rs) && IsId(id) && Searching(rs, cur, id, item, direction) && 0 <= item < |rs| && 0 <= cur < |rs|
    requires direction != 0 ==> !Wraps(rs, cur, id)
    requires Wrap(rs[item].high + 1) != id && Wrap(rs[item].low - 1) != id
    ensures !Wraps(rs, cur, id)
    ensures id > rs[item].high && direction != -1 ==> Searching(rs, cur, id, item + 1, 1)
    ensures id < rs[item].low && direction != 1 ==> Searching(rs, cur, id, item - 1, -1)
  {
  }

  /** With every number but 0 present, inserting 0 empties the list instead of completing it. */
  lemma ZeroAfterTop()
    ensures Maximal([Range(1, MAX)]) && Wraps([Range(1, MAX)], 0, 0) && Added([Range(1, MAX)], 0, [Range(0, MAX)])
    ensures !In([Range(1, 0)], 0) && !In([Range(1, 0)], MAX)
  {
    var rs := [Range(1, MAX)];
    Extended(rs, 0, 0);
    assert rs[..0] + [Range(0, MAX)] + rs[1..] == [Range(0, MAX)];
  }

  /** A number between two neighbouring ranges, or beyond all of them, is in none. */
  lemma NotBetween(rs: seq<Range>, i: int, id: int)
    requires Maximal(rs) && 0 <= i <= |rs| && (i > 0 ==> rs[i - 1].high < id) && (i < |rs| ==> id < rs[i].low)
    ensures !In(rs, id)
  {
  }

  /** The search goes in one direction, and the ranges it has passed do not hold `id`. */
  ghost predicate Looking(rs: seq<Range>, cur: int, id: int, item: int, direction: int) {
    && -1 <= item <= |rs| && 0 <= cur <= |rs| && direction in {-1, 0, 1}
    && (direction == 0 ==> item == cur)
    && (direction == 1 ==> 0 < item && rs[item - 1].high < id)
    && (direction == -1 ==> item < |rs| - 1 && id < rs[item + 1].low)
  }

  lemma NotFound(rs: seq<Range>, cur: int, id: int, item: int, direction: int)
    requires Maximal(rs) && Looking(rs, cur, id, item, direction)
    requires 0 <= item < |rs| ==> (id > rs[item].high && direction == -1) || (id < rs[item].low && direction == 1)
    requires direction == 0 ==> rs == []
    ensures !In(rs, id)
  {
    NotBetween(rs, if direction == -1 then item + 1 else item, id);
  }

  class Tracker {
    var ranges: seq<Range>
    /** The index of the range last looked at; the end of the list stands for the sentinel. */
    var cur: int

    ghost predicate Valid()
      reads this
    {
      Maximal(ranges) && (if ranges == [] then cur == 0 else 0 <= cur < |ranges|)
    }

    /** The cursor is on the range that holds `id`. */
    ghost predicate AtCursor(id: int)
      reads this
    {
      0 <= cur < |ranges| && ranges[cur].low <= id <= ranges[cur].high
    }

    constructor ()
      ensures Valid() && forall x :: !In(ranges, x)
    {
      ranges, cur := [], 0;
    }

    /** ompi_seq_tracker_check_duplicate: membership, from any position of the cursor. */
    method CheckDuplicate(id: int) returns (duplicate: bool)
      requires Valid() && IsId(id)
      modifies `cur
      ensures Valid() && (duplicate <==> In(ranges, id))
      ensures if duplicate then AtCursor(id) else cur == old(cur)
    {
      var item, direction := cur, 0;
      while true
        invariant cur == old(cur) && Looking(ranges, cur, id, item, direction)
        decreases if direction == 0 then |ranges| + 2 else if direction == 1 then |ranges| - item else item + 1
      {
        if item == -1 || item == |ranges| {
          NotFound(ranges, cur, id, item, direction);
          return false;
        } else if ranges[item].high >= id && ranges[item].low <= id {
          cur := item;
          return true;
        } else if id > ranges[item].high && direction != -1 {
          direction, item := 1, item + 1;
        } else if id < ranges[item].low && direction != 1 {
          direction, item := -1, item - 1;
        } else {
          NotFound(ranges, cur, id, item, direction);
          return false;
        }
      }
    }

    /** ompi_seq_tracker_insert: adds the number to the set, unless a test at the cursor wraps around. */
    method Insert(id: int)
      requires Valid() && IsId(id)
      modifies this
      ensures Added(old(ranges), id, ranges) && Valid() && AtCursor(id) <==> !old(Wraps(ranges, cur, id))
    {
      var item, direction := cur, 0;
      while true
        invariant ranges == old(ranges) && cur == old(cur)
        invariant Searching(ranges, cur, id, item, direction)
        invariant direction != 0 ==> 0 <= cur < |ranges| && !Wraps(ranges, cur, id)
        decreases if direction == 0 then |ranges| + 2 else if direction == 1 then |ranges| - item else item + 1
      {
        if item == -1 || item == |ranges| {
          InsertAtEnd(item, direction, id);
          return;
        }
        var done := InsertHere(item, direction, id);
        if done {
          return;
        }
        SearchStep(ranges, cur, id, item, direction);
        if id > ranges[item].high {
          direction, item := 1, item + 1;
        } else {
          direction, item := -1, item - 1;
        }
      }
    }

    /** The search has run past one end of the list, or the list is empty. */
    method InsertAtEnd(item: int, direction: int, id: int)
      requires Valid() && IsId(id) && Searching(ranges, cur, id, item, direction) && (item == -1 || item == |ranges|)
      requires direction != 0 ==> 0 <= cur < |ranges| && !Wraps(ranges, cur, id)
      modifies this
      ensures Added(old(ranges), id, ranges) && Valid() && AtCursor(id) && !old(Wraps(ranges, cur, id))
    {
      if direction == -1 {
        AddRange(0, id);
      } else {
        AddRange(|ranges|, id);
      }
    }

    /** The cases in which the search ends at `item`. */
    method InsertHere(item: int, direction: int, id: int) returns (done: bool)
      requires Valid() && IsId(id) && Searching(ranges, cur, id, item, direction) && 0 <= item < |ranges|
      requires direction != 0 ==> !Wraps(ranges, cur, id)
      modifies this
      ensures done ==> (Added(old(ranges), id, ranges) && Valid() && AtCursor(id) <==> !old(Wraps(ranges, cur, id)))
      ensures !done ==> unchanged(this) && Wrap(ranges[item].high + 1) != id && Wrap(ranges[item].low - 1) != id
      ensures !done ==> (id > ranges[item].high && direction != -1) || (id < ranges[item].low && direction != 1)
    {
      OnlyAtCursor(ranges, cur, id, item, direction);
      done := true;
      if ranges[item].high >= id && ranges[item].low <= id {
        cur := item;
      } else if Wrap(ranges[item].high + 1) == id {
        ExtendUp(item, id);
      } else if Wrap(ranges[item].low - 1) == id {
        ExtendDown(item, id);
      } else if id > ranges[item].high && direction == -1 {
        AddRange(item + 1, id);
      } else if id < ranges[item].low && direction == 1 {
        AddRange(item, id);
      } else {
        done := false;
      }
    }

    /** A new range before position `p`, and the cursor on it. */
    method AddRange(p: int, id: int)
      requires Maximal(ranges) && IsId(id) && 0 <= p <= |ranges|
      requires p > 0 ==> ranges[p - 1].high + 1 < id
      requires p < |ranges| ==> id + 1 < ranges[p].low
      modifies this
      ensures Valid() && Added(old(ranges), id, ranges) && cur == p < |ranges| && ranges[p] == Range(id, id)
    {
      NewRange(ranges, p, id);
      ranges := ranges[..p] + [Range(id, id)] + ranges[p..];
      cur := p;
      assert ranges[p] == Range(id, id);
    }

    /** The range seems to end just below `id`. */
    method ExtendUp(item: int, id: int)
      requires Maximal(ranges) && IsId(id) && 0 <= item < |ranges| && Wrap(ranges[item].high + 1) == id
      requires !(ranges[item].low <= id <= ranges[item].high)
      modifies this
      ensures Added(old(ranges), id, ranges) && Valid() && AtCursor(id) <==> !Overturns(old(ranges)[item], id)
    {
      var r := ranges[item];
      if item + 1 < |ranges| && ranges[item + 1].low == Wrap(id + 1) {
        Joined(ranges, item, id);
        ranges := ranges[..item] + [Range(r.low, ranges[item + 1].high)] + ranges[item + 2..];
      } else {
        if r.high < MAX {
          Extended(ranges, item, id);
        }
        ranges := ranges[..item] + [Range(r.low, id)] + ranges[item + 1..];
        assert ranges[item] == Range(r.low, id);
      }
      cur := item;
    }

    /** The range seems to begin just above `id`. */
    method ExtendDown(item: int, id: int)
      requires Maximal(ranges) && IsId(id) && 0 <= item < |ranges| && Wrap(ranges[item].low - 1) == id
      requires !(ranges[item].low <= id <= ranges[item].high) && Wrap(ranges[item].high + 1) != id
      modifies this
      ensures Added(old(ranges), id, ranges) && Valid() && AtCursor(id) <==> !Overturns(old(ranges)[item], id)
    {
      var r := ranges[item];
      if item > 0 && ranges[item - 1].high == Wrap(id - 1) {
        var p := item - 1;
        Joined(ranges, p, id);
        ranges := ranges[..p] + [Range(ranges[p].low, ranges[p + 1].high)] + ranges[p + 2..];
        cur := p;
      } else {
        if r.low > 0 {
          Extended(ranges, item, id);
        }
        ranges := ranges[..item] + [Range(id, r.high)] + ranges[item + 1..];
        assert ranges[item] == Range(id, r.high);
        cur := item;
      }
    }

    /** ompi_seq_tracker_copy: appends copies of the ranges of another tracker. */
    method Copy(src: Tracker)
      requires src != this
      modifies this
      ensures ranges == old(ranges) + src.ranges
      ensures cur == if 0 <= src.cur < |src.ranges| then |old(ranges)| + src.cur else old(cur)
      ensures old(Valid()) && src.Valid() && old(ranges) == [] ==> Valid() && ranges == src.ranges && cur == src.cur
    {
      for i := 0 to |src.ranges|
        invariant ranges == old(ranges) + src.ranges[..i]
        invariant cur == if 0 <= src.cur < i then |old(ranges)| + src.cur else old(cur)
        modifies this
      {
        ranges := ranges + [src.ranges[i]];
        if src.cur == i {
          cur := |ranges| - 1;
        }
      }
    }
  }
}
