/** Least-significant-digit radix sort (hw6/hw6.c): four counting passes over eight bits each sort
    32-bit integers by their value as unsigned numbers. */
module RadixSort {
  import opened Arithmetic

  const BUCKETS := 256

  function Pow(k: nat): (p: int)
    ensures p >= 1
  {
    if k == 0 then 1 else BUCKETS * Pow(k - 1)
  }

  /** `(x >> 8 * k) & 255`; shifting a negative number rounds down. */
  function Digit(x: int, k: nat): (d: int)
    ensures 0 <= d < BUCKETS
  {
    (x / Pow(k)) % BUCKETS
  }

  /** The value of the lowest `k` digits. */
  function Key(x: int, k: nat): (v: int)
    ensures 0 <= v < Pow(k)
  {
    x % Pow(k)
  }

  lemma KeyStep(x: int, k: nat)
    ensures Key(x, k + 1) == Digit(x, k) * Pow(k) + Key(x, k)
  {
    var p := Pow(k);
    var q, d := x / p, Digit(x, k);
    DivMod(x, p);
    DivMod(q, BUCKETS);
    Regroup(q, q / BUCKETS, BUCKETS, d, p);
    Lexicographic(d, Key(x, k), BUCKETS, 0, p);
    ProductSign(d, p);
    DivisionIsUnique(x, BUCKETS * p, q / BUCKETS, d * p + Key(x, k));
  }

  // ---------------------------------------------------------------------------
  // Subsequences
  // ---------------------------------------------------------------------------

  function Keep(s: seq<int>, p: int -> bool): (r: seq<int>)
    ensures |r| <= |s|
  {
    if s == [] then []
    else
      var n := |s| - 1;
      Keep(s[..n], p) + (if p(s[n]) then [s[n]] else [])
  }

  lemma {:induction false} KeepIn(s: seq<int>, p: int -> bool)
    ensures forall x :: x in Keep(s, p) <==> x in s && p(x)
  {
    if s != [] {
      var init, last := s[..|s| - 1], s[|s| - 1];
      KeepIn(init, p);
      assert s == init + [last];
    }
  }

  lemma KeepSnoc(s: seq<int>, x: int, p: int -> bool)
    ensures Keep(s + [x], p) == Keep(s, p) + (if p(x) then [x] else [])
  {
    assert (s + [x])[..|s|] == s;
  }

  lemma Assoc(a: seq<int>, b: seq<int>, c: seq<int>)
    ensures (a + b) + c == a + (b + c)
  {
  }

  lemma {:induction false} KeepConcat(s: seq<int>, t: seq<int>, p: int -> bool)
    ensures Keep(s + t, p) == Keep(s, p) + Keep(t, p)
  {
    if t == [] {
      assert s + t == s;
    } else {
      var init, x := t[..|t| - 1], t[|t| - 1];
      KeepConcat(s, init, p);
      assert s + t == (s + init) + [x] && t == init + [x];
      KeepSnoc(s + init, x, p);
      KeepSnoc(init, x, p);
      Assoc(Keep(s, p), Keep(init, p), if p(x) then [x] else []);
    }
  }

  lemma {:induction false} KeepKeep(s: seq<int>, p: int -> bool, q: int -> bool)
    requires forall x :: q(x) ==> p(x)
    ensures Keep(Keep(s, p), q) == Keep(s, q)
  {
    if s != [] {
      var init, x := s[..|s| - 1], s[|s| - 1];
      KeepKeep(init, p, q);
      assert s == init + [x];
      KeepSnoc(init, x, p);
      KeepSnoc(init, x, q);
      if p(x) {
        KeepSnoc(Keep(init, p), x, q);
      } else {
        assert Keep(s, p) == Keep(init, p);
      }
    }
  }

  lemma {:induction false} KeepNothing(s: seq<int>, p: int -> bool)
    requires forall x :: x in s ==> !p(x)
    ensures Keep(s, p) == []
  {
    if s != [] {
      var init, x := s[..|s| - 1], s[|s| - 1];
      KeepNothing(init, p);
      assert x in s && s == init + [x];
      KeepSnoc(init, x, p);
    }
  }

  lemma {:induction false} KeepSorted(s: seq<int>, p: int -> bool, k: nat)
    requires Sorted(s, k)
    ensures Sorted(Keep(s, p), k)
  {
    if s != [] {
      var n := |s| - 1;
      KeepSorted(s[..n], p, k);
      forall x | x in s[..n]
        ensures Key(x, k) <= Key(s[n], k)
      {
      }
      KeepIn(s[..n], p);
      SortedSnoc(Keep(s[..n], p), s[n], k);
    }
  }

  lemma SortedSnoc(s: seq<int>, x: int, k: nat)
    requires Sorted(s, k) && forall y :: y in s ==> Key(y, k) <= Key(x, k)
    ensures Sorted(s + [x], k)
  {
  }

  function HasDigit(k: nat, d: int): (p: int -> bool) { x => Digit(x, k) == d }

  function HasKey(k: nat, v: int): (p: int -> bool) { x => Key(x, k) == v }

  /** The elements with digit 0, those with digit 1, and so on up to `b`, each group in its order. */
  function Grouped(s: seq<int>, k: nat, b: nat): (r: seq<int>) {
    if b == 0 then [] else Grouped(s, k, b - 1) + Keep(s, HasDigit(k, b - 1))
  }

  // ---------------------------------------------------------------------------
  // What a pass achieves
  // ---------------------------------------------------------------------------

  /** Ordered by the lowest `k` digits. */
  ghost predicate Sorted(s: seq<int>, k: nat) {
    forall i, j :: 0 <= i < j < |s| ==> Key(s[i], k) <= Key(s[j], k)
  }

  /** A permutation that leaves elements with the same key in their order. */
  ghost predicate Stable(before: seq<int>, after: seq<int>, k: nat) {
    forall v {:trigger HasKey(k, v)} :: Keep(after, HasKey(k, v)) == Keep(before, HasKey(k, v))
  }

  lemma {:induction false} GroupedSorted(s: seq<int>, k: nat, b: nat)
    requires Sorted(s, k)
    ensures Sorted(Grouped(s, k, b), k + 1) && forall x :: x in Grouped(s, k, b) ==> Digit(x, k) < b
  {
    if b > 0 {
      var init, group := Grouped(s, k, b - 1), Keep(s, HasDigit(k, b - 1));
      GroupedSorted(s, k, b - 1);
      KeepSorted(s, HasDigit(k, b - 1), k);
      KeepIn(s, HasDigit(k, b - 1));
      GroupSorted(group, k, b - 1);
      GroupsInOrder(init, group, k, b - 1);
      SortedConcat(init, group, k + 1);
      DigitsBelow(init, group, k, b);
    }
  }

  lemma DigitsBelow(init: seq<int>, group: seq<int>, k: nat, b: nat)
    requires b > 0 && (forall x :: x in init ==> Digit(x, k) < b - 1) && forall y :: y in group ==> Digit(y, k) == b - 1
    ensures forall x :: x in init + group ==> Digit(x, k) < b
  {
  }

  lemma GroupsInOrder(init: seq<int>, group: seq<int>, k: nat, d: nat)
    requires (forall x :: x in init ==> Digit(x, k) < d) && forall y :: y in group ==> Digit(y, k) == d
    ensures forall x, y :: x in init && y in group ==> Key(x, k + 1) <= Key(y, k + 1)
  {
    forall x, y | x in init && y in group
      ensures Key(x, k + 1) <= Key(y, k + 1)
    {
      KeyStep(x, k);
      KeyStep(y, k);
      Lexicographic(Digit(x, k), Key(x, k), Digit(y, k), Key(y, k), Pow(k));
    }
  }

  lemma GroupSorted(group: seq<int>, k: nat, d: int)
    requires Sorted(group, k) && forall x :: x in group ==> Digit(x, k) == d
    ensures Sorted(group, k + 1)
  {
    forall i, j | 0 <= i < j < |group|
      ensures Key(group[i], k + 1) <= Key(group[j], k + 1)
    {
      KeyStep(group[i], k);
      KeyStep(group[j], k);
      assert group[i] in group && group[j] in group;
    }
  }

  lemma SortedConcat(s: seq<int>, t: seq<int>, k: nat)
    requires Sorted(s, k) && Sorted(t, k) && forall x, y :: x in s && y in t ==> Key(x, k) <= Key(y, k)
    ensures Sorted(s + t, k)
  {
    forall i, j | 0 <= i < j < |s + t|
      ensures Key((s + t)[i], k) <= Key((s + t)[j], k)
    {
      if i < |s| <= j {
        assert s[i] in s && t[j - |s|] in t;
      }
    }
  }

  /** The element of group `e` that `q` keeps, when it keeps elements of group `d` only. */
  ghost predicate OnlyGroup(s: seq<int>, k: nat, q: int -> bool, d: nat, e: nat) {
    Keep(Keep(s, HasDigit(k, e)), q) == if d == e then Keep(s, q) else []
  }

  /** Elements that are all in group `d` are found there and nowhere else. */
  lemma {:induction false} GroupedKeeps(s: seq<int>, k: nat, b: nat, q: int -> bool, d: nat)
    requires forall e: nat :: e < b ==> OnlyGroup(s, k, q, d, e)
    ensures Keep(Grouped(s, k, b), q) == if d < b then Keep(s, q) else []
  {
    if b > 0 {
      assert OnlyGroup(s, k, q, d, b - 1);
      GroupedKeeps(s, k, b - 1, q, d);
      AddGroup(Grouped(s, k, b - 1), Keep(s, HasDigit(k, b - 1)), Grouped(s, k, b), q, Keep(s, q), d, b - 1);
    }
  }

  lemma AddGroup(g: seq<int>, h: seq<int>, w: seq<int>, q: int -> bool, r: seq<int>, d: nat, e: nat)
    requires w == g + h && Keep(g, q) == (if d < e then r else []) && Keep(h, q) == if d == e then r else []
    ensures Keep(w, q) == if d < e + 1 then r else []
  {
    KeepConcat(g, h, q);
  }

  lemma OneGroupKeeps(s: seq<int>, k: nat, e: nat, q: int -> bool, d: nat)
    requires forall x :: q(x) ==> Digit(x, k) == d
    ensures OnlyGroup(s, k, q, d, e)
  {
    if d == e {
      KeepKeep(s, HasDigit(k, e), q);
    } else {
      KeepIn(s, HasDigit(k, e));
      KeepNothing(Keep(s, HasDigit(k, e)), q);
    }
  }

  lemma DigitOfKey(x: int, k: nat, v: int)
    requires Key(x, k + 1) == v
    ensures Digit(x, k) == v / Pow(k) && Key(x, k) == v % Pow(k)
  {
    KeyStep(x, k);
    DivisionIsUnique(v, Pow(k), Digit(x, k), Key(x, k));
  }

  lemma GroupedStable(s: seq<int>, k: nat)
    ensures Stable(s, Grouped(s, k, BUCKETS), k + 1)
  {
    forall v {:trigger HasKey(k + 1, v)}
      ensures Keep(Grouped(s, k, BUCKETS), HasKey(k + 1, v)) == Keep(s, HasKey(k + 1, v))
    {
      if 0 <= v < Pow(k + 1) {
        forall x | HasKey(k + 1, v)(x)
          ensures Digit(x, k) == v / Pow(k)
        {
          DigitOfKey(x, k, v);
        }
        DivMod(v, Pow(k));
        Lexicographic(v / Pow(k), v % Pow(k), BUCKETS, 0, Pow(k));
        var q, d: nat := HasKey(k + 1, v), v / Pow(k);
        forall e: nat | e < BUCKETS
          ensures OnlyGroup(s, k, q, d, e)
        {
          OneGroupKeeps(s, k, e, q, d);
        }
        GroupedKeeps(s, k, BUCKETS, q, d);
      } else {
        KeepNothing(Grouped(s, k, BUCKETS), HasKey(k + 1, v));
        KeepNothing(s, HasKey(k + 1, v));
      }
    }
  }

  /** What is stable for fewer digits is stable for more. */
  lemma StableForMore(before: seq<int>, after: seq<int>, k: nat)
    requires Stable(before, after, k)
    ensures Stable(before, after, k + 1)
  {
    forall v {:trigger HasKey(k + 1, v)}
      ensures Keep(after, HasKey(k + 1, v)) == Keep(before, HasKey(k + 1, v))
    {
      var w := v % Pow(k);
      forall x | HasKey(k + 1, v)(x)
        ensures HasKey(k, w)(x)
      {
        DigitOfKey(x, k, v);
      }
      KeepKeep(after, HasKey(k, w), HasKey(k + 1, v));
      KeepKeep(before, HasKey(k, w), HasKey(k + 1, v));
    }
  }

  /** One more pass sorts by one more digit. */
  lemma PassSorts(first: seq<int>, s: seq<int>, k: nat)
    requires Sorted(s, k) && Stable(first, s, k)
    ensures var r := Grouped(s, k, BUCKETS); Sorted(r, k + 1) && Stable(first, r, k + 1)
  {
    GroupedSorted(s, k, BUCKETS);
    GroupedStable(s, k);
    StableForMore(first, s, k);
  }

  // ---------------------------------------------------------------------------
  // One pass
  // ---------------------------------------------------------------------------

  /** Where the group of digit `d` begins. */
  function Start(s: seq<int>, k: nat, d: nat): (n: nat) { |Grouped(s, k, d)| }

  function Count(s: seq<int>, k: nat, d: int): (n: nat) { |Keep(s, HasDigit(k, d))| }

  lemma {:induction false} StartsInOrder(s: seq<int>, k: nat, d: nat, e: nat)
    requires d < e
    ensures Start(s, k, d) + Count(s, k, d) <= Start(s, k, e)
    decreases e
  {
    if d < e - 1 {
      StartsInOrder(s, k, d, e - 1);
    }
  }

  lemma {:induction false} GroupedLength(s: seq<int>, k: nat, b: nat)
    requires b <= BUCKETS
    ensures |Grouped(s, k, b)| <= |s|
    ensures b == BUCKETS ==> |Grouped(s, k, b)| == |s|
  {
    if s == [] {
      EmptyGroups(k, b);
    } else {
      var init, x := s[..|s| - 1], s[|s| - 1];
      GroupedLength(init, k, b);
      assert s == init + [x];
      OneMoreGrouped(init, x, k, b);
    }
  }

  lemma {:induction false} EmptyGroups(k: nat, b: nat)
    ensures Grouped([], k, b) == []
  {
    if b > 0 {
      EmptyGroups(k, b - 1);
    }
  }

  lemma {:induction false} OneMoreGrouped(s: seq<int>, x: int, k: nat, b: nat)
    ensures |Grouped(s + [x], k, b)| == |Grouped(s, k, b)| + if Digit(x, k) < b then 1 else 0
  {
    if b > 0 {
      OneMoreGrouped(s, x, k, b - 1);
      KeepSnoc(s, x, HasDigit(k, b - 1));
    }
  }

  /** What of the first `i` elements has been put into the group of digit `d`. */
  ghost predicate Placed(t: seq<int>, s: seq<int>, k: nat, i: nat, d: nat)
    requires i <= |s|
  {
    var group := Keep(s[..i], HasDigit(k, d));
    Start(s, k, d) + |group| <= |t| && t[Start(s, k, d)..Start(s, k, d) + |group|] == group
  }

  lemma CountPrefix(s: seq<int>, k: nat, i: nat, d: int)
    requires i < |s|
    ensures Count(s[..i], k, d) <= Count(s, k, d)
    ensures Count(s[..i + 1], k, d) == Count(s[..i], k, d) + if Digit(s[i], k) == d then 1 else 0
    ensures Digit(s[i], k) == d ==> Count(s[..i], k, d) < Count(s, k, d)
    ensures Keep(s[..i + 1], HasDigit(k, d)) == Keep(s[..i], HasDigit(k, d)) + if Digit(s[i], k) == d then [s[i]] else []
  {
    assert s == s[..i + 1] + s[i + 1..] && s[..i + 1] == s[..i] + [s[i]];
    KeepConcat(s[..i + 1], s[i + 1..], HasDigit(k, d));
    KeepSnoc(s[..i], s[i], HasDigit(k, d));
  }

  /** Writing the next element at its place puts it into its group and leaves the others alone. */
  lemma PlaceNext(t: seq<int>, t': seq<int>, s: seq<int>, k: nat, i: nat, d: nat)
    requires i < |s| && |t'| == |t| >= |s| && d < BUCKETS && Placed(t, s, k, i, d)
    requires var e := Digit(s[i], k); var at := Start(s, k, e) + Count(s[..i], k, e);
             at < |t| && t' == t[at := s[i]]
    ensures Placed(t', s, k, i + 1, d)
  {
    var e := Digit(s[i], k);
    CountPrefix(s, k, i, d);
    CountPrefix(s, k, i, e);
    if e < d {
      StartsInOrder(s, k, e, d);
    } else if d < e {
      StartsInOrder(s, k, d, e);
    }
  }

  /** Full groups one after another are the grouped list. */
  lemma {:induction false} AllPlaced(t: seq<int>, s: seq<int>, k: nat, b: nat)
    requires |t| >= |s| && b <= BUCKETS && forall d :: 0 <= d < b ==> Placed(t, s, k, |s|, d)
    ensures Start(s, k, b) <= |t| && t[..Start(s, k, b)] == Grouped(s, k, b)
  {
    assert s[..|s|] == s;
    if b > 0 {
      AllPlaced(t, s, k, b - 1);
      assert Placed(t, s, k, |s|, b - 1);
    }
  }

  /** The place of the next element is free, and in its own group. */
  lemma PlaceInRange(s: seq<int>, k: nat, i: nat)
    requires i < |s|
    ensures var e := Digit(s[i], k); Start(s, k, e) + Count(s[..i], k, e) < |s|
  {
    var e := Digit(s[i], k);
    CountPrefix(s, k, i, e);
    StartsInOrder(s, k, e, e + 1);
    GroupedLength(s, k, e + 1);
  }

  /** One pass of int_radix_sort. */
  method Pass(list: array<int>, temp: array<int>, n: nat, k: nat)
    requires list != temp && n <= list.Length && n <= temp.Length
    modifies list, temp
    ensures list[..n] == Grouped(old(list[..n]), k, BUCKETS)
    ensures forall i :: n <= i < list.Length ==> list[i] == old(list[i])
  {
    ghost var s := list[..n];
    var cnt := CountDigits(list, n, k);
    var place := Offsets(cnt, s, k);
    MoveAll(list, temp, n, k, place);
    for i := 0 to n
      modifies list
      invariant temp[..n] == Grouped(s, k, BUCKETS)
      invariant list[..i] == temp[..i] && forall j :: n <= j < list.Length ==> list[j] == old(list[j])
    {
      list[i] := temp[i];
    }
  }

  method CountDigits(list: array<int>, n: nat, k: nat) returns (cnt: array<int>)
    requires n <= list.Length
    ensures fresh(cnt) && cnt.Length == BUCKETS && forall d :: 0 <= d < BUCKETS ==> cnt[d] == Count(list[..n], k, d)
  {
    cnt := new int[BUCKETS](_ => 0);
    ghost var s := list[..n];
    for i := 0 to n
      modifies cnt
      invariant forall d :: 0 <= d < BUCKETS ==> cnt[d] == Count(s[..i], k, d)
    {
      forall d | 0 <= d < BUCKETS
        ensures Count(s[..i + 1], k, d) == Count(s[..i], k, d) + if Digit(s[i], k) == d then 1 else 0
      {
        CountPrefix(s, k, i, d);
      }
      cnt[Digit(list[i], k)] := cnt[Digit(list[i], k)] + 1;
    }
    assert s[..n] == s;
  }

  method Offsets(cnt: array<int>, ghost s: seq<int>, k: nat) returns (place: array<int>)
    requires cnt.Length == BUCKETS && forall d :: 0 <= d < BUCKETS ==> cnt[d] == Count(s, k, d)
    ensures fresh(place) && place.Length == BUCKETS && forall d: nat :: d < BUCKETS ==> place[d] == Start(s, k, d)
  {
    place := new int[BUCKETS](_ => 0);
    assert Start(s, k, 0) == 0;
    for i := 1 to BUCKETS
      modifies place
      invariant forall d: nat :: d < i ==> place[d] == Start(s, k, d)
    {
      assert Start(s, k, i) == Start(s, k, i - 1) + Count(s, k, i - 1);
      place[i] := place[i - 1] + cnt[i - 1];
    }
  }

  /** Every entry of the map is the place for the next element of its group. */
  ghost predicate Pointing(m: seq<int>, s: seq<int>, k: nat, i: nat)
    requires i <= |s|
  {
    |m| == BUCKETS && forall d: nat :: d < BUCKETS ==> m[d] == Start(s, k, d) + Count(s[..i], k, d)
  }

  ghost predicate Filled(t: seq<int>, s: seq<int>, k: nat, i: nat)
    requires i <= |s|
  {
    forall d: nat :: d < BUCKETS ==> Placed(t, s, k, i, d)
  }

  lemma MoveStep(t: seq<int>, t': seq<int>, m: seq<int>, m': seq<int>, s: seq<int>, k: nat, i: nat)
    requires i < |s| <= |t| == |t'| && Pointing(m, s, k, i) && Filled(t, s, k, i)
    requires var e := Digit(s[i], k); 0 <= m[e] < |t| && t' == t[m[e] := s[i]] && m' == m[e := m[e] + 1]
    ensures Pointing(m', s, k, i + 1) && Filled(t', s, k, i + 1)
  {
    var next: nat := i + 1;
    forall d: nat | d < BUCKETS
      ensures Placed(t', s, k, next, d)
    {
      PlaceNext(t, t', s, k, i, d);
    }
    forall d: nat | d < BUCKETS
      ensures m'[d] == Start(s, k, d) + Count(s[..i + 1], k, d)
    {
      CountPrefix(s, k, i, d);
    }
  }

  lemma NothingMoved(t: seq<int>, m: seq<int>, s: seq<int>, k: nat)
    requires |t| >= |s| && |m| == BUCKETS && forall d: nat :: d < BUCKETS ==> m[d] == Start(s, k, d)
    ensures Pointing(m, s, k, 0) && Filled(t, s, k, 0)
  {
    forall d: nat | d < BUCKETS
      ensures Placed(t, s, k, 0, d)
    {
      StartsInOrder(s, k, d, BUCKETS);
      GroupedLength(s, k, BUCKETS);
    }
  }

  /** Moves one element to the place to which the map points. */
  method MoveOne(x: int, temp: array<int>, place: array<int>, ghost s: seq<int>, k: nat, ghost i: nat)
    requires place != temp && i < |s| <= temp.Length && x == s[i]
    requires Pointing(place[..], s, k, i) && Filled(temp[..], s, k, i)
    modifies temp, place
    ensures Pointing(place[..], s, k, i + 1) && Filled(temp[..], s, k, i + 1)
  {
    ghost var m, t := place[..], temp[..];
    var e := Digit(x, k);
    PlaceInRange(s, k, i);
    assert m[e] == Start(s, k, e) + Count(s[..i], k, e);
    temp[place[e]] := x;
    place[e] := place[e] + 1;
    assert place[..] == m[e := m[e] + 1] && temp[..] == t[m[e] := x];
    MoveStep(t, temp[..], m, place[..], s, k, i);
  }

  method MoveAll(list: array<int>, temp: array<int>, n: nat, k: nat, place: array<int>)
    requires list != temp && place != list && place != temp && n <= list.Length && n <= temp.Length
             && place.Length == BUCKETS
    requires forall d: nat :: d < BUCKETS ==> place[d] == Start(list[..n], k, d)
    modifies temp, place
    ensures temp[..n] == Grouped(list[..n], k, BUCKETS)
  {
    ghost var s := list[..n];
    NothingMoved(temp[..], place[..], s, k);
    for i := 0 to n
      invariant Pointing(place[..], s, k, i) && Filled(temp[..], s, k, i)
    {
      MoveOne(list[i], temp, place, s, k, i);
    }
    AllPlaced(temp[..], s, k, BUCKETS);
    GroupedLength(s, k, BUCKETS);
    assert temp[..][..n] == temp[..n];
  }

  // ---------------------------------------------------------------------------
  // All passes
  // ---------------------------------------------------------------------------

  /** int_radix_sort up to bit 31: a stable permutation in the order of the unsigned values. */
  method IntRadixSort(list: array<int>, temp: array<int>, n: nat)
    requires list != temp && n <= list.Length && n <= temp.Length
    modifies list, temp
    ensures Sorted(list[..n], 4) && Stable(old(list[..n]), list[..n], 4)
    ensures forall i :: n <= i < list.Length ==> list[i] == old(list[i])
  {
    ghost var first := list[..n];
    NothingToSort(first);
    for k := 0 to 4
      invariant Sorted(list[..n], k) && Stable(first, list[..n], k)
      invariant forall i :: n <= i < list.Length ==> list[i] == old(list[i])
    {
      PassSorts(first, list[..n], k);
      Pass(list, temp, n, k);
    }
  }

  lemma NothingToSort(s: seq<int>)
    ensures Sorted(s, 0) && Stable(s, s, 0)
  {
    forall x: int
      ensures Key(x, 0) == 0
    {
    }
  }

  predicate IsInt(x: int) { -0x8000_0000 <= x < 0x8000_0000 }

  ghost predicate Ascending(s: seq<int>) { forall i, j :: 0 <= i < j < |s| ==> s[i] <= s[j] }

  ghost predicate Mixed(s: seq<int>) { (exists x :: x in s && x < 0) && (exists x :: x in s && x >= 0) }

  /** The unsigned order is the order of the integers exactly when their signs do not differ. */
  lemma SortedAsInts(s: seq<int>)
    requires Sorted(s, 4) && forall x :: x in s ==> IsInt(x)
    ensures Ascending(s) <==> !Mixed(s)
  {
    forall x | IsInt(x)
      ensures Key(x, 4) == if x >= 0 then x else x + 0x1_0000_0000
    {
      UnsignedValue(x);
    }
    forall i, j | 0 <= i < j < |s|
      ensures (s[i] < 0 ==> s[j] < 0) && ((s[i] < 0 <==> s[j] < 0) ==> s[i] <= s[j])
    {
      assert s[i] in s && s[j] in s;
    }
    if Mixed(s) {
      var x :| x in s && x < 0;
      var y :| y in s && y >= 0;
      var i :| 0 <= i < |s| && s[i] == x;
      var j :| 0 <= j < |s| && s[j] == y;
      assert j < i;
    }
  }

  lemma UnsignedValue(x: int)
    requires IsInt(x)
    ensures Key(x, 4) == if x >= 0 then x else x + 0x1_0000_0000
  {
    assert Pow(1) == 256 && Pow(2) == 0x1_0000 && Pow(3) == 0x100_0000 && Pow(4) == 0x1_0000_0000;
    if x >= 0 {
      DivisionIsUnique(x, Pow(4), 0, x);
    } else {
      DivisionIsUnique(x, Pow(4), -1, x + Pow(4));
    }
  }

  /** A stable rearrangement is a permutation: every value is there as often as before. */
  lemma StableIsPermutation(before: seq<int>, after: seq<int>)
    requires Stable(before, after, 4)
    requires (forall x :: x in before ==> IsInt(x)) && forall x :: x in after ==> IsInt(x)
    ensures multiset(before) == multiset(after)
  {
    forall x: int
      ensures multiset(before)[x] == multiset(after)[x]
    {
      KeepCounts(before, x);
      KeepCounts(after, x);
      assert Keep(after, HasKey(4, Key(x, 4))) == Keep(before, HasKey(4, Key(x, 4)));
    }
  }

  lemma {:induction false} KeepCounts(s: seq<int>, x: int)
    ensures multiset(s)[x] == multiset(Keep(s, HasKey(4, Key(x, 4))))[x]
  {
    if s != [] {
      var n := |s| - 1;
      assert s == s[..n] + [s[n]];
      KeepCounts(s[..n], x);
    }
  }
}
