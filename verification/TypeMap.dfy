/** Datatypes as type maps, opal_datatype_add (opal/datatype/opal_datatype_add.c) and the laws of
    strided copies on which the constructors rest. */
module TypeMap {
  import opened Arithmetic

  /** One basic element at a byte displacement. */
  datatype Entry = Entry(base: nat, disp: int)

  function Shift(m: seq<Entry>, d: int): (r: seq<Entry>)
    ensures |r| == |m|
  {
    seq(|m|, i requires 0 <= i < |m| => m[i].(disp := m[i].disp + d))
  }

  /** `n` copies, the first at `d`, each `e` bytes after the one before. */
  function Copies(m: seq<Entry>, n: nat, d: int, e: int): (r: seq<Entry>) {
    if n == 0 then [] else Copies(m, n - 1, d, e) + Shift(m, d + (n - 1) * e)
  }

  /** `len` copies of the map `m` side by side at extent `e`, from `disp` on. */
  datatype Block = Block(m: seq<Entry>, len: nat, disp: int, e: int)

  /** The type map of a sequence of blocks as section 4.1.2 of MPI-3.1 defines it: one after
      another, nothing merged. */
  function Blocks(bs: seq<Block>): (r: seq<Entry>) {
    if bs == [] then []
    else
      var b := bs[|bs| - 1];
      Blocks(bs[..|bs| - 1]) + Copies(b.m, b.len, b.disp, b.e)
  }

  // ---------------------------------------------------------------------------
  // Laws
  // ---------------------------------------------------------------------------

  lemma ShiftTwice(m: seq<Entry>, d: int, e: int)
    ensures Shift(Shift(m, d), e) == Shift(m, d + e) && Shift(m, 0) == m
  {
  }

  lemma ShiftConcat(m: seq<Entry>, w: seq<Entry>, d: int)
    ensures Shift(m + w, d) == Shift(m, d) + Shift(w, d)
  {
  }

  lemma {:induction false} CopiesLength(m: seq<Entry>, n: nat, d: int, e: int)
    ensures |Copies(m, n, d, e)| == n * |m|
  {
    if n > 0 {
      CopiesLength(m, n - 1, d, e);
    }
  }

  lemma {:induction false} CopiesConcat(m: seq<Entry>, a: nat, b: nat, d: int, e: int)
    ensures Copies(m, a + b, d, e) == Copies(m, a, d, e) + Copies(m, b, d + a * e, e)
  {
    if b > 0 {
      CopiesConcat(m, a, b - 1, d, e);
      assert (a + b - 1) * e == a * e + (b - 1) * e;
      var s := Shift(m, d + (a + b - 1) * e);
      assert Copies(m, a, d, e) + Copies(m, b - 1, d + a * e, e) + s == Copies(m, a, d, e) + (Copies(m, b - 1, d + a * e, e) + s);
    }
  }

  lemma {:induction false} CopiesShift(m: seq<Entry>, n: nat, d: int, e: int, s: int)
    ensures Shift(Copies(m, n, d, e), s) == Copies(m, n, d + s, e)
    ensures Copies(Shift(m, s), n, d, e) == Copies(m, n, d + s, e)
  {
    if n > 0 {
      CopiesShift(m, n - 1, d, e, s);
      ShiftConcat(Copies(m, n - 1, d, e), Shift(m, d + (n - 1) * e), s);
      ShiftTwice(m, d + (n - 1) * e, s);
      ShiftTwice(m, s, d + (n - 1) * e);
    }
  }

  /** Where the k-th element of the j-th copy stands. */
  lemma {:induction false} CopiesAt(m: seq<Entry>, n: nat, d: int, e: int, j: nat, k: nat)
    requires j < n && k < |m|
    ensures 0 <= j * |m| + k < |Copies(m, n, d, e)|
    ensures Copies(m, n, d, e)[j * |m| + k] == Entry(m[k].base, m[k].disp + d + j * e)
  {
    CopiesLength(m, n - 1, d, e);
    CopiesLength(m, n, d, e);
    if j < n - 1 {
      CopiesAt(m, n - 1, d, e, j, k);
    }
  }

  lemma CopiesOfNothing(n: nat, d: int, e: int)
    ensures Copies([], n, d, e) == []
  {
    CopiesLength([], n, d, e);
  }

  lemma CopiesOnce(m: seq<Entry>, d: int, e: int)
    ensures Copies(m, 1, d, e) == Shift(m, d)
  {
    assert Copies(m, 0, d, e) == [];
  }

  /** Different strides give different type maps. */
  lemma CopiesStride(m: seq<Entry>, n: nat, d: int, e: int, f: int)
    requires m != [] && n >= 2 && e != f
    ensures Copies(m, n, d, e) != Copies(m, n, d, f)
  {
    CopiesAt(m, n, d, e, 1, 0);
    CopiesAt(m, n, d, f, 1, 0);
  }

  /** What is copied can be read off the copies. */
  lemma CopiesInjective(m: seq<Entry>, w: seq<Entry>, n: nat, d: int, e: int)
    requires n >= 1 && Copies(m, n, d, e) == Copies(w, n, d, e)
    ensures m == w
  {
    CopiesLength(m, n, d, e);
    CopiesLength(w, n, d, e);
    SameFactor(n, |m|, |w|);
    forall k: nat | k < |m|
      ensures m[k] == w[k]
    {
      CopiesAt(m, n, d, e, 0, k);
      CopiesAt(w, n, d, e, 0, k);
    }
  }

  lemma SameFactor(n: nat, a: nat, b: nat)
    requires n >= 1 && n * a == n * b
    ensures a == b
  {
    assert n * (a - b) == n * a - n * b;
  }

  /** `n` groups of `b` copies with no gap between the groups are `n * b` copies. */
  lemma {:induction false} CopiesOfCopies(m: seq<Entry>, n: nat, b: nat, e: int)
    ensures Copies(Copies(m, b, 0, e), n, 0, b * e) == Copies(m, n * b, 0, e)
  {
    if n > 0 {
      CopiesOfCopies(m, n - 1, b, e);
      assert (n - 1) * b + b == n * b && ((n - 1) * b) * e == (n - 1) * (b * e);
      CopiesConcat(m, (n - 1) * b, b, 0, e);
      CopiesShift(m, b, 0, e, (n - 1) * (b * e));
    }
  }

  // ---------------------------------------------------------------------------
  // The datatype under construction
  // ---------------------------------------------------------------------------

  const LONG_MAX: int := 0x7FFF_FFFF_FFFF_FFFF
  const LONG_MIN: int := -0x8000_0000_0000_0000

  /** C's remainder, which takes the sign of the dividend. */
  function Remainder(a: int, b: int): (r: int)
    requires b > 0
    ensures -b < r < b
  {
    if a >= 0 then a % b else -((-a) % b)
  }

  /** The bounds of `count` copies. */
  function SpanLb(count: nat, disp: int, lb: int, e: int): (r: int) {
    var last := disp + e * (count - 1);
    (if disp < last then disp else last) + lb
  }

  function SpanUb(count: nat, disp: int, ub: int, e: int): (r: int) {
    var last := disp + e * (count - 1);
    (if disp < last then last else disp) + ub
  }

  /** The extent rounded up to a multiple of the alignment, in C's arithmetic. */
  function Rounded(e: int, align: int): (r: int)
    requires align > 0
  {
    var epsilon := Remainder(e, align);
    if epsilon != 0 then e + (align - epsilon) else e
  }

  function Padded(lb: int, ub: int, align: int): (r: int)
    requires align > 0
  {
    lb + Rounded(ub - lb, align)
  }

  /** A bound when copies with the bound `add` are added: a bound that the user has set for one of the
      two prevails over one that was computed. */
  function JoinedLb(lb: int, user: bool, add: int, addUser: bool): (r: int) {
    if user == addUser then Min(lb, add) else if user then lb else add
  }

  function JoinedUb(ub: int, user: bool, add: int, addUser: bool): (r: int) {
    if user == addUser then Max(ub, add) else if user then ub else add
  }

  // ---------------------------------------------------------------------------
  // What the bounds mean
  // ---------------------------------------------------------------------------

  function CopyStart(d: int, e: int, j: int): (x: int) { d + j * e }

  /** Where `n` copies `e` bytes apart begin. */
  ghost function Starts(n: nat, d: int, e: int): (s: set<int>) { set j: int | 0 <= j < n :: CopyStart(d, e, j) }

  ghost predicate Least(v: int, s: set<int>) { v in s && forall x :: x in s ==> v <= x }

  ghost predicate Greatest(v: int, s: set<int>) { v in s && forall x :: x in s ==> x <= v }

  lemma Between(d: int, e: int, n: nat, j: int)
    requires 0 <= j < n
    ensures if e >= 0 then d <= CopyStart(d, e, j) <= CopyStart(d, e, n - 1) else CopyStart(d, e, n - 1) <= CopyStart(d, e, j) <= d
  {
    if e >= 0 {
      assert j * e >= 0 && (n - 1 - j) * e >= 0;
    } else {
      assert j * e <= 0 && (n - 1 - j) * e <= 0;
    }
    assert (n - 1 - j) * e == (n - 1) * e - j * e;
  }

  /** The span is that of the first and the last copy, whichever way the stride goes. */
  lemma SpanIsExtreme(n: nat, disp: int, bound: int, e: int)
    requires n >= 1
    ensures Least(SpanLb(n, disp, bound, e), Starts(n, disp + bound, e))
    ensures Greatest(SpanUb(n, disp, bound, e), Starts(n, disp + bound, e))
  {
    var d := disp + bound;
    assert e * (n - 1) == (n - 1) * e;
    assert CopyStart(d, e, 0) == d && CopyStart(d, e, n - 1) == d + e * (n - 1);
    assert CopyStart(d, e, 0) in Starts(n, d, e) && CopyStart(d, e, n - 1) in Starts(n, d, e);
    forall x | x in Starts(n, d, e)
      ensures SpanLb(n, disp, bound, e) <= x <= SpanUb(n, disp, bound, e)
    {
      var j :| 0 <= j < n && x == CopyStart(d, e, j);
      Between(d, e, n, j);
      ProductSigns(e, n - 1);
    }
  }

  lemma ProductSigns(e: int, n: int)
    requires n >= 0
    ensures e >= 0 ==> e * n >= 0
    ensures e <= 0 ==> e * n <= 0
  {
  }

  /** A bound after copies were added whose bounds are `s`: the least of all, unless the user has set it for one of
      the two only. */
  ghost predicate LbAfter(now: int, before: int, user: bool, s: set<int>, addUser: bool) {
    if user == addUser then Least(now, s + {before}) else if user then now == before else Least(now, s)
  }

  ghost predicate UbAfter(now: int, before: int, user: bool, s: set<int>, addUser: bool) {
    if user == addUser then Greatest(now, s + {before}) else if user then now == before else Greatest(now, s)
  }

  /** The upper bound `top` is padded until the extent is a multiple of the alignment; only from a negative extent by
      a whole alignment or more. */
  ghost predicate PaddedFrom(ub: int, top: int, lb: int, grain: int)
    requires grain > 0
  {
    top <= ub && (ub - lb) % grain == 0 && (lb <= top ==> ub < top + grain) && (grain == 1 ==> ub == top)
  }

  lemma RoundedIs(e: int, grain: int)
    requires grain > 0
    ensures e <= Rounded(e, grain) && Rounded(e, grain) % grain == 0 && (e >= 0 ==> Rounded(e, grain) < e + grain)
    ensures grain == 1 ==> Rounded(e, grain) == e
  {
    if e >= 0 {
      var q := if e % grain != 0 then e / grain + 1 else e / grain;
      assert Rounded(e, grain) == q * grain + 0;
      DivisionIsUnique(Rounded(e, grain), grain, q, 0);
    } else {
      var q := if Remainder(e, grain) != 0 then 1 - (-e) / grain else -((-e) / grain);
      assert -e == ((-e) / grain) * grain + (-e) % grain;
      assert Rounded(e, grain) == q * grain + 0;
      DivisionIsUnique(Rounded(e, grain), grain, q, 0);
    }
  }

  /** The bounds of a datatype, with the flags for bounds that the user has set. */
  datatype Bounds = Bounds(lb: int, ub: int, userLb: bool, userUb: bool)

  /** The bounds after copies of a type with the bounds `t` were added to one with the bounds `before`. */
  ghost predicate BoundsAfter(lb: int, ub: int, before: Bounds, t: Bounds, count: nat, disp: int, e: int, grain: int)
    requires grain > 0
  {
    && LbAfter(lb, before.lb, before.userLb, Starts(count, disp + t.lb, e), t.userLb)
    && exists top :: UbAfter(top, before.ub, before.userUb, Starts(count, disp + t.ub, e), t.userUb)
                     && PaddedFrom(ub, top, lb, grain)
  }

  lemma BoundsJoined(lb: int, ub: int, before: Bounds, t: Bounds, count: nat, disp: int, e: int, grain: int)
    requires count >= 1 && grain > 0
    requires lb == JoinedLb(before.lb, before.userLb, SpanLb(count, disp, t.lb, e), t.userLb)
    requires ub == Padded(lb, JoinedUb(before.ub, before.userUb, SpanUb(count, disp, t.ub, e), t.userUb), grain)
    ensures BoundsAfter(lb, ub, before, t, count, disp, e, grain)
  {
    var top := JoinedUb(before.ub, before.userUb, SpanUb(count, disp, t.ub, e), t.userUb);
    SpanIsExtreme(count, disp, t.lb, e);
    assert UbAfter(top, before.ub, before.userUb, Starts(count, disp + t.ub, e), t.userUb) by {
      SpanIsExtreme(count, disp, t.ub, e);
    }
    assert PaddedFrom(ub, top, lb, grain) by {
      RoundedIs(top - lb, grain);
    }
  }

  /** MPI_LB and MPI_UB are datatypes without elements that only set a bound. */
  datatype Kind = Data | LbMarker | UbMarker

  class Datatype {
    const kind: Kind
    var tmap: seq<Entry>
    var lb: int
    var ub: int
    var align: int
    var userLb: bool
    var userUb: bool

    ghost predicate Valid()
      reads this
    {
      align > 0 && (!kind.Data? ==> tmap == [])
    }

    function Extent(): (e: int)
      reads this
    {
      ub - lb
    }

    function Limits(): (b: Bounds)
      reads this
    {
      Bounds(lb, ub, userLb, userUb)
    }

    /** What the extent is a multiple of: the alignment, unless the user has set the upper bound. */
    function Rounding(): (r: int)
      reads this
    {
      if userUb then 1 else align
    }

    constructor ()
      ensures Valid() && kind.Data? && tmap == [] && lb == LONG_MAX && ub == LONG_MIN && align == 1 && !userLb
              && !userUb
    {
      kind := Data;
      tmap, lb, ub, align, userLb, userUb := [], LONG_MAX, LONG_MIN, 1, false, false;
    }

    /** A predefined datatype: one element. */
    constructor Basic(base: nat, size: nat, alignment: int)
      requires alignment > 0
      ensures Valid() && kind.Data? && tmap == [Entry(base, 0)] && lb == 0 && ub == size && align == alignment
              && !userLb && !userUb
    {
      kind := Data;
      tmap, lb, ub, align, userLb, userUb := [Entry(base, 0)], 0, size, alignment, false, false;
    }

    constructor Marker(k: Kind)
      ensures Valid() && kind == k && tmap == [] && lb == ub == 0
    {
      kind := k;
      tmap, lb, ub, align, userLb, userUb := [], 0, 0, 1, false, false;
    }

    /** opal_datatype_add: appends strided copies of `t`.  The extent -1 stands for the extent of `t`. */
    method Add(t: Datatype, count: nat, disp: int, extent: int)
      requires Valid() && t.Valid() && t != this && kind.Data?
      modifies this
      ensures Valid()
      ensures tmap == old(tmap) + Copies(t.tmap, count, disp, if extent == -1 then t.Extent() else extent)
      ensures count == 0 ==> unchanged(this)
      ensures count > 0 && t.kind.LbMarker? ==>
                && lb == (if old(userLb) then Min(old(lb), disp) else disp) && userLb
                && unchanged(`ub) && unchanged(`userUb) && unchanged(`align)
      ensures count > 0 && t.kind.UbMarker? ==>
                && ub == (if old(userUb) then Max(old(ub), disp) else disp) && userUb
                && unchanged(`lb) && unchanged(`userLb) && unchanged(`align)
      ensures count > 0 && t.kind.Data? ==>
                var e := if extent == -1 then t.Extent() else extent;
                && align == Max(old(align), t.align)
                && userLb == (old(userLb) || t.userLb) && userUb == (old(userUb) || t.userUb)
                && lb == JoinedLb(old(lb), old(userLb), SpanLb(count, disp, t.lb, e), t.userLb)
                && ub == Padded(lb, JoinedUb(old(ub), old(userUb), SpanUb(count, disp, t.ub, e), t.userUb), Rounding())
      ensures count > 0 && t.kind.Data? ==>
                BoundsAfter(lb, ub, old(Limits()), t.Limits(), count, disp, if extent == -1 then t.Extent() else extent, Rounding())
    {
      if count == 0 {
        return;
      }
      var e := if extent == -1 then t.Extent() else extent;
      if t.kind.LbMarker? {
        lb, userLb := if userLb then Min(lb, disp) else disp, true;
        CopiesOfNothing(count, disp, e);
        return;
      } else if t.kind.UbMarker? {
        ub, userUb := if userUb then Max(ub, disp) else disp, true;
        CopiesOfNothing(count, disp, e);
        return;
      }
      AddData(t, count, disp, e);
    }

    /** The part of it for datatypes with elements. */
    method AddData(t: Datatype, count: nat, disp: int, e: int)
      requires Valid() && t.Valid() && t != this && kind.Data? && t.kind.Data? && count > 0
      modifies this
      ensures Valid() && tmap == old(tmap) + Copies(t.tmap, count, disp, e)
      ensures align == Max(old(align), t.align)
      ensures userLb == (old(userLb) || t.userLb) && userUb == (old(userUb) || t.userUb)
      ensures lb == JoinedLb(old(lb), old(userLb), SpanLb(count, disp, t.lb, e), t.userLb)
      ensures ub == Padded(lb, JoinedUb(old(ub), old(userUb), SpanUb(count, disp, t.ub, e), t.userUb), Rounding())
      ensures BoundsAfter(lb, ub, old(Limits()), t.Limits(), count, disp, e, Rounding())
    {
      lb := JoinedLb(lb, userLb, SpanLb(count, disp, t.lb, e), t.userLb);
      ub := JoinedUb(ub, userUb, SpanUb(count, disp, t.ub, e), t.userUb);
      userLb, userUb := userLb || t.userLb, userUb || t.userUb;
      align := Max(align, t.align);
      if !userUb {
        ub := Padded(lb, ub, align);
      }
      BoundsJoined(lb, ub, old(Limits()), t.Limits(), count, disp, e, Rounding());
      tmap := tmap + Copies(t.tmap, count, disp, e);
    }

    /** opal_datatype_resize. */
    method Resize(newLb: int, extent: int)
      modifies this
      ensures lb == newLb && ub == newLb + extent
      ensures unchanged(`tmap) && unchanged(`align) && unchanged(`userLb) && unchanged(`userUb)
    {
      lb, ub := newLb, newLb + extent;
    }

    /** ompi_datatype_add, without the bounds. */
    method Append(t: Datatype, count: nat, disp: int, extent: int)
      requires Valid() && t.Valid() && t != this && kind.Data?
      modifies this
      ensures Valid()
      ensures tmap == old(tmap) + Copies(t.tmap, count, disp, if extent == -1 then t.Extent() else extent)
      ensures count == 0 ==> unchanged(this)
      ensures count > 0 && t.kind.Data? ==> align == Max(old(align), t.align) && userUb == (old(userUb) || t.userUb)
    {
      Add(t, count, disp, extent);
    }
  }

  /** The extents of both are multiples of the same. */
  ghost predicate SameGrain(r: Datatype, t: Datatype)
    reads r, t
  {
    r.kind.Data? && r.align == t.align && r.userUb == t.userUb
  }
}
