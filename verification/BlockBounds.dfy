/** The bounds of a datatype that is made of several blocks (ompi/datatype/ompi_datatype_create_indexed.c,
    ompi_datatype_create_struct.c): the least and the greatest over all copies in them, as section 4.1.6 of MPI-3.1
    demands. */
module BlockBounds {
  import opened Arithmetic
  import opened TypeMap

  /** What counts of a type: its bounds and its alignment. */
  datatype Shape = Shape(lb: int, ub: int, grain: int)

  /** A block of `len` copies of such a type, the first at `disp`, the others `e` bytes apart. */
  datatype Placed = Placed(len: nat, disp: int, e: int, lb: int, ub: int, grain: int)

  /** The lower and the upper bounds of all copies. */
  ghost function Lbs(ps: seq<Placed>): (s: set<int>) {
    if ps == [] then {}
    else
      var p := ps[|ps| - 1];
      Lbs(ps[..|ps| - 1]) + Starts(p.len, p.disp + p.lb, p.e)
  }

  ghost function Ubs(ps: seq<Placed>): (s: set<int>) {
    if ps == [] then {}
    else
      var p := ps[|ps| - 1];
      Ubs(ps[..|ps| - 1]) + Starts(p.len, p.disp + p.ub, p.e)
  }

  ghost function Shapes(ps: seq<Placed>): (s: set<Shape>) {
    if ps == [] then {}
    else
      var p := ps[|ps| - 1];
      Shapes(ps[..|ps| - 1]) + {Shape(p.lb, p.ub, p.grain)}
  }

  /** The greatest alignment of a block that is not empty. */
  ghost function Grain(ps: seq<Placed>): (g: int)
    ensures g >= 1
  {
    if ps == [] then 1
    else
      var p, g := ps[|ps| - 1], Grain(ps[..|ps| - 1]);
      if p.len == 0 then g else Max(g, p.grain)
  }

  lemma {:induction false} GrainOccurs(ps: seq<Placed>) returns (x: Shape)
    ensures Grain(ps) == 1 || (x in Shapes(ps) && x.grain == Grain(ps))
  {
    x := Shape(0, 0, 1);
    if ps != [] {
      var p := ps[|ps| - 1];
      x := GrainOccurs(ps[..|ps| - 1]);
      if p.len > 0 && p.grain == Grain(ps) {
        x := Shape(p.lb, p.ub, p.grain);
      }
    }
  }

  lemma {:induction false} CopyCounts(ps: seq<Placed>, i: nat, j: int)
    requires i < |ps| && 0 <= j < ps[i].len
    ensures CopyStart(ps[i].disp + ps[i].lb, ps[i].e, j) in Lbs(ps)
    ensures CopyStart(ps[i].disp + ps[i].ub, ps[i].e, j) in Ubs(ps)
  {
    if i < |ps| - 1 {
      CopyCounts(ps[..|ps| - 1], i, j);
    }
  }

  /** Where a bound comes from. */
  lemma {:induction false} CopyOfBound(ps: seq<Placed>, x: int) returns (i: nat, j: int)
    requires x in Lbs(ps)
    ensures i < |ps| && 0 <= j < ps[i].len && x == CopyStart(ps[i].disp + ps[i].lb, ps[i].e, j)
    ensures Shape(ps[i].lb, ps[i].ub, ps[i].grain) in Shapes(ps)
  {
    var n := |ps| - 1;
    if x in Lbs(ps[..n]) {
      i, j := CopyOfBound(ps[..n], x);
    } else {
      i := n;
      j :| 0 <= j < ps[n].len && x == CopyStart(ps[n].disp + ps[n].lb, ps[n].e, j);
    }
  }

  lemma {:induction false} NoneOrBoth(ps: seq<Placed>)
    ensures Lbs(ps) == {} <==> Ubs(ps) == {}
  {
    if ps != [] {
      var p := ps[|ps| - 1];
      NoneOrBoth(ps[..|ps| - 1]);
      if p.len > 0 {
        assert CopyStart(p.disp + p.lb, p.e, 0) in Starts(p.len, p.disp + p.lb, p.e);
        assert CopyStart(p.disp + p.ub, p.e, 0) in Starts(p.len, p.disp + p.ub, p.e);
      }
    }
  }

  lemma StartsSplit(a: nat, b: nat, d: int, e: int)
    ensures Starts(a + b, d, e) == Starts(a, d, e) + Starts(b, d + a * e, e)
  {
    var next := d + a * e;
    forall x | x in Starts(a + b, d, e)
      ensures x in Starts(a, d, e) || x in Starts(b, next, e)
    {
      var j :| 0 <= j < a + b && x == CopyStart(d, e, j);
      if j >= a {
        Shifted(d, e, a, j - a);
        assert CopyStart(next, e, j - a) in Starts(b, next, e);
      }
    }
    forall x | x in Starts(b, next, e)
      ensures x in Starts(a + b, d, e)
    {
      var j :| 0 <= j < b && x == CopyStart(next, e, j);
      Shifted(d, e, a, j);
      assert CopyStart(d, e, a + j) in Starts(a + b, d, e);
    }
    assert forall x :: x in Starts(a, d, e) ==> x in Starts(a + b, d, e);
  }

  lemma Shifted(d: int, e: int, a: int, j: int)
    ensures CopyStart(d + a * e, e, j) == CopyStart(d, e, a + j)
  {
  }

  // ---------------------------------------------------------------------------
  // The bounds
  // ---------------------------------------------------------------------------

  /** The bounds fit a long. */
  ghost predicate Fits(ps: seq<Placed>) {
    (forall x :: x in Lbs(ps) ==> x <= LONG_MAX) && forall x :: x in Ubs(ps) ==> x >= LONG_MIN
  }

  /** All copies begin a multiple of the alignment apart. */
  ghost predicate Congruent(s: set<int>, grain: int)
    requires grain > 0
  {
    forall x, y :: x in s && y in s ==> (x - y) % grain == 0
  }

  /** No type has a negative extent, and of two alignments one divides the other. */
  ghost predicate Regular(s: set<Shape>) {
    && (forall x :: x in s ==> x.lb <= x.ub && x.grain >= 1)
    && forall x, y :: x in s && y in s && x.grain <= y.grain ==> Divides(x.grain, y.grain)
  }

  ghost predicate Divides(a: int, b: int) { a > 0 && b % a == 0 }

  /** The bounds of the blocks: the least lower bound, and the greatest upper bound, padded to the alignment unless the
      user has set it.  The padding is less than the alignment if the copies are aligned and the types are regular. */
  ghost predicate BoundsOf(lb: int, ub: int, ps: seq<Placed>, userUb: bool) {
    && Least(lb, Lbs(ps))
    && exists top :: Greatest(top, Ubs(ps)) && PaddedOver(lb, ub, top, ps, userUb)
  }

  ghost predicate PaddedOver(lb: int, ub: int, top: int, ps: seq<Placed>, userUb: bool) {
    Over(lb, ub, top, Lbs(ps), Regular(Shapes(ps)), Grain(ps), userUb)
  }

  ghost predicate Over(lb: int, ub: int, top: int, s: set<int>, regular: bool, grain: int, userUb: bool)
    requires grain > 0
  {
    if userUb then ub == top
    else top <= ub && (ub - lb) % grain == 0 && (Congruent(s, grain) && regular ==> ub < top + grain)
  }

  lemma TopIsAbove(ps: seq<Placed>, lb: int, top: int)
    requires Least(lb, Lbs(ps)) && Greatest(top, Ubs(ps)) && Regular(Shapes(ps))
    ensures lb <= top
  {
    var i, j := CopyOfBound(ps, lb);
    CopyCounts(ps, i, j);
  }

  /** The bounds with one more block, in sets. */
  lemma LbGrows(lb': int, lb: int, s: set<int>, more: set<int>, user: bool, addUser: bool, x: int)
    requires LbAfter(lb', lb, user, more, addUser) && x in more && (forall x :: x in more ==> x <= LONG_MAX)
    requires if s == {} then lb == LONG_MAX && !user else Least(lb, s) && user == addUser
    ensures Least(lb', s + more)
  {
    assert lb' in more || (user == addUser && lb' == lb);
    assert s == {} && lb' == LONG_MAX ==> LONG_MAX <= x <= LONG_MAX;
  }

  lemma UbGrows(top': int, ub: int, s: set<int>, more: set<int>, user: bool, addUser: bool, x: int)
    requires UbAfter(top', ub, user, more, addUser) && x in more && (forall x :: x in more ==> x >= LONG_MIN)
    requires if s == {} then ub == LONG_MIN && !user else user == addUser && forall x :: x in s ==> x <= ub
    ensures forall x :: x in s + more ==> x <= top'
    ensures top' in more || (s != {} && top' == ub)
  {
    assert top' in more || (user == addUser && top' == ub);
    assert s == {} && top' == LONG_MIN ==> LONG_MIN <= x <= LONG_MIN;
  }

  /** Padding to a multiple of `grain` first makes no difference to padding to a multiple of `g`. */
  lemma PaddedTwice(ub': int, ub: int, top: int, lb: int, grain: int, g: int)
    requires Divides(grain, g) && g > 0 && (ub - lb) % grain == 0 && (ub' - lb) % g == 0
    requires ub < top + grain && ub' < ub + g
    ensures ub' < top + g
  {
    if ub' >= top + g {
      var k, n, m := (ub' - lb) / g - 1, (ub - lb) / grain, g / grain;
      DivMod(ub' - lb, g);
      DivMod(ub - lb, grain);
      DivMod(g, grain);
      assert (k + 1) * g == k * g + g;
      SwapFactors(k, m, grain);
      assert (k * m - n) * grain == (k * m) * grain - n * grain;
      ProductBound(n - k * m, grain);
    }
  }

  lemma SwapFactors(k: int, m: int, grain: int)
    ensures k * (m * grain) == (k * m) * grain
  {
  }

  lemma CongruentBounds(ub: int, lb: int, lb': int, grain: int)
    requires grain > 0 && (ub - lb) % grain == 0 && (lb - lb') % grain == 0
    ensures (ub - lb') % grain == 0
  {
    DivMod(ub - lb, grain);
    DivMod(lb - lb', grain);
    assert ((ub - lb) / grain + (lb - lb') / grain) * grain == ub - lb';
    DivisionIsUnique(ub - lb', grain, (ub - lb) / grain + (lb - lb') / grain, 0);
  }

  lemma CoarserToFiner(x: int, grain: int, g: int)
    requires Divides(grain, g) && g > 0 && x % g == 0
    ensures x % grain == 0
  {
    DivMod(x, g);
    DivMod(g, grain);
    SwapFactors(x / g, g / grain, grain);
    DivisionIsUnique(x, grain, (x / g) * (g / grain), 0);
  }

  // ---------------------------------------------------------------------------
  // One block more
  // ---------------------------------------------------------------------------

  /** The bounds of a datatype to which blocks of types with the same flags were added: those of an empty one if they
      have no copies. */
  ghost predicate Reached(b: Bounds, ps: seq<Placed>, userLb: bool, userUb: bool) {
    if Lbs(ps) == {} then b == Bounds(LONG_MAX, LONG_MIN, false, false)
    else b.userLb == userLb && b.userUb == userUb && BoundsOf(b.lb, b.ub, ps, userUb)
  }

  /** The bounds `b` before the addition, in sets: `s` and `t` are the bounds of the copies, `top` is the greatest of
      `t`. */
  ghost predicate Before(b: Bounds, s: set<int>, t: set<int>, top: int, high: int, regular: bool, grain: int,
                         userLb: bool, userUb: bool)
    requires grain > 0
  {
    if s == {} then b == Bounds(LONG_MAX, LONG_MIN, false, false) && top == high && t == {}
    else b.userLb == userLb && b.userUb == userUb && Least(b.lb, s) && Greatest(top, t)
         && Over(b.lb, b.ub, top, s, regular, grain, userUb)
  }

  /** Copies with the bounds `l` and `u` are added; `high` is the greatest of `u`. */
  lemma SetsGrow(lb': int, ub': int, top': int, b: Bounds, s: set<int>, t: set<int>, l: set<int>, u: set<int>, x: int,
                 high: int, top: int, regular: bool, grain: int, g: int, userLb: bool, userUb: bool)
    requires grain > 0 && g > 0 && x in l && Greatest(high, u) && (regular ==> Divides(grain, g))
    requires (forall y :: y in l ==> y <= LONG_MAX) && forall y :: y in u ==> y >= LONG_MIN
    requires Before(b, s, t, top, high, regular, grain, userLb, userUb)
    requires LbAfter(lb', b.lb, b.userLb, l, userLb) && UbAfter(top', b.ub, b.userUb, u, userUb)
    requires PaddedFrom(ub', top', lb', if userUb then 1 else g) && (regular ==> lb' <= Max(top, high))
    ensures Least(lb', s + l) && Greatest(Max(top, high), t + u)
    ensures Over(lb', ub', Max(top, high), s + l, regular, g, userUb)
  {
    LbGrows(lb', b.lb, s, l, b.userLb, userLb, x);
    UbGrows(top', b.ub, t, u, b.userUb, userUb, high);
    if top' !in u && !userUb && Congruent(s + l, g) && regular {
      assert b.lb in s + l && lb' in s + l;
      forall x, y | x in s && y in s
        ensures (x - y) % grain == 0
      {
        assert x in s + l && y in s + l;
        CoarserToFiner(x - y, grain, g);
      }
      CoarserToFiner(b.lb - lb', grain, g);
      CongruentBounds(b.ub, b.lb, lb', grain);
      PaddedTwice(ub', b.ub, top, lb', grain, g);
    }
  }

  /** What one addition makes of the bounds. */
  lemma BoundsGrow(lb': int, ub': int, b: Bounds, ps: seq<Placed>, p: Placed, userLb: bool, userUb: bool)
    requires p.len >= 1 && Fits(ps + [p]) && Reached(b, ps, userLb, userUb)
    requires BoundsAfter(lb', ub', b, Bounds(p.lb, p.ub, userLb, userUb), p.len, p.disp, p.e,
                         if userUb then 1 else Max(Grain(ps), p.grain))
    ensures BoundsOf(lb', ub', ps + [p], userUb)
  {
    var g := Max(Grain(ps), p.grain);
    var u := Starts(p.len, p.disp + p.ub, p.e);
    var top' :| UbAfter(top', b.ub, b.userUb, u, userUb) && PaddedFrom(ub', top', lb', if userUb then 1 else g);
    var high := SpanUb(p.len, p.disp, p.ub, p.e);
    var top := high;
    NoneOrBoth(ps);
    SetsWith(ps, p);
    if Lbs(ps) != {} {
      top :| Greatest(top, Ubs(ps)) && PaddedOver(b.lb, b.ub, top, ps, userUb);
    }
    RegularPart(ps, p);
    assert Before(b, Lbs(ps), Ubs(ps), top, high, Regular(Shapes(ps + [p])), Grain(ps), userLb, userUb);
    CopiesGrow(lb', ub', top', b, ps, p, top, g, userLb, userUb);
    assert PaddedOver(lb', ub', Max(top, high), ps + [p], userUb);
  }

  lemma CopiesGrow(lb': int, ub': int, top': int, b: Bounds, ps: seq<Placed>, p: Placed, top: int, g: int,
                   userLb: bool, userUb: bool)
    requires p.len >= 1 && Fits(ps + [p]) && g == Grain(ps + [p])
    requires LbAfter(lb', b.lb, b.userLb, Starts(p.len, p.disp + p.lb, p.e), userLb)
    requires UbAfter(top', b.ub, b.userUb, Starts(p.len, p.disp + p.ub, p.e), userUb)
    requires PaddedFrom(ub', top', lb', if userUb then 1 else g)
    requires Before(b, Lbs(ps), Ubs(ps), top, SpanUb(p.len, p.disp, p.ub, p.e), Regular(Shapes(ps + [p])), Grain(ps),
                    userLb, userUb)
    ensures var all := Max(top, SpanUb(p.len, p.disp, p.ub, p.e));
            && Least(lb', Lbs(ps + [p])) && Greatest(all, Ubs(ps + [p]))
            && Over(lb', ub', all, Lbs(ps + [p]), Regular(Shapes(ps + [p])), g, userUb)
  {
    var now, l, u := ps + [p], Starts(p.len, p.disp + p.lb, p.e), Starts(p.len, p.disp + p.ub, p.e);
    var x, high := SpanLb(p.len, p.disp, p.lb, p.e), SpanUb(p.len, p.disp, p.ub, p.e);
    SetsWith(ps, p);
    SpanIsExtreme(p.len, p.disp, p.lb, p.e);
    SpanIsExtreme(p.len, p.disp, p.ub, p.e);
    LbGrows(lb', b.lb, Lbs(ps), l, b.userLb, userLb, x);
    if Regular(Shapes(now)) {
      TopIsAbove(now, lb', Max(top, high));
      RegularPart(ps, p);
    }
    SetsGrow(lb', ub', top', b, Lbs(ps), Ubs(ps), l, u, x, high, top, Regular(Shapes(now)), Grain(ps), g, userLb, userUb);
  }

  lemma SetsWith(ps: seq<Placed>, p: Placed)
    ensures Lbs(ps + [p]) == Lbs(ps) + Starts(p.len, p.disp + p.lb, p.e)
    ensures Ubs(ps + [p]) == Ubs(ps) + Starts(p.len, p.disp + p.ub, p.e)
    ensures Shapes(ps + [p]) == Shapes(ps) + {Shape(p.lb, p.ub, p.grain)}
    ensures Grain(ps + [p]) == if p.len == 0 then Grain(ps) else Max(Grain(ps), p.grain)
  {
    assert (ps + [p])[..|ps|] == ps;
  }

  lemma RegularPart(ps: seq<Placed>, p: Placed)
    requires p.len >= 1
    ensures Regular(Shapes(ps + [p])) ==> Regular(Shapes(ps)) && Divides(Grain(ps), Max(Grain(ps), p.grain))
  {
    SetsWith(ps, p);
    if Regular(Shapes(ps + [p])) {
      var x := GrainOccurs(ps);
      var y := Shape(p.lb, p.ub, p.grain);
      assert y in Shapes(ps + [p]);
      if Grain(ps) > 1 && p.grain >= Grain(ps) {
        assert x in Shapes(ps + [p]);
        assert Divides(x.grain, y.grain);
      }
    }
  }

  // ---------------------------------------------------------------------------
  // Adding blocks
  // ---------------------------------------------------------------------------

  /** The bounds and the alignment of a new datatype after blocks of types with these flags were added. */
  ghost predicate Holds(b: Bounds, align: int, ps: seq<Placed>, userLb: bool, userUb: bool) {
    align == Grain(ps) && (Fits(ps) ==> Reached(b, ps, userLb, userUb))
  }

  /** The flags that all blocks have in common, if they have. */
  datatype Flags = Mixed | Common(lb: bool, ub: bool)

  ghost predicate HasBlocks(pdt: Datatype, f: Flags, ps: seq<Placed>)
    reads pdt
  {
    && pdt.Valid() && pdt.kind.Data?
    && (f.Common? ==> Holds(pdt.Limits(), pdt.align, ps, f.lb, f.ub))
  }

  ghost predicate HasFlags(t: Datatype, f: Flags)
    reads t
  {
    f.Common? ==> t.kind.Data? && t.userLb == f.lb && t.userUb == f.ub
  }

  function PlacedOf(t: Datatype, n: nat, disp: int): (p: Placed)
    reads t
  {
    Placed(n, disp, t.Extent(), t.lb, t.ub, t.align)
  }

  lemma NothingYet(pdt: Datatype, f: Flags)
    requires pdt.Valid() && pdt.kind.Data? && pdt.align == 1 && pdt.Limits() == Bounds(LONG_MAX, LONG_MIN, false, false)
    ensures HasBlocks(pdt, f, [])
  {
  }

  method AddBlock(pdt: Datatype, t: Datatype, n: nat, disp: int, extent: int, ghost ps: seq<Placed>, ghost f: Flags)
    requires t.Valid() && pdt != t && extent == t.Extent() && HasBlocks(pdt, f, ps) && HasFlags(t, f)
    modifies pdt
    ensures HasBlocks(pdt, f, ps + [PlacedOf(t, n, disp)])
    ensures pdt.tmap == old(pdt.tmap) + Copies(t.tmap, n, disp, extent)
    ensures n == 0 ==> unchanged(pdt)
    ensures n > 0 && t.kind.Data? ==>
              pdt.align == Max(old(pdt.align), t.align) && pdt.userUb == (old(pdt.userUb) || t.userUb)
  {
    ghost var p, b := PlacedOf(t, n, disp), pdt.Limits();
    pdt.Add(t, n, disp, extent);
    if f.Common? {
      if n == 0 {
        NothingAdded(b, pdt.align, ps, p, f.lb, f.ub);
      } else {
        BlockAdded(pdt.Limits(), b, ps, p, f.lb, f.ub);
      }
    }
  }

  lemma NothingAdded(b: Bounds, align: int, ps: seq<Placed>, p: Placed, userLb: bool, userUb: bool)
    requires p.len == 0 && Holds(b, align, ps, userLb, userUb)
    ensures Holds(b, align, ps + [p], userLb, userUb)
  {
    SetsWith(ps, p);
    assert Starts(0, p.disp + p.lb, p.e) == {} && Starts(0, p.disp + p.ub, p.e) == {};
    SameBounds(b, align, ps, ps + [p], userLb, userUb);
  }

  lemma BlockAdded(now: Bounds, b: Bounds, ps: seq<Placed>, p: Placed, userLb: bool, userUb: bool)
    requires p.len >= 1 && Holds(b, Grain(ps), ps, userLb, userUb)
    requires now.userLb == (b.userLb || userLb) && now.userUb == (b.userUb || userUb)
    requires BoundsAfter(now.lb, now.ub, b, Bounds(p.lb, p.ub, userLb, userUb), p.len, p.disp, p.e,
                         if now.userUb then 1 else Max(Grain(ps), p.grain))
    ensures Holds(now, Max(Grain(ps), p.grain), ps + [p], userLb, userUb)
  {
    SetsWith(ps, p);
    assert CopyStart(p.disp + p.lb, p.e, 0) in Starts(p.len, p.disp + p.lb, p.e);
    if Fits(ps + [p]) {
      BoundsGrow(now.lb, now.ub, b, ps, p, userLb, userUb);
    }
  }

  /** Lists of blocks with the same copies, `a` without other types than those of `ps`. */
  ghost predicate SameCopies(a: seq<Placed>, ps: seq<Placed>) {
    Lbs(a) == Lbs(ps) && Ubs(a) == Ubs(ps) && Grain(a) == Grain(ps) && Shapes(a) <= Shapes(ps)
  }

  lemma SameBounds(b: Bounds, align: int, a: seq<Placed>, ps: seq<Placed>, userLb: bool, userUb: bool)
    requires Holds(b, align, a, userLb, userUb) && SameCopies(a, ps)
    ensures Holds(b, align, ps, userLb, userUb)
  {
    if Fits(ps) && Lbs(a) != {} {
      var top :| Greatest(top, Ubs(a)) && PaddedOver(b.lb, b.ub, top, a, userUb);
      assert PaddedOver(b.lb, b.ub, top, ps, userUb);
    }
  }

  /** A block that begins where another one ends can be counted as a part of it. */
  lemma CopiesExtend(done: seq<Placed>, open: Placed, ps: seq<Placed>, i: nat)
    requires i < |ps| && SameCopies(done + [open], ps[..i])
    requires ps[i] == open.(len := ps[i].len, disp := open.disp + open.len * open.e)
    ensures SameCopies(done + [open.(len := open.len + ps[i].len)], ps[..i + 1])
  {
    var q, more := ps[i], open.(len := open.len + ps[i].len);
    assert ps[..i + 1] == ps[..i] + [q];
    CopiesJoin(done, open, ps[..i], q, more, open.disp + open.len * open.e);
  }

  lemma CopiesJoin(done: seq<Placed>, open: Placed, ps: seq<Placed>, q: Placed, more: Placed, next: int)
    requires SameCopies(done + [open], ps) && next == open.disp + open.len * open.e
    requires q == open.(len := q.len, disp := next) && more == open.(len := open.len + q.len)
    ensures SameCopies(done + [more], ps + [q])
  {
    SetsWith(ps, q);
    SetsWith(done, open);
    SetsWith(done, more);
    SetsJoin(Lbs(ps), Lbs(done), open.len, q.len, open.disp + open.lb, q.disp + q.lb, open.e);
    SetsJoin(Ubs(ps), Ubs(done), open.len, q.len, open.disp + open.ub, q.disp + q.ub, open.e);
  }

  lemma SetsJoin(all: set<int>, done: set<int>, a: nat, b: nat, d: int, next: int, e: int)
    requires all == done + Starts(a, d, e) && next == d + a * e
    ensures all + Starts(b, next, e) == done + Starts(a + b, d, e)
  {
    StartsSplit(a, b, d, e);
  }

  lemma CopiesClose(done: seq<Placed>, ps: seq<Placed>, i: nat)
    requires i < |ps| && SameCopies(done, ps[..i])
    ensures SameCopies(done + [ps[i]], ps[..i + 1])
  {
    assert ps[..i + 1] == ps[..i] + [ps[i]];
    OneMore(done, ps[..i], ps[i]);
  }

  lemma OneMore(done: seq<Placed>, ps: seq<Placed>, p: Placed)
    requires SameCopies(done, ps)
    ensures SameCopies(done + [p], ps + [p])
  {
    SetsWith(ps, p);
    SetsWith(done, p);
  }
}
