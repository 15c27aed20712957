/** Bounds of small datatypes (opal/datatype/opal_datatype_add.c), and blocks whose padding adds up. */
module BoundsExamples {
  import opened Arithmetic
  import opened BlockBounds
  import opened Indexed
  import opened TypeMap

  /** A 4-byte element at 0 and another one at 8. */
  method TwoApart() returns (r: Datatype)
    ensures r.lb == 0 && r.ub == 12 && r.align == 4 && r.tmap == [Entry(0, 0), Entry(0, 8)]
  {
    var t := new Datatype.Basic(0, 4, 4);
    ghost var bs := IndexedBlocks(t.tmap, t.Extent(), [1, 1], [0, 8], 1);
    ghost var ps := Places(t, bs);
    r := CreateHindexed([1, 1], [0, 8], t);
    TwoBlocks(bs);
    assert ps == [Placed(1, 0, 4, 0, 4, 4), Placed(1, 8, 4, 0, 4, 4)];
    assert HasBlocks(r, Common(false, false), ps);
    TwoAligned(r.Limits(), r.align, ps[0], ps[1]);
  }

  /** One element at 0 and another one at a multiple of its alignment. */
  lemma TwoAligned(b: Bounds, align: int, x: Placed, y: Placed)
    requires Holds(b, align, [x, y], false, false) && x.len == 1 && y.len == 1
    requires x.lb == y.lb == x.disp == 0 && x.ub == y.ub && x.grain == y.grain && 0 <= x.ub <= LONG_MAX
    requires 1 <= x.grain && 0 <= y.disp <= LONG_MAX && y.disp % x.grain == 0 && x.ub % x.grain == 0
    ensures b.lb == 0 && b.ub == y.disp + x.ub && align == x.grain
  {
    var ps, d := [x, y], y.disp;
    TwoSets(x, y);
    AnyTwo(b, ps, Lbs(ps), Ubs(ps), d, x.ub);
    var top :| Greatest(top, Ubs(ps)) && PaddedOver(b.lb, b.ub, top, ps, false);
    RegularOne(Shapes(ps), Shape(0, x.ub, x.grain));
    TwoBounds(b.lb, b.ub, top, Lbs(ps), d, x.ub, x.grain);
  }

  lemma AnyTwo(b: Bounds, ps: seq<Placed>, l: set<int>, u: set<int>, d: int, size: int)
    requires Holds(b, Grain(ps), ps, false, false) && l == Lbs(ps) && u == Ubs(ps)
    requires l == {0, d} && u == {size, d + size} && 0 <= d <= LONG_MAX && 0 <= size
    ensures BoundsOf(b.lb, b.ub, ps, false)
  {
    assert 0 in l;
    assert Fits(ps);
  }

  lemma RegularOne(s: set<Shape>, x: Shape)
    requires s == {x} && x.lb <= x.ub && x.grain >= 1
    ensures Regular(s)
  {
    assert x.grain % x.grain == 0;
  }

  lemma TwoBounds(lb: int, ub: int, top: int, s: set<int>, d: int, size: int, grain: int)
    requires grain > 0 && d >= 0 && d % grain == 0 && size % grain == 0
    requires Least(lb, s) && s == {0, d} && Greatest(top, {size, d + size}) && Over(lb, ub, top, s, true, grain, false)
    ensures lb == 0 && ub == d + size
  {
    DivMod(d, grain);
    DivMod(size, grain);
    DivisionIsUnique(-d, grain, -(d / grain), 0);
    DivisionIsUnique(d + size, grain, d / grain + size / grain, 0);
    assert Congruent(s, grain);
    ExactPadding(ub, d + size, grain);
  }

  lemma TwoBlocks(bs: seq<Block>)
    requires bs == [Block([Entry(0, 0)], 1, 0, 4), Block([Entry(0, 0)], 1, 8, 4)]
    ensures Blocks(bs) == [Entry(0, 0), Entry(0, 8)]
  {
    assert bs[..1] == [bs[0]] && bs[..1][..0] == [];
    CopiesOnce(bs[0].m, 0, 4);
    CopiesOnce(bs[1].m, 8, 4);
    assert Blocks([]) == [] && Blocks(bs[..1]) == [Entry(0, 0)];
  }

  lemma TwoSets(x: Placed, y: Placed)
    requires x.len == 1 && y.len == 1 && x.lb == y.lb && x.ub == y.ub && x.grain == y.grain >= 1
    ensures Lbs([x, y]) == {x.disp + x.lb, y.disp + y.lb} && Ubs([x, y]) == {x.disp + x.ub, y.disp + y.ub}
    ensures Grain([x, y]) == x.grain && Shapes([x, y]) == {Shape(x.lb, x.ub, x.grain)}
  {
    assert [x, y] == ([] + [x]) + [y];
    SetsWith([], x);
    SetsWith([] + [x], y);
    OneStart(x.disp + x.lb, x.e);
    OneStart(x.disp + x.ub, x.e);
    OneStart(y.disp + y.lb, y.e);
    OneStart(y.disp + y.ub, y.e);
  }

  lemma OneStart(d: int, e: int)
    ensures Starts(1, d, e) == {d}
  {
    assert CopyStart(d, e, 0) == d;
  }

  lemma ExactPadding(ub: int, high: int, grain: int)
    requires grain > 0 && high <= ub < high + grain && ub % grain == 0 && high % grain == 0
    ensures ub == high
  {
    DivMod(ub, grain);
    DivMod(high, grain);
    ProductBound(ub / grain - high / grain, grain);
    assert (ub / grain - high / grain) * grain == ub - high;
  }

  /** An element with the bounds 0 and 5 and alignment 4 at 0 and then at -1: the second addition pads the padding
      of the first.  The upper bound is 11 instead of 7, although no copy ends behind 5. */
  lemma PaddingAddsUp()
    ensures Padded(0, SpanUb(1, 0, 5, 5), 4) == 8
    ensures JoinedLb(0, false, SpanLb(1, -1, 0, 5), false) == -1
    ensures Padded(-1, JoinedUb(8, false, SpanUb(1, -1, 5, 5), false), 4) == 11
    ensures PaddedFrom(7, 5, -1, 4) && !PaddedFrom(11, 5, -1, 4)
  {
    assert Remainder(5, 4) == 1 && Remainder(9, 4) == 1;
  }
}
