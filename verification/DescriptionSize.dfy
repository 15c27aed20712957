/** Whether the buffer allocated from total_pack_size holds the packed description
    (ompi/datatype/ompi_datatype_args.c), on a machine that needs no alignment padding. */
module DescriptionSize {
  import opened Description

  /** The number of words `Pack` produces. */
  function WordCount(t: Type): (n: nat)
    decreases t, 0
  {
    match t
    case Predefined(_) => 2
    case F90(_, _, _) => 2
    case Derived(c, ints, aints, kids, _) =>
      if c.Dup? && |kids| == 1 then WordCount(kids[0])
      else 4 + 2 * |aints| + |kids| + |ints| + KidsWordCount(kids)
  }

  function KidsWordCount(kids: seq<Type>): (n: nat)
    decreases kids, 1
  {
    if kids == [] then 0
    else
      var k := kids[|kids| - 1];
      KidsWordCount(kids[..|kids| - 1]) + (if k.Derived? then WordCount(k) else 0)
  }

  lemma {:induction false} PackHasWordCount(t: Type, next: nat)
    ensures |Pack(t, next).words| == WordCount(t)
    decreases t, 0
  {
    if t.Derived? {
      if t.c.Dup? && |t.kids| == 1 {
        PackHasWordCount(t.kids[0], next);
      } else {
        PackKidsHasWordCount(t.kids, next);
      }
    }
  }

  lemma {:induction false} PackKidsHasWordCount(kids: seq<Type>, next: nat)
    ensures |PackKids(kids, next).bodies| == KidsWordCount(kids)
    decreases kids, 1
  {
    if kids != [] {
      var init, k := kids[..|kids| - 1], kids[|kids| - 1];
      PackKidsHasWordCount(init, next);
      if k.Derived? {
        PackHasWordCount(k, PackKids(init, next).next + 1);
      }
    }
  }

  function Bytes(t: Type): (n: nat) { INT_SIZE * WordCount(t) }

  /** A duplicate made directly from a handle flagged predefined, be it a named type or a Fortran 90 one. */
  predicate IsShort(t: Type) {
    t.Derived? && t.c.Dup? && |t.kids| == 1 && !t.kids[0].Derived?
  }

  /** Everywhere in the tree the recorded size suffices, up to one int for such duplicates. */
  predicate Enough(t: Type) {
    t.Derived? ==>
      && Bytes(t) <= t.packSize + (if IsShort(t) then INT_SIZE else 0)
      && forall k :: k in t.kids ==> Enough(k)
  }

  lemma {:induction false} KidsSizeCovers(kids: seq<Type>)
    requires forall k :: k in kids ==> Enough(k)
    ensures INT_SIZE * KidsWordCount(kids) <= KidsSize(kids)
  {
    if kids != [] {
      var k := kids[|kids| - 1];
      assert k in kids && Enough(k);
      KidsSizeCovers(kids[..|kids| - 1]);
    }
  }

  /** Every constructor keeps the bound: the slack of one int per component pays for the components
      that are short themselves. */
  lemma SetArgsEnough(c: Combiner, ints: seq<int>, aints: seq<int>, kids: seq<Type>)
    requires (forall k :: k in kids ==> Enough(k)) && (c.Dup? ==> |kids| == 1)
    ensures Enough(SetArgs(c, ints, aints, kids))
  {
    var t := SetArgs(c, ints, aints, kids);
    if c.Dup? {
      DupSize(kids[0]);
      assert kids == [kids[0]] && kids[0] in kids && Enough(kids[0]);
      assert WordCount(t) == WordCount(kids[0]);
    } else {
      KidsSizeCovers(kids);
      assert WordCount(t) == 4 + 2 * |aints| + |kids| + |ints| + KidsWordCount(kids);
    }
  }

  /** A duplicate stores nothing of its own: its size is its component's and one int more. */
  lemma DupSize(k: Type)
    ensures KidsSize([k]) == (if k.Derived? then k.packSize else 0) + INT_SIZE
  {
    assert [k][..0] == [];
  }

  /** The precomputed size is large enough exactly when the datatype is not a duplicate made directly
      from a handle flagged predefined; for that one the description is four bytes too long. */
  lemma SizeSuffices(c: Combiner, ints: seq<int>, aints: seq<int>, kids: seq<Type>)
    requires (forall k :: k in kids ==> Enough(k)) && (c.Dup? ==> |kids| == 1)
    ensures var t := SetArgs(c, ints, aints, kids);
            && (Bytes(t) <= t.packSize <==> !IsShort(t))
            && (IsShort(t) ==> Bytes(t) == t.packSize + INT_SIZE)
  {
    var t := SetArgs(c, ints, aints, kids);
    SetArgsEnough(c, ints, aints, kids);
    if IsShort(t) {
      DupSize(kids[0]);
      assert kids == [kids[0]] && WordCount(t) == WordCount(kids[0]);
    }
  }

  /** The description of such a duplicate takes eight bytes, for which four were recorded: for a
      duplicate of a named type as well as for one of a Fortran 90 type. */
  lemma ShortDuplicate(k: Type)
    requires !k.Derived?
    ensures var t := SetArgs(Dup, [], [], [k]);
            t.packSize == 4 && Bytes(t) == 8 && Pack(t, MAX_PREDEFINED).words == [Code(Named), k.id]
  {
    var t := SetArgs(Dup, [], [], [k]);
    DupSize(k);
    assert t.kids[0] == k && WordCount(t) == WordCount(k) == 2;
  }

  /** `t'` is `t` after some of the datatypes in it, at any depth, have been packed on their own, which
      makes their recorded sizes exact. */
  predicate Corrected(t: Type, t': Type) {
    if !t.Derived? then t' == t
    else
      && t'.Derived? && t'.c == t.c && t'.ints == t.ints && t'.aints == t.aints && |t'.kids| == |t.kids|
      && (t'.packSize == t.packSize || t'.packSize == Bytes(t))
      && forall i :: 0 <= i < |t.kids| ==> Corrected(t.kids[i], t'.kids[i])
  }

  lemma {:induction false} CorrectedWordCount(t: Type, t': Type)
    requires Corrected(t, t')
    ensures WordCount(t') == WordCount(t) && (IsShort(t') <==> IsShort(t))
    decreases t, 0
  {
    if t.Derived? {
      if t.c.Dup? && |t.kids| == 1 {
        CorrectedWordCount(t.kids[0], t'.kids[0]);
      } else {
        CorrectedKids(t.kids, t'.kids);
      }
      if |t.kids| == 1 {
        assert Corrected(t.kids[0], t'.kids[0]);
      }
    }
  }

  lemma {:induction false} CorrectedKids(kids: seq<Type>, kids': seq<Type>)
    requires |kids'| == |kids| && forall i :: 0 <= i < |kids| ==> Corrected(kids[i], kids'[i])
    ensures KidsWordCount(kids') == KidsWordCount(kids)
    decreases kids, 1
  {
    if kids != [] {
      var n := |kids| - 1;
      CorrectedKids(kids[..n], kids'[..n]);
      CorrectedWordCount(kids[n], kids'[n]);
    }
  }

  /** Packing components on their own, at any depth, does not hurt the datatypes that were built from
      them before. */
  lemma {:induction false} RepackedComponents(t: Type, t': Type)
    requires Corrected(t, t') && Enough(t)
    ensures Enough(t')
  {
    if t.Derived? {
      CorrectedWordCount(t, t');
      forall q | q in t'.kids
        ensures Enough(q)
      {
        var i :| 0 <= i < |t'.kids| && t'.kids[i] == q;
        assert t.kids[i] in t.kids;
        RepackedComponents(t.kids[i], q);
      }
    }
  }

  /** ompi_datatype_get_pack_description: allocates by the recorded size, packs, and records the
      exact size.  It never writes outside the buffer if the datatype is not short. */
  method GetPackDescription(t: Type) returns (buf: array<int>, t': Type)
    requires WellFormed(t) && Enough(t) && (IsShort(t) ==> Bytes(t) <= t.packSize)
    ensures fresh(buf) && Has(buf[..], 0, Pack(t, MAX_PREDEFINED).words)
    ensures t' == (if t.Derived? then t.(packSize := Bytes(t)) else t) && Enough(t')
  {
    PackHasWordCount(t, MAX_PREDEFINED);
    buf := new int[if t.Derived? then t.packSize / INT_SIZE else 2];
    var end, next := PackInto(t, buf, 0, MAX_PREDEFINED);
    t' := if t.Derived? then t.(packSize := end * INT_SIZE) else t;
    if t.Derived? {
      SameWords(t, t');
    }
  }

  lemma SameWords(t: Type, t': Type)
    requires t.Derived? && t'.Derived? && t' == t.(packSize := t'.packSize)
    ensures WordCount(t') == WordCount(t)
  {
  }
}
