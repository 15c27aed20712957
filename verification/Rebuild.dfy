/** Rebuilding a datatype from its packed description (ompi/datatype/ompi_datatype_args.c). */
module Rebuild {
  import opened Description
  import opened Options

  // ---------------------------------------------------------------------------
  // What comes back
  // ---------------------------------------------------------------------------

  function Normal(c: Combiner): (n: Combiner) {
    match c
    case HvectorInteger => Hvector
    case HindexedInteger => Hindexed
    case StructInteger => Struct
    case _ => c
  }

  /** The datatype without duplicates, with the Fortran constructors replaced by their C equivalents and
      the Fortran 90 types by their base types. */
  function Norm(t: Type): (n: Type)
    decreases t, 0
  {
    match t
    case Predefined(_) => t
    case F90(id, _, _) => Predefined(id)
    case Derived(c, ints, aints, kids, _) =>
      if c.Dup? && |kids| == 1 then Norm(kids[0]) else SetArgs(Normal(c), ints, aints, NormAll(kids))
  }

  function NormAll(kids: seq<Type>): (n: seq<Type>)
    ensures |n| == |kids|
    decreases kids, 1
  {
    if kids == [] then [] else NormAll(kids[..|kids| - 1]) + [Norm(kids[|kids| - 1])]
  }

  /** Which constructor a rebuilt datatype shows: the Fortran forms of three of them come back as the C ones. */
  predicate SameCombiner(c: Combiner, d: Combiner) {
    || (c.HvectorInteger? && d.Hvector?) || (c.HindexedInteger? && d.Hindexed?) || (c.StructInteger? && d.Struct?)
    || (!c.HvectorInteger? && !c.HindexedInteger? && !c.StructInteger? && c == d)
  }

  /** `r` is built like `t`, with the same arguments throughout, but for duplicates and for the handles of
      Fortran 90 types. */
  ghost predicate SameType(t: Type, r: Type)
    decreases t
  {
    match t
    case Predefined(id) => r == Predefined(id)
    case F90(id, _, _) => r == Predefined(id)
    case Derived(c, ints, aints, kids, _) =>
      if c.Dup? then |kids| == 1 && SameType(kids[0], r)
      else
        && r.Derived? && SameCombiner(c, r.c) && r.ints == ints && r.aints == aints && |r.kids| == |kids|
        && forall i :: 0 <= i < |kids| ==> SameType(kids[i], r.kids[i])
  }

  lemma {:induction false} NormAt(kids: seq<Type>, i: nat)
    requires i < |kids|
    ensures NormAll(kids)[i] == Norm(kids[i])
  {
    if i < |kids| - 1 {
      NormAt(kids[..|kids| - 1], i);
    }
  }

  lemma {:induction false} NormIsSame(t: Type)
    requires WellFormed(t)
    ensures SameType(t, Norm(t))
  {
    if t.Derived? {
      forall i | 0 <= i < |t.kids|
        ensures SameType(t.kids[i], Norm(t.kids[i])) && NormAll(t.kids)[i] == Norm(t.kids[i])
      {
        assert t.kids[i] in t.kids;
        NormIsSame(t.kids[i]);
        NormAt(t.kids, i);
      }
    }
  }

  /** The first type under a chain of duplicates. */
  function Strip(t: Type): (s: Type) {
    if t.Derived? && t.c.Dup? && |t.kids| == 1 then Strip(t.kids[0]) else t
  }

  /** Every DARRAY type in the tree is spread over as many processes as it has dimensions. */
  predicate Square(t: Type) {
    match t
    case Predefined(_) => true
    case F90(_, _, _) => true
    case Derived(c, ints, _, kids, _) =>
      (c.Darray? ==> |ints| > 2 && ints[0] == ints[2]) && (forall k :: k in kids ==> Square(k))
  }

  lemma {:induction false} StripIsSame(t: Type, next: nat)
    requires WellFormed(t)
    ensures WellFormed(Strip(t)) && (Square(t) ==> Square(Strip(t))) && (Strip(t).Derived? ==> !Strip(t).c.Dup?)
    ensures Pack(Strip(t), next) == Pack(t, next) && Norm(Strip(t)) == Norm(t)
    ensures Strip(t) == t || Strip(t) < t
  {
    if t.Derived? && t.c.Dup? {
      assert t.kids[0] in t.kids && t.kids == [t.kids[0]];
      StripIsSame(t.kids[0], next);
    }
  }

  // ---------------------------------------------------------------------------
  // __ompi_datatype_create_from_args
  // ---------------------------------------------------------------------------

  /** Each case passes the stored arguments on, piece by piece.  The DARRAY case finds its pieces by
      the process count in `i[0]`, although they were stored by the number of dimensions in `i[2]`; `mem`
      is what lies in memory behind the integers.  The Fortran 90 cases are never reached, since such
      types are not packed as derived ones. */
  function CreateFromArgs(c: Combiner, i: seq<int>, mem: int -> int, a: seq<int>, d: seq<Type>): (t: Option<Type>)
    requires Shape(c, i, a, d)
  {
    match c
    case Named => None
    case Dup => None
    case Contiguous => Some(SetArgs(Contiguous, [i[0]], [], d))
    case Vector => Some(SetArgs(Vector, [i[0], i[1], i[2]], [], d))
    case HvectorInteger => Some(SetArgs(Hvector, [i[0], i[1]], a[..1], d))
    case Hvector => Some(SetArgs(Hvector, [i[0], i[1]], a[..1], d))
    case Indexed => Some(SetArgs(Indexed, IndexedInts(i), [], d))
    case HindexedInteger => Some(SetArgs(Hindexed, CountedInts(i), a[..i[0]], d))
    case Hindexed => Some(SetArgs(Hindexed, CountedInts(i), a[..i[0]], d))
    case IndexedBlock => Some(SetArgs(IndexedBlock, BlockInts(i), [], d))
    case StructInteger => Some(SetArgs(Struct, CountedInts(i), a[..i[0]], d[..i[0]]))
    case Struct => Some(SetArgs(Struct, CountedInts(i), a[..i[0]], d[..i[0]]))
    case Subarray => Some(SetArgs(Subarray, SubarrayInts(i), [], d))
    case Darray => Some(SetArgs(Darray, DarrayInts(i, mem), [], d))
    case F90Real => None
    case F90Complex => None
    case F90Integer => None
    case Resized => Some(SetArgs(Resized, [], a[..2], d))
    case HindexedBlock => Some(SetArgs(HindexedBlock, [i[0], i[1]], a[..i[0]], d))
  }

  function CountedInts(i: seq<int>): (r: seq<int>)
    requires |i| > 0 && |i| == i[0] + 1
    ensures r == i
  {
    [i[0]] + Piece(i, 1, i[0])
  }

  function BlockInts(i: seq<int>): (r: seq<int>)
    requires |i| > 1 && |i| == i[0] + 2
    ensures r == i
  {
    [i[0], i[1]] + Piece(i, 2, i[0])
  }

  function IndexedInts(i: seq<int>): (r: seq<int>)
    requires |i| > 0 && i[0] >= 0 && |i| == 2 * i[0] + 1
    ensures r == i
  {
    IndexedPieces(i, i[0]);
    [i[0]] + Piece(i, 1, i[0]) + Piece(i, 1 + i[0], i[0])
  }

  function SubarrayInts(i: seq<int>): (r: seq<int>)
    requires |i| > 0 && i[0] >= 0 && |i| == 3 * i[0] + 2
    ensures r == i
  {
    SubarrayPieces(i, i[0]);
    [i[0]] + Piece(i, 1, i[0]) + Piece(i, 1 + i[0], i[0]) + Piece(i, 1 + 2 * i[0], i[0]) + [i[1 + 3 * i[0]]]
  }

  /** The integer at `k`, counted from the first one. */
  function Word(i: seq<int>, mem: int -> int, k: int): (w: int) { if 0 <= k < |i| then i[k] else mem(k) }

  function Words(i: seq<int>, mem: int -> int, at: nat, n: nat): (p: seq<int>)
    ensures |p| == n
  {
    if n == 0 then [] else Words(i, mem, at, n - 1) + [Word(i, mem, at + n - 1)]
  }

  function DarrayInts(i: seq<int>, mem: int -> int): (r: seq<int>)
    requires |i| > 3 && i[0] >= 1 && i[2] >= 0 && |i| == 4 * i[2] + 4
    ensures |r| == |i|
  {
    var size, n := i[0], i[2];
    [i[0], i[1], i[2]] + Words(i, mem, 3, n) + Words(i, mem, 3 + size, n) + Words(i, mem, 3 + 2 * size, n)
    + Words(i, mem, 3 + 3 * size, n) + [Word(i, mem, 3 + 4 * size)]
  }

  lemma {:induction false} WordsAt(i: seq<int>, mem: int -> int, at: nat, n: nat, k: nat)
    requires k < n
    ensures Words(i, mem, at, n)[k] == Word(i, mem, at + k)
  {
    if k < n - 1 {
      WordsAt(i, mem, at, n - 1, k);
    }
  }

  lemma DarrayKept(i: seq<int>, mem: int -> int)
    requires |i| > 3 && i[0] == i[2] >= 1 && |i| == 4 * i[2] + 4
    ensures DarrayInts(i, mem) == i
  {
    var n: nat := i[2];
    assert i[..3] == [i[0], i[1], i[2]];
    WordsGrow(i, mem, 3, n);
    WordsGrow(i, mem, 3 + n, n);
    WordsGrow(i, mem, 3 + 2 * n, n);
    WordsGrow(i, mem, 3 + 3 * n, n);
    assert i[..3 + 4 * n] + [i[3 + 4 * n]] == i;
  }

  /** A prefix and the words read behind it make a longer prefix. */
  lemma WordsGrow(i: seq<int>, mem: int -> int, at: nat, n: nat)
    requires at + n <= |i|
    ensures i[..at] + Words(i, mem, at, n) == i[..at + n]
  {
    WordsArePiece(i, mem, at, n);
  }

  lemma {:induction false} WordsArePiece(i: seq<int>, mem: int -> int, at: nat, n: nat)
    requires at + n <= |i|
    ensures Words(i, mem, at, n) == Piece(i, at, n)
  {
    if n > 0 {
      WordsArePiece(i, mem, at, n - 1);
    }
  }

  function Piece(i: seq<int>, at: int, n: int): (p: seq<int>)
    requires 0 <= at && 0 <= n && at + n <= |i|
  {
    i[at..at + n]
  }

  /** A prefix and the piece behind it make a longer prefix. */
  lemma PrefixGrows(i: seq<int>, k: nat, n: nat)
    requires k + n <= |i|
    ensures i[..k] + Piece(i, k, n) == i[..k + n]
  {
  }

  lemma IndexedPieces(i: seq<int>, n: nat)
    requires |i| == 2 * n + 1
    ensures [i[0]] + Piece(i, 1, n) + Piece(i, 1 + n, n) == i
  {
    assert i[..1] == [i[0]];
    PrefixGrows(i, 1, n);
    PrefixGrows(i, 1 + n, n);
    assert i[..1 + n + n] == i;
  }

  lemma SubarrayPieces(i: seq<int>, n: nat)
    requires |i| == 3 * n + 2
    ensures [i[0]] + Piece(i, 1, n) + Piece(i, 1 + n, n) + Piece(i, 1 + 2 * n, n) + [i[1 + 3 * n]] == i
  {
    assert i[..1] == [i[0]];
    PrefixGrows(i, 1, n);
    PrefixGrows(i, 1 + n, n);
    PrefixGrows(i, 1 + 2 * n, n);
    assert i[..1 + 3 * n] + [i[1 + 3 * n]] == i;
  }

  lemma CreateKeepsArgs(c: Combiner, i: seq<int>, mem: int -> int, a: seq<int>, d: seq<Type>)
    requires Shape(c, i, a, d) && !c.Dup? && (c.Darray? ==> i[0] == i[2])
    ensures CreateFromArgs(c, i, mem, a, d) == if IsF90(c) then None else Some(SetArgs(Normal(c), i, a, d))
  {
    assert |i| == 1 ==> [i[0]] == i;
    assert |i| == 2 ==> [i[0], i[1]] == i;
    assert |i| == 3 ==> [i[0], i[1], i[2]] == i;
    assert a[..|a|] == a && d[..|d|] == d;
    if c.Darray? {
      DarrayKept(i, mem);
    }
  }

  /** What that means for the arguments. */
  lemma ArgsAreKept(c: Combiner, i: seq<int>, mem: int -> int, a: seq<int>, d: seq<Type>)
    requires Shape(c, i, a, d) && !c.Dup? && !IsF90(c) && (c.Darray? ==> i[0] == i[2])
    ensures var t := CreateFromArgs(c, i, mem, a, d);
            && t.Some? && t.value.Derived? && SameCombiner(c, t.value.c)
            && t.value.ints == i && t.value.aints == a && t.value.kids == d
  {
    CreateKeepsArgs(c, i, mem, a, d);
  }

  /** The first distribution is taken from behind as many sizes as there are processes. */
  lemma DarrayMisread(i: seq<int>, mem: int -> int, n: nat)
    requires |i| == 4 * n + 4 && n >= 1 && i[0] >= 1 && i[2] == n
    ensures DarrayInts(i, mem)[3 + n] == Word(i, mem, 3 + i[0])
  {
    var head, first, second := [i[0], i[1], i[2]], Words(i, mem, 3, n), Words(i, mem, 3 + i[0], n);
    WordsAt(i, mem, 3 + i[0], n, 0);
    assert (head + first + second)[3 + n] == second[0];
  }

  /** For a given process count and number of dimensions, and whatever lies behind them in memory, all
      DARRAY arguments survive the rebuild if and only if the two numbers are equal. */
  lemma DarraySurvives(size: nat, ndims: nat, mem: int -> int, d: seq<Type>)
    requires size >= 1 && ndims >= 1 && |d| == 1
    ensures size == ndims <==>
            forall i :: Shape(Darray, i, [], d) && i[0] == size && i[2] == ndims ==>
              CreateFromArgs(Darray, i, mem, [], d) == Some(SetArgs(Darray, i, [], d))
  {
    if size == ndims {
      forall i | Shape(Darray, i, [], d) && i[0] == size && i[2] == ndims
        ensures CreateFromArgs(Darray, i, mem, [], d) == Some(SetArgs(Darray, i, [], d))
      {
        CreateKeepsArgs(Darray, i, mem, [], d);
      }
    } else {
      DarrayLost(size, ndims, mem, d);
    }
  }

  /** Arguments that are not restored: the value in the place that is read instead of the first
      distribution differs from it. */
  lemma DarrayLost(size: nat, ndims: nat, mem: int -> int, d: seq<Type>)
    requires size >= 1 && ndims >= 1 && size != ndims && |d| == 1
    ensures exists i :: Shape(Darray, i, [], d) && i[0] == size && i[2] == ndims
                        && CreateFromArgs(Darray, i, mem, [], d) != Some(SetArgs(Darray, i, [], d))
  {
    var v := mem(3 + size);
    var i := seq(4 * ndims + 4, j => if j == 0 then size else if j == 2 then ndims else if j == 3 + ndims then v + 1 else v);
    DarrayMisread(i, mem, ndims);
    var r := DarrayInts(i, mem);
    assert Shape(Darray, i, [], d) && r[3 + ndims] == v != i[3 + ndims];
    assert CreateFromArgs(Darray, i, mem, [], d).value.ints == r != i;
  }

  /** A valid array on one process: its second distribution is rebuilt from the wrong place. */
  lemma DarrayOnOneProcess(mem: int -> int)
    ensures var i := [1, 0, 2, 5, 7, 121, 123, 0, 0, 1, 1, 0];  // sizes 5 x 7, one process, C order
            Shape(Darray, i, [], [Predefined(0)])
            && CreateFromArgs(Darray, i, mem, [], [Predefined(0)])
               == Some(SetArgs(Darray, [1, 0, 2, 5, 7, 7, 121, 121, 123, 123, 0, 0], [], [Predefined(0)]))
  {
    var i := [1, 0, 2, 5, 7, 121, 123, 0, 0, 1, 1, 0];
    WordsArePiece(i, mem, 3, 2);
    WordsArePiece(i, mem, 4, 2);
    WordsArePiece(i, mem, 5, 2);
    WordsArePiece(i, mem, 6, 2);
    assert Piece(i, 3, 2) == [5, 7] && Piece(i, 4, 2) == [7, 121];
    assert Piece(i, 5, 2) == [121, 123] && Piece(i, 6, 2) == [123, 0];
    assert [1, 0, 2] + [5, 7] + [7, 121] + [121, 123] + [123, 0] + [0] == [1, 0, 2, 5, 7, 7, 121, 121, 123, 123, 0, 0];
  }

  // ---------------------------------------------------------------------------
  // Reading a description
  // ---------------------------------------------------------------------------

  /** The first components are packed the same way whatever follows them. */
  lemma {:induction false} KidsPrefix(kids: seq<Type>, i: nat, next: nat)
    requires i <= |kids|
    ensures PackKids(kids[..i], next).slots <= PackKids(kids, next).slots
    ensures PackKids(kids[..i], next).bodies <= PackKids(kids, next).bodies
    decreases |kids|
  {
    if i == |kids| {
      assert kids[..i] == kids;
    } else {
      var init := kids[..|kids| - 1];
      KidsPrefix(init, i, next);
      assert init[..i] == kids[..i];
    }
  }

  /** What the buffer holds for component `i`. */
  lemma KidIsThere(b: seq<int>, slots: nat, bodies: nat, kids: seq<Type>, i: nat, next: nat)
    requires i < |kids| && Has(b, slots, PackKids(kids, next).slots) && Has(b, bodies, PackKids(kids, next).bodies)
    ensures var k := PackKids(kids[..i], next);
            && slots + i < |b|
            && b[slots + i] == (if kids[i].Derived? then k.next else kids[i].id)
            && k.next >= next
            && Has(b, bodies + |k.bodies|, KidBody(kids[i], k.next))
            && |PackKids(kids[..i + 1], next).bodies| == |k.bodies| + |KidBody(kids[i], k.next)|
  {
    KidSizes(kids, i, next);
    KidsPrefix(kids, i + 1, next);
    var k, k', all := PackKids(kids[..i], next), PackKids(kids[..i + 1], next), PackKids(kids, next);
    assert k'.slots[i] == all.slots[i];
    assert k'.bodies == k.bodies + KidBody(kids[i], k.next);
    HasPrefix(b, bodies, k'.bodies, all.bodies);
    HasConcat(b, bodies, k.bodies, KidBody(kids[i], k.next));
  }

  lemma HasSlice(b: seq<int>, at: nat, v: seq<int>)
    requires Has(b, at, v)
    ensures b[at..at + |v|] == v
  {
    forall j | 0 <= j < |v|
      ensures b[at..at + |v|][j] == v[j]
    {
    }
  }

  lemma HasPrefix(b: seq<int>, at: nat, v: seq<int>, w: seq<int>)
    requires Has(b, at, w) && v <= w
    ensures Has(b, at, v)
  {
  }

  /** Where the parts of a packed description lie. */
  lemma PartsAreThere(b: seq<int>, pos: nat, t: Type, next: nat)
    requires t.Derived? && !(t.c.Dup? && |t.kids| == 1) && Has(b, pos, Pack(t, next).words)
    ensures var k, slots := PackKids(t.kids, next), SlotsAt(pos, t.aints);
            && Has(b, pos, [Code(t.c), |t.ints|, |t.aints|, |t.kids|])
            && Has(b, pos + 4, AllAintWords(t.aints))
            && Has(b, slots, k.slots)
            && Has(b, slots + |t.kids|, t.ints)
            && Has(b, slots + |t.kids| + |t.ints|, k.bodies)
            && |Pack(t, next).words| == 4 + 2 * |t.aints| + |t.kids| + |t.ints| + |k.bodies|
  {
    var k := PackKids(t.kids, next);
    var h := [Code(t.c), |t.ints|, |t.aints|, |t.kids|];
    HasConcat(b, pos, h + AllAintWords(t.aints) + k.slots + t.ints, k.bodies);
    HasConcat(b, pos, h + AllAintWords(t.aints) + k.slots, t.ints);
    HasConcat(b, pos, h + AllAintWords(t.aints), k.slots);
    HasConcat(b, pos, h, AllAintWords(t.aints));
  }

  lemma {:induction false} AintsPrefix(xs: seq<int>, i: nat)
    requires i < |xs|
    ensures AllAintWords(xs)[2 * i] == AintWords(xs[i])[0] && AllAintWords(xs)[2 * i + 1] == AintWords(xs[i])[1]
  {
    if i < |xs| - 1 {
      AintsPrefix(xs[..|xs| - 1], i);
    }
  }

  method LoadAints(buf: array<int>, at: nat, n: nat, ghost aints: seq<int>) returns (a: seq<int>)
    requires n == |aints| && Has(buf[..], at, AllAintWords(aints))
    ensures a == aints
  {
    a := [];
    while |a| < n
      invariant |a| <= n && a == aints[..|a|]
    {
      ghost var i := |a|;
      AintsPrefix(aints, i);
      assert buf[..][at + 2 * i] == AllAintWords(aints)[2 * i];
      assert buf[..][at + (2 * i + 1)] == AllAintWords(aints)[2 * i + 1];
      AintRoundTrip(aints[i]);
      a := a + [WordsAint(buf[at + 2 * |a|], buf[at + 2 * |a| + 1])];
    }
  }

  function Decode(code: int): (c: Combiner)
    requires 0 <= code < 19
    ensures Code(c) == code
  {
    Combiners()[code]
  }

  lemma CodesDiffer(c: Combiner, d: Combiner)
    ensures Code(c) == Code(d) <==> c == d
  {
  }

  /** __ompi_datatype_create_from_packed_description.  Whatever datatype `t` was packed at `pos`, reading
      it back succeeds, consumes exactly its words and gives a datatype that is built like `t`. */
  method Unpack(buf: array<int>, pos: nat, ghost t: Type, ghost next: nat) returns (r: Option<Type>, end: nat)
    requires WellFormed(t) && Square(t) && next >= MAX_PREDEFINED && Has(buf[..], pos, Pack(t, next).words)
    ensures r == Some(Norm(t)) && end == pos + |Pack(t, next).words|
    ensures SameType(t, r.value)
    decreases t, 1
  {
    NormIsSame(t);
    ghost var u := Strip(t);
    StripIsSame(t, next);
    ghost var words := Pack(u, next).words;
    assert buf[..][pos + 0] == words[0] && buf[..][pos + 1] == words[1];
    if buf[pos] == Code(Named) {
      if u.Derived? {
        CodesDiffer(u.c, Named);
      }
      return Some(Predefined(buf[pos + 1])), pos + 2;
    }
    r, end := UnpackDerived(buf, pos, u, next);
  }

  method UnpackDerived(buf: array<int>, pos: nat, ghost t: Type, ghost next: nat) returns (r: Option<Type>, end: nat)
    requires WellFormed(t) && Square(t) && t.Derived? && !t.c.Dup? && next >= MAX_PREDEFINED
             && Has(buf[..], pos, Pack(t, next).words)
    ensures r == Some(Norm(t)) && end == pos + |Pack(t, next).words|
    decreases t, 0
  {
    PartsAreThere(buf[..], pos, t, next);
    var c, numLengths, numDisps, numTypes := ReadHeader(buf, pos, t);
    var a := LoadAints(buf, pos + 4, numDisps, t.aints);
    var slots := pos + 4 + 2 * numDisps;
    var i, mem := LoadInts(buf, slots + numTypes, numLengths, t.ints);
    var d: seq<Type>;
    d, end := UnpackKids(buf, slots, slots + numTypes + numLengths, numTypes, t, next);
    r := Construct(c, i, mem, a, d, numTypes, t);
  }

  method LoadInts(buf: array<int>, at: nat, n: nat, ghost ints: seq<int>) returns (i: seq<int>, mem: int -> int)
    requires n == |ints| && Has(buf[..], at, ints)
    ensures i == ints
  {
    i := buf[at..at + n];
    HasSlice(buf[..], at, ints);
    mem := Behind(buf[at..]);
  }

  /** The end of it: the constructor is called if all components were rebuilt. */
  method Construct(c: Combiner, i: seq<int>, mem: int -> int, a: seq<int>, d: seq<Type>, n: nat, ghost t: Type)
    returns (r: Option<Type>)
    requires WellFormed(t) && Square(t) && t.Derived? && !t.c.Dup? && n == |t.kids|
    requires c == t.c && i == t.ints && a == t.aints
    requires d == NormAll(t.kids)
    ensures r == Some(Norm(t))
  {
    ArgsRebuild(t, d, mem);
    r := None;
    if |d| == n {
      r := CreateFromArgs(c, i, mem, a, d);
    }
  }

  /** What can be read from the start of the integers on, as far as the buffer goes. */
  function Behind(b: seq<int>): (mem: int -> int) { k => if 0 <= k < |b| then b[k] else 0 }

  method ReadHeader(buf: array<int>, pos: nat, ghost t: Type)
    returns (c: Combiner, numLengths: nat, numDisps: nat, numTypes: nat)
    requires t.Derived? && Has(buf[..], pos, [Code(t.c), |t.ints|, |t.aints|, |t.kids|])
    ensures c == t.c && numLengths == |t.ints| && numDisps == |t.aints| && numTypes == |t.kids|
  {
    ghost var h := [Code(t.c), |t.ints|, |t.aints|, |t.kids|];
    assert buf[..][pos + 0] == h[0] && buf[..][pos + 1] == h[1] && buf[..][pos + 2] == h[2] && buf[..][pos + 3] == h[3];
    c := Decode(buf[pos]);
    CodesDiffer(c, t.c);
    numLengths, numDisps, numTypes := buf[pos + 1], buf[pos + 2], buf[pos + 3];
  }

  /** With the components rebuilt, the constructor gives the normalised datatype. */
  lemma ArgsRebuild(t: Type, d: seq<Type>, mem: int -> int)
    requires WellFormed(t) && Square(t) && t.Derived? && !t.c.Dup? && d == NormAll(t.kids)
    ensures Shape(t.c, t.ints, t.aints, d) && CreateFromArgs(t.c, t.ints, mem, t.aints, d) == Some(Norm(t))
  {
    CreateKeepsArgs(t.c, t.ints, mem, t.aints, d);
  }

  lemma NormStep(kids: seq<Type>, i: nat)
    requires i < |kids|
    ensures NormAll(kids[..i + 1]) == NormAll(kids[..i]) + [Norm(kids[i])]
  {
    assert kids[..i + 1][..i] == kids[..i];
  }

  /** The loop over the components, which would stop at one that cannot be rebuilt. */
  method UnpackKids(buf: array<int>, slots: nat, bodies: nat, n: nat, ghost t: Type, ghost next: nat)
    returns (d: seq<Type>, end: nat)
    requires WellFormed(t) && Square(t) && t.Derived? && next >= MAX_PREDEFINED && n == |t.kids|
    requires Has(buf[..], slots, PackKids(t.kids, next).slots) && Has(buf[..], bodies, PackKids(t.kids, next).bodies)
    ensures d == NormAll(t.kids) && end == bodies + |PackKids(t.kids, next).bodies|
    decreases t.kids, 1
  {
    d, end := [], bodies;
    while |d| < n
      invariant |d| <= n && d == NormAll(t.kids[..|d|])
      invariant end == bodies + |PackKids(t.kids[..|d|], next).bodies|
    {
      ghost var i := |d|;
      NormStep(t.kids, i);
      assert t.kids[i] in t.kids;
      var k;
      k, end := UnpackKid(buf, slots + |d|, end, slots, bodies, t.kids, i, next);
      if k.None? {
        break;
      }
      d := d + [k.value];
    }
    assert t.kids[..n] == t.kids;
  }

  method UnpackKid(buf: array<int>, slot: nat, at: nat, ghost slots: nat, ghost bodies: nat, ghost kids: seq<Type>,
                   ghost i: nat, ghost next: nat) returns (r: Option<Type>, end: nat)
    requires i < |kids| && WellFormed(kids[i]) && Square(kids[i]) && next >= MAX_PREDEFINED
    requires Has(buf[..], slots, PackKids(kids, next).slots) && Has(buf[..], bodies, PackKids(kids, next).bodies)
    requires slot == slots + i && at == bodies + |PackKids(kids[..i], next).bodies|
    ensures r == Some(Norm(kids[i])) && end == bodies + |PackKids(kids[..i + 1], next).bodies|
    decreases kids, 0
  {
    KidIsThere(buf[..], slots, bodies, kids, i, next);
    var id := buf[slot];
    if id < MAX_PREDEFINED {
      r, end := Some(Predefined(id)), at;
    } else {
      r, end := Unpack(buf, at, kids[i], PackKids(kids[..i], next).next + 1);
    }
  }
}
