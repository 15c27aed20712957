/** Datatype descriptions (ompi/datatype/ompi_datatype_args.c): what a derived datatype remembers of
    its construction, and the words it is packed into. */
module Description {

  const MAX_PREDEFINED := 47
  const INT_SIZE := 4
  const AINT_SIZE := 8

  datatype Combiner =
    | Named | Dup | Contiguous | Vector | HvectorInteger | Hvector | Indexed | HindexedInteger | Hindexed
    | IndexedBlock | StructInteger | Struct | Subarray | Darray | F90Real | F90Complex | F90Integer | Resized | HindexedBlock

  function Code(c: Combiner): (n: int) {
    match c
    case Named => 0 case Dup => 1 case Contiguous => 2 case Vector => 3 case HvectorInteger => 4 case Hvector => 5
    case Indexed => 6 case HindexedInteger => 7 case Hindexed => 8 case IndexedBlock => 9 case StructInteger => 10
    case Struct => 11 case Subarray => 12 case Darray => 13 case F90Real => 14 case F90Complex => 15
    case F90Integer => 16 case Resized => 17 case HindexedBlock => 18
  }

  function Combiners(): (s: seq<Combiner>) {
    [Named, Dup, Contiguous, Vector, HvectorInteger, Hvector, Indexed, HindexedInteger, Hindexed, IndexedBlock,
     StructInteger, Struct, Subarray, Darray, F90Real, F90Complex, F90Integer, Resized, HindexedBlock]
  }

  predicate IsF90(c: Combiner) { c.F90Real? || c.F90Complex? || c.F90Integer? }

  /** A datatype handle with its stored arguments.  `packSize` is `total_pack_size`, in bytes.  The
      handle of a Fortran 90 type is flagged predefined like the named ones: it is a copy of the base
      type chosen for it, whose `id` it keeps, together with the parameters it was asked for. */
  datatype Type =
    | Predefined(id: nat)
    | F90(id: nat, form: Combiner, params: seq<int>)
    | Derived(c: Combiner, ints: seq<int>, aints: seq<int>, kids: seq<Type>, packSize: nat)

  // ---------------------------------------------------------------------------
  // Storing the arguments
  // ---------------------------------------------------------------------------

  /** What the loop over the component types adds to total_pack_size. */
  function KidsSize(kids: seq<Type>): (n: nat) {
    if kids == [] then 0
    else
      var k := kids[|kids| - 1];
      KidsSize(kids[..|kids| - 1]) + (if k.Derived? then k.packSize else 0) + INT_SIZE
  }

  /** ompi_datatype_set_args: the arguments are kept and the size of the description is precomputed. */
  function SetArgs(c: Combiner, ints: seq<int>, aints: seq<int>, kids: seq<Type>): (t: Type)
    ensures t.Derived? && t.c == c && t.ints == ints && t.aints == aints && t.kids == kids
  {
    var own := if c.Dup? then 0 else (4 + |ints| + |kids|) * INT_SIZE + |aints| * AINT_SIZE;
    Derived(c, ints, aints, kids, own + KidsSize(kids))
  }

  /** The argument lists each constructor stores. */
  predicate Shape(c: Combiner, ints: seq<int>, aints: seq<int>, kids: seq<Type>) {
    match c
    case Named => false
    case Dup => ints == [] && aints == [] && |kids| == 1
    case Contiguous => |ints| == 1 && aints == [] && |kids| == 1
    case Vector => |ints| == 3 && aints == [] && |kids| == 1
    case HvectorInteger => |ints| == 2 && |aints| == 1 && |kids| == 1
    case Hvector => |ints| == 2 && |aints| == 1 && |kids| == 1
    case Indexed => |ints| > 0 && ints[0] >= 0 && |ints| == 2 * ints[0] + 1 && aints == [] && |kids| == 1
    case HindexedInteger => |ints| > 0 && ints[0] == |aints| && |ints| == ints[0] + 1 && |kids| == 1
    case Hindexed => |ints| > 0 && ints[0] == |aints| && |ints| == ints[0] + 1 && |kids| == 1
    case IndexedBlock => |ints| > 0 && ints[0] >= 0 && |ints| == ints[0] + 2 && aints == [] && |kids| == 1
    case StructInteger => |ints| > 0 && ints[0] == |aints| == |kids| && |ints| == ints[0] + 1
    case Struct => |ints| > 0 && ints[0] == |aints| == |kids| && |ints| == ints[0] + 1
    case Subarray => |ints| > 0 && ints[0] >= 0 && |ints| == 3 * ints[0] + 2 && aints == [] && |kids| == 1
    case Darray => |ints| > 3 && ints[0] >= 1 && ints[2] >= 0 && |ints| == 4 * ints[2] + 4 && aints == [] && |kids| == 1
    case F90Real => |ints| == 2 && aints == [] && kids == []
    case F90Complex => |ints| == 2 && aints == [] && kids == []
    case F90Integer => |ints| == 1 && aints == [] && kids == []
    case Resized => ints == [] && |aints| == 2 && |kids| == 1
    case HindexedBlock => |ints| == 2 && ints[0] == |aints| && |kids| == 1
  }

  predicate IsWord(x: int) { -0x8000_0000 <= x < 0x8000_0000 }

  predicate IsAint(x: int) { -0x8000_0000_0000_0000 <= x < 0x8000_0000_0000_0000 }

  /** A tree the MPI constructors can have built. */
  predicate WellFormed(t: Type) {
    match t
    case Predefined(id) => id < MAX_PREDEFINED
    case F90(id, form, params) => id < MAX_PREDEFINED && IsF90(form) && Shape(form, params, [], [])
    case Derived(c, ints, aints, kids, _) =>
      && Shape(c, ints, aints, kids) && !IsF90(c)
      && (forall i :: 0 <= i < |ints| ==> IsWord(ints[i]))
      && (forall i :: 0 <= i < |aints| ==> IsAint(aints[i]))
      && (forall k :: k in kids ==> WellFormed(k))
  }

  // ---------------------------------------------------------------------------
  // The packed form
  // ---------------------------------------------------------------------------

  /** An MPI_Aint is two words, the low one first. */
  function AintWords(x: int): (w: seq<int>)
    ensures |w| == 2
  {
    var low := x % 0x1_0000_0000;
    [if low >= 0x8000_0000 then low - 0x1_0000_0000 else low, x / 0x1_0000_0000]
  }

  function WordsAint(low: int, high: int): (x: int) {
    high * 0x1_0000_0000 + (if low < 0 then low + 0x1_0000_0000 else low)
  }

  lemma AintRoundTrip(x: int)
    ensures WordsAint(AintWords(x)[0], AintWords(x)[1]) == x
    ensures IsAint(x) ==> IsWord(AintWords(x)[0]) && IsWord(AintWords(x)[1])
  {
  }

  function AllAintWords(xs: seq<int>): (w: seq<int>)
    ensures |w| == 2 * |xs|
  {
    if xs == [] then [] else AllAintWords(xs[..|xs| - 1]) + AintWords(xs[|xs| - 1])
  }

  datatype Packed = Packed(words: seq<int>, next: nat)
  datatype PackedKids = PackedKids(slots: seq<int>, bodies: seq<int>, next: nat)

  /** The words of a description; `next` is the next free index for a derived component. */
  function Pack(t: Type, next: nat): (p: Packed)
    ensures p.next >= next
    decreases t, 0
  {
    match t
    case Predefined(id) => Packed([Code(Named), id], next)
    case F90(id, _, _) => Packed([Code(Named), id], next)
    case Derived(c, ints, aints, kids, _) =>
      if c.Dup? && |kids| == 1 then Pack(kids[0], next)
      else
        var k := PackKids(kids, next);
        Packed([Code(c), |ints|, |aints|, |kids|] + AllAintWords(aints) + k.slots + ints + k.bodies, k.next)
  }

  function PackKids(kids: seq<Type>, next: nat): (p: PackedKids)
    ensures |p.slots| == |kids| && p.next >= next
    decreases kids, 1
  {
    if kids == [] then PackedKids([], [], next)
    else
      var p := PackKids(kids[..|kids| - 1], next);
      AddKid(p, kids[|kids| - 1])
  }

  function AddKid(p: PackedKids, k: Type): (p': PackedKids)
    ensures |p'.slots| == |p.slots| + 1 && p'.next >= p.next
    decreases k, 1
  {
    if !k.Derived? then PackedKids(p.slots + [k.id], p.bodies, p.next)
    else
      var b := Pack(k, p.next + 1);
      PackedKids(p.slots + [p.next], p.bodies + b.words, b.next)
  }

  /** MPI_Type_vector(3, 1, 2) of the predefined type 6, and four of them side by side: combiner and counts,
      the component, the integers, and the words of a derived component, which has the first free index. */
  lemma VectorWords(size: nat, whole: nat)
    ensures var vector := Derived(Vector, [3, 1, 2], [], [Predefined(6)], size);
            && Pack(vector, MAX_PREDEFINED).words == [3, 3, 0, 1, 6, 3, 1, 2]
            && Pack(Derived(Contiguous, [4], [], [vector], whole), MAX_PREDEFINED).words
               == [2, 1, 0, 1, 47, 4, 3, 3, 0, 1, 6, 3, 1, 2]
  {
    var vector, none := Derived(Vector, [3, 1, 2], [], [Predefined(6)], size), PackedKids([], [], MAX_PREDEFINED);
    assert [Predefined(6)][..0] == [] && [vector][..0] == [];
    assert PackKids([], MAX_PREDEFINED + 1) == PackedKids([], [], MAX_PREDEFINED + 1);
    assert PackKids([Predefined(6)], MAX_PREDEFINED) == PackedKids([6], [], MAX_PREDEFINED);
    assert PackKids([Predefined(6)], MAX_PREDEFINED + 1) == PackedKids([6], [], MAX_PREDEFINED + 1);
    assert Pack(vector, MAX_PREDEFINED + 1).words == [3, 3, 0, 1, 6, 3, 1, 2];
    assert PackKids([vector], MAX_PREDEFINED).slots == [47];
  }

  /** MPI_Type_create_hvector(3, 1, 5) of the predefined type 6: the stride takes two words in front of the
      component. */
  lemma HvectorWords(size: nat)
    ensures Pack(Derived(Hvector, [3, 1], [5], [Predefined(6)], size), MAX_PREDEFINED).words == [5, 2, 1, 1, 5, 0, 6, 3, 1]
  {
    assert [Predefined(6)][..0] == [] && [5][..0] == [];
    assert PackKids([Predefined(6)], MAX_PREDEFINED) == PackedKids([6], [], MAX_PREDEFINED);
    assert AintWords(5) == [5, 0] && AllAintWords([5]) == [5, 0];
  }

  // ---------------------------------------------------------------------------
  // Writing a description into a buffer
  // ---------------------------------------------------------------------------

  /** The words stand in the buffer from `at` on. */
  ghost predicate Has(b: seq<int>, at: nat, words: seq<int>) {
    at + |words| <= |b| && forall j {:trigger words[j]} :: 0 <= j < |words| ==> b[at + j] == words[j]
  }

  lemma HasFrame(b: seq<int>, b': seq<int>, at: nat, words: seq<int>)
    requires Has(b, at, words) && |b'| == |b| && forall j :: at <= j < at + |words| ==> b'[j] == b[j]
    ensures Has(b', at, words)
  {
  }

  lemma HasConcat(b: seq<int>, at: nat, v: seq<int>, w: seq<int>)
    ensures Has(b, at, v + w) <==> Has(b, at, v) && Has(b, at + |v|, w)
  {
    if Has(b, at, v + w) {
      assert forall j :: 0 <= j < |v| ==> v[j] == (v + w)[j];
      assert forall j :: 0 <= j < |w| ==> w[j] == (v + w)[|v| + j];
    }
  }

  /** Stores words one after another from `pos` on. */
  method Store(buf: array<int>, pos: nat, words: seq<int>)
    requires pos + |words| <= buf.Length
    modifies buf
    ensures Has(buf[..], pos, words)
    ensures forall j :: (0 <= j < pos || pos + |words| <= j < buf.Length) ==> buf[j] == old(buf[j])
  {
    for i := 0 to |words|
      invariant forall j :: 0 <= j < i ==> buf[pos + j] == words[j]
      invariant forall j :: (0 <= j < pos || pos + i <= j < buf.Length) ==> buf[j] == old(buf[j])
    {
      buf[pos + i] := words[i];
    }
  }

  /** Where the parts of a description lie: the slots for the components, the integers, the packed
      components. */
  function SlotsAt(pos: nat, aints: seq<int>): (p: nat) { pos + 4 + 2 * |aints| }

  function Header(t: Type): (w: seq<int>)
    requires t.Derived?
    ensures |w| == 4 + 2 * |t.aints|
  {
    [Code(t.c), |t.ints|, |t.aints|, |t.kids|] + AllAintWords(t.aints)
  }

  /** The description when the first `i` components have been written, up to position `cur`. */
  ghost predicate Partly(b: seq<int>, pos: nat, t: Type, next: nat, i: nat, cur: nat)
    requires t.Derived? && i <= |t.kids|
  {
    var k := PackKids(t.kids[..i], next);
    var slots := SlotsAt(pos, t.aints);
    var bodies := slots + |t.kids| + |t.ints|;
    && Has(b, pos, Header(t))
    && Has(b, slots, k.slots)
    && Has(b, slots + |t.kids|, t.ints)
    && Has(b, bodies, k.bodies) && cur == bodies + |k.bodies|
  }

  lemma PartlyIsWhole(b: seq<int>, pos: nat, t: Type, next: nat, cur: nat)
    requires t.Derived? && !(t.c.Dup? && |t.kids| == 1) && Partly(b, pos, t, next, |t.kids|, cur)
    ensures Has(b, pos, Pack(t, next).words) && cur == pos + |Pack(t, next).words|
  {
    assert t.kids[..|t.kids|] == t.kids;
    var k := PackKids(t.kids, next);
    HasConcat(b, pos, Header(t), k.slots);
    HasConcat(b, pos, Header(t) + k.slots, t.ints);
    HasConcat(b, pos, Header(t) + k.slots + t.ints, k.bodies);
  }

  /** Writing one component completes one more step. */
  lemma PartlyStep(b: seq<int>, b': seq<int>, pos: nat, t: Type, next: nat, i: nat, cur: nat, body: seq<int>)
    requires t.Derived? && i < |t.kids| && Partly(b, pos, t, next, i, cur) && |b'| == |b|
    requires var k, k' := PackKids(t.kids[..i], next), PackKids(t.kids[..i + 1], next);
             && k'.bodies == k.bodies + body
             && k'.slots == k.slots + [b'[SlotsAt(pos, t.aints) + i]]
    requires forall j :: 0 <= j < cur && j != SlotsAt(pos, t.aints) + i ==> b'[j] == b[j]
    requires Has(b', cur, body)
    ensures Partly(b', pos, t, next, i + 1, cur + |body|)
  {
    var k := PackKids(t.kids[..i], next);
    var slots := SlotsAt(pos, t.aints);
    HasFrame(b, b', pos, Header(t));
    HasFrame(b, b', slots, k.slots);
    HasConcat(b', slots, k.slots, [b'[slots + i]]);
    HasFrame(b, b', slots + |t.kids|, t.ints);
    HasFrame(b, b', slots + |t.kids| + |t.ints|, k.bodies);
    HasConcat(b', slots + |t.kids| + |t.ints|, k.bodies, body);
  }

  lemma {:induction false} KidSizes(kids: seq<Type>, i: nat, next: nat)
    requires i < |kids|
    ensures PackKids(kids[..i + 1], next) == AddKid(PackKids(kids[..i], next), kids[i])
    ensures |PackKids(kids[..i + 1], next).bodies| <= |PackKids(kids, next).bodies|
    decreases |kids|
  {
    assert kids[..i + 1][..i] == kids[..i];
    if i + 1 == |kids| {
      assert kids[..i + 1] == kids;
    } else {
      var init := kids[..|kids| - 1];
      KidSizes(init, i, next);
      assert init[..i + 1] == kids[..i + 1] && init[..i] == kids[..i];
    }
  }

  /** The next component fits behind what has been written. */
  lemma RoomForKid(t: Type, pos: nat, next: nat, i: nat, cur: nat)
    requires t.Derived? && !(t.c.Dup? && |t.kids| == 1) && i < |t.kids|
    requires var k := PackKids(t.kids[..i], next); cur == SlotsAt(pos, t.aints) + |t.kids| + |t.ints| + |k.bodies|
    ensures var k := PackKids(t.kids[..i], next);
            && PackKids(t.kids[..i + 1], next) == AddKid(k, t.kids[i])
            && cur + |KidBody(t.kids[i], k.next)| <= pos + |Pack(t, next).words|
  {
    KidSizes(t.kids, i, next);
  }

  /** __ompi_datatype_pack_description: writes the description of `t` at `pos` and nothing else. */
  method PackInto(t: Type, buf: array<int>, pos: nat, next: nat) returns (end: nat, next': nat)
    requires WellFormed(t) && pos + |Pack(t, next).words| <= buf.Length
    modifies buf
    ensures end == pos + |Pack(t, next).words| && next' == Pack(t, next).next
    ensures Has(buf[..], pos, Pack(t, next).words)
    ensures forall j :: (0 <= j < pos || end <= j < buf.Length) ==> buf[j] == old(buf[j])
    decreases t, 2
  {
    if !t.Derived? {
      Store(buf, pos, [Code(Named), t.id]);
      end, next' := pos + 2, next;
    } else if t.c.Dup? {
      end, next' := PackInto(t.kids[0], buf, pos, next);
    } else {
      end, next' := PackDerived(t, buf, pos, next);
    }
  }

  method PackDerived(t: Type, buf: array<int>, pos: nat, next: nat) returns (end: nat, next': nat)
    requires WellFormed(t) && t.Derived? && !t.c.Dup? && pos + |Pack(t, next).words| <= buf.Length
    modifies buf
    ensures end == pos + |Pack(t, next).words| && next' == Pack(t, next).next
    ensures Has(buf[..], pos, Pack(t, next).words)
    ensures forall j :: (0 <= j < pos || end <= j < buf.Length) ==> buf[j] == old(buf[j])
    decreases t, 1
  {
    end := StoreFixedPart(t, buf, pos, next);
    next' := next;
    var i := 0;
    while i < |t.kids|
      invariant i <= |t.kids| && next' == PackKids(t.kids[..i], next).next
      invariant Partly(buf[..], pos, t, next, i, end)
      invariant forall j :: (0 <= j < pos || end <= j < buf.Length) ==> buf[j] == old(buf[j])
    {
      RoomForKid(t, pos, next, i, end);
      end, next' := PackKid(t, buf, pos, next, i, end, next');
      i := i + 1;
    }
    assert t.kids[..|t.kids|] == t.kids;
    PartlyIsWhole(buf[..], pos, t, next, end);
  }

  /** The header, the displacements and the integers. */
  method StoreFixedPart(t: Type, buf: array<int>, pos: nat, ghost next: nat) returns (end: nat)
    requires t.Derived? && SlotsAt(pos, t.aints) + |t.kids| + |t.ints| <= buf.Length
    modifies buf
    ensures Partly(buf[..], pos, t, next, 0, end)
    ensures forall j :: (0 <= j < pos || end <= j < buf.Length) ==> buf[j] == old(buf[j])
  {
    var slots := SlotsAt(pos, t.aints);
    Store(buf, pos, Header(t));
    ghost var b := buf[..];
    Store(buf, slots + |t.kids|, t.ints);
    HasFrame(b, buf[..], pos, Header(t));
    end := slots + |t.kids| + |t.ints|;
  }

  /** One turn of the loop over the components. */
  method PackKid(t: Type, buf: array<int>, pos: nat, ghost first: nat, i: nat, cur: nat, next: nat)
    returns (end: nat, next': nat)
    requires t.Derived? && i < |t.kids| && WellFormed(t.kids[i])
    requires Partly(buf[..], pos, t, first, i, cur) && next == PackKids(t.kids[..i], first).next
    requires PackKids(t.kids[..i + 1], first) == AddKid(PackKids(t.kids[..i], first), t.kids[i])
    requires cur + |KidBody(t.kids[i], next)| <= buf.Length
    modifies buf
    ensures Partly(buf[..], pos, t, first, i + 1, end) && next' == PackKids(t.kids[..i + 1], first).next
    ensures forall j :: (0 <= j < pos || end <= j < buf.Length) ==> buf[j] == old(buf[j])
    decreases t, 0
  {
    var slot := SlotsAt(pos, t.aints) + i;
    ghost var b := buf[..];
    ghost var body := KidBody(t.kids[i], next);
    if !t.kids[i].Derived? {
      buf[slot] := t.kids[i].id;
      end, next' := cur, next;
    } else {
      buf[slot] := next;
      end, next' := PackInto(t.kids[i], buf, cur, next + 1);
    }
    PartlyStep(b, buf[..], pos, t, first, i, cur, body);
  }

  /** The words a component adds behind the integers. */
  function KidBody(k: Type, next: nat): (w: seq<int>) {
    if !k.Derived? then [] else Pack(k, next + 1).words
  }
}
