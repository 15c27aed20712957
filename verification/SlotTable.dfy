/** The per-process state behind context-id agreement: the growing slot table of
    opal/class/opal_pointer_array.c and the sorted list of registered calls of
    ompi/communicator/comm_cid.c. */
module SlotTable {
  import CidProtocol

  datatype Slot<T> = Null | Ptr(value: T)

  class PointerArray<T> {
    var addr: array<Slot<T>>
    var lowestFree: nat
    var numberFree: nat
    const maxSize: nat

    /** What a slot holds; slots past the end of the allocation are free. */
    ghost function At(i: nat): (s: Slot<T>)
      reads this, addr
    {
      if i < addr.Length then addr[i] else Null
    }

    ghost predicate Valid()
      reads this, addr
    {
      && lowestFree <= addr.Length
      && (forall i :: 0 <= i < lowestFree ==> addr[i].Ptr?)
      && (lowestFree < addr.Length ==> addr[lowestFree].Null?)
      && numberFree == CountNull(addr[..])
    }

    constructor (initial: nat, maxSize: nat)
      ensures Valid() && fresh(addr) && this.maxSize == maxSize && addr.Length == initial
      ensures forall i: nat :: At(i) == Null
    {
      this.maxSize := maxSize;
      addr := new Slot[initial](_ => Null);
      lowestFree := 0;
      numberFree := initial;
      new;
      AllNull(addr[..]);
    }

    /** Does the table have this slot, or can it grow to have it? */
    predicate Reachable(index: nat)
      reads this
    {
      index < addr.Length || GrownSize(index, maxSize) > index
    }

    /** grow_table: every old slot is kept and the new ones are free. */
    method Grow(newSize: nat)
      requires Valid() && addr.Length <= newSize
      modifies this`addr, this`numberFree
      ensures Valid() && fresh(addr) && addr.Length == newSize
      ensures forall i: nat :: At(i) == old(At(i))
    {
      var bigger := new Slot[newSize](i requires 0 <= i reads this, addr => if i < addr.Length then addr[i] else Null);
      CountGrown(addr[..], newSize - addr.Length);
      assert bigger[..] == addr[..] + seq(newSize - addr.Length, _ => Null);
      numberFree := numberFree + (newSize - addr.Length);
      addr := bigger;
    }

    /** Grows the table, if needed, so that it has slot `index`. */
    method MakeRoom(index: nat) returns (ok: bool)
      requires Valid() && (index < addr.Length || !GrowsShort(index, maxSize))
      modifies this`addr, this`numberFree
      ensures Valid() && (addr == old(addr) || fresh(addr))
      ensures ok <==> old(Reachable(index))
      ensures ok ==> index < addr.Length && addr[index] == old(At(index))
      ensures forall i: nat :: At(i) == old(At(i))
    {
      if addr.Length <= index {
        var newSize := GrownSize(index, maxSize);
        if newSize == 0 {
          return false;
        }
        Grow(newSize);
        assert At(index) == Null;
      }
      ok := true;
    }

    /** The first free slot at or after `from`, or the size of the table. */
    method FirstFreeFrom(from: nat) returns (i: nat)
      requires from <= addr.Length
      ensures from <= i <= addr.Length && (i < addr.Length ==> addr[i].Null?)
      ensures forall j :: from <= j < i ==> addr[j].Ptr?
    {
      i := from;
      while i < addr.Length && addr[i].Ptr?
        invariant from <= i <= addr.Length
        invariant forall j :: from <= j < i ==> addr[j].Ptr?
      {
        i := i + 1;
      }
    }

    /** opal_pointer_array_test_and_set_item: reserves the slot if and only if it is free (and can exist). */
    method TestAndSetItem(index: nat, value: T) returns (ok: bool)
      requires Valid() && (index < addr.Length || !GrowsShort(index, maxSize))
      modifies this`addr, this`lowestFree, this`numberFree, addr
      ensures Valid() && (addr == old(addr) || fresh(addr))
      ensures ok <==> old(At(index)) == Null && old(Reachable(index))
      ensures forall i: nat :: At(i) == if ok && i == index then Ptr(value) else old(At(i))
    {
      if index < addr.Length && addr[index].Ptr? {
        return false;
      }
      ok := MakeRoom(index);
      if !ok {
        return;
      }
      ghost var was := addr[..];
      CountUpdate(was, index, Ptr(value));
      numberFree := numberFree - 1;
      addr[index] := Ptr(value);
      assert addr[..] == was[index := Ptr(value)];
      if index == lowestFree {
        lowestFree := FirstFreeFrom(index);
      }
    }

    /** opal_pointer_array_set_item: stores or clears the slot, whatever it held. */
    method SetItem(index: nat, value: Slot<T>) returns (ok: bool)
      requires Valid() && (index < addr.Length || !GrowsShort(index, maxSize))
      modifies this`addr, this`lowestFree, this`numberFree, addr
      ensures Valid() && (addr == old(addr) || fresh(addr))
      ensures ok <==> old(Reachable(index))
      ensures forall i: nat :: At(i) == if ok && i == index then value else old(At(i))
    {
      ok := MakeRoom(index);
      if !ok {
        return;
      }
      if value.Null? {
        Clear(index);
      } else {
        Fill(index, value);
      }
    }

    method Clear(index: nat)
      requires Valid() && index < addr.Length
      modifies this`lowestFree, this`numberFree, addr
      ensures Valid() && addr[..] == old(addr[..][index := Null])
    {
      CountUpdate(addr[..], index, Null);
      ghost var was := addr[..];
      if index < lowestFree {
        lowestFree := index;
      }
      if addr[index].Ptr? {
        numberFree := numberFree + 1;
      }
      addr[index] := Null;
      assert addr[..] == was[index := Null];
    }

    method Fill(index: nat, value: Slot<T>)
      requires Valid() && index < addr.Length && value.Ptr?
      modifies this`lowestFree, this`numberFree, addr
      ensures Valid() && addr[..] == old(addr[..][index := value])
    {
      CountUpdate(addr[..], index, value);
      ghost var was := addr[..];
      if addr[index].Null? {
        numberFree := numberFree - 1;
      }
      if index == lowestFree {
        lowestFree := FirstFreeFrom(index + 1);
      }
      addr[index] := value;
      assert addr[..] == was[index := value];
    }

    /** What the agreement protocol reads as `lowest_free`: the least slot that is free. */
    lemma LowestFreeIsLeast()
      requires Valid()
      ensures At(lowestFree) == Null && forall i: nat :: i < lowestFree ==> At(i) != Null
    {
    }
  }

  /** The size grow_table settles on for a slot past the end: an even size above the index, the index
      itself if that is over the maximum, or 0 if it gives up. */
  function GrownSize(index: nat, maxSize: nat): (n: nat) {
    var soft := (index / 2 + 1) * 2;
    var size := if soft > maxSize then index else soft;
    if size >= maxSize then 0 else size
  }

  /** The one index for which grow_table reports success without making room. */
  predicate GrowsShort(index: nat, maxSize: nat) {
    index + 1 == maxSize && index % 2 == 0 && index > 0
  }

  lemma GrowthMakesRoom(index: nat, maxSize: nat)
    ensures GrownSize(index, maxSize) != 0 ==> (GrownSize(index, maxSize) > index <==> !GrowsShort(index, maxSize))
    ensures !GrowsShort(index, maxSize) ==> (GrownSize(index, maxSize) != 0 <==> (index / 2 + 1) * 2 < maxSize)
  {
  }

  function CountNull<T>(s: seq<Slot<T>>): (n: nat) {
    if s == [] then 0 else (if s[0].Null? then 1 else 0) + CountNull(s[1..])
  }

  lemma {:induction false} AllNull<T>(s: seq<Slot<T>>)
    requires forall i :: 0 <= i < |s| ==> s[i].Null?
    ensures CountNull(s) == |s|
  {
    if s != [] {
      AllNull(s[1..]);
    }
  }

  lemma {:induction false} CountGrown<T>(s: seq<Slot<T>>, extra: nat)
    ensures CountNull(s + seq(extra, _ => Null)) == CountNull(s) + extra
  {
    var t := seq(extra, _ => Slot<T>.Null);
    if s == [] {
      assert s + t == t;
      AllNull(t);
    } else {
      assert (s + t)[1..] == s[1..] + t;
      CountGrown(s[1..], extra);
    }
  }

  lemma {:induction false} CountUpdate<T>(s: seq<Slot<T>>, i: nat, x: Slot<T>)
    requires i < |s|
    ensures CountNull(s[i := x]) + (if s[i].Null? then 1 else 0) == CountNull(s) + (if x.Null? then 1 else 0)
  {
    if i > 0 {
      assert s[i := x][1..] == s[1..][i - 1 := x];
      CountUpdate(s[1..], i - 1, x);
    } else {
      assert s[i := x][1..] == s[1..];
    }
  }

  // ---------------------------------------------------------------------------
  // Registered calls
  // ---------------------------------------------------------------------------

  class Registry {
    var cids: seq<nat>

    constructor ()
      ensures cids == []
    {
      cids := [];
    }

    /** One attempt of ompi_comm_register_cid.  With `threadMultiple` a second call on the same
        communicator is turned away and has to try again. */
    method TryRegister(cid: nat, threadMultiple: bool) returns (registered: bool)
      requires Sorted(cids)
      modifies this
      ensures Sorted(cids)
      ensures registered <==> !(threadMultiple && cid in old(cids))
      ensures cids == if registered then CidProtocol.InsertSorted(old(cids), cid) else old(cids)
    {
      var i := 0;
      while i < |cids| && cids[i] <= cid
        invariant 0 <= i <= |cids|
        invariant forall j :: 0 <= j < i ==> cids[j] <= cid && (threadMultiple ==> cids[j] != cid)
      {
        if threadMultiple && cids[i] == cid {
          return false;
        }
        i := i + 1;
      }
      InsertAt(cids, cid, i);
      cids := cids[..i] + [cid] + cids[i..];
      registered := true;
    }

    /** ompi_comm_unregister_cid */
    method Unregister(cid: nat)
      requires Sorted(cids)
      modifies this
      ensures Sorted(cids) && cids == CidProtocol.RemoveFirst(old(cids), cid)
    {
      var i := 0;
      while i < |cids|
        invariant 0 <= i <= |cids|
        invariant cid !in cids[..i]
      {
        if cids[i] == cid {
          RemoveAt(cids, cid, i);
          cids := cids[..i] + cids[i + 1..];
          return;
        }
        i := i + 1;
      }
      RemoveNothing(cids, cid);
    }

    /** ompi_comm_lowest_cid, which only a registered call asks for. */
    method Lowest() returns (cid: nat)
      requires Sorted(cids) && cids != []
      ensures cid in cids && forall x :: x in cids ==> cid <= x
    {
      cid := cids[0];
    }
  }

  predicate Sorted(cids: seq<nat>) {
    forall i, j :: 0 <= i < j < |cids| ==> cids[i] <= cids[j]
  }

  lemma {:induction false} InsertAt(cids: seq<nat>, cid: nat, i: nat)
    requires i <= |cids|
    requires (forall j :: 0 <= j < i ==> cids[j] <= cid) && (i < |cids| ==> cid < cids[i])
    ensures CidProtocol.InsertSorted(cids, cid) == cids[..i] + [cid] + cids[i..]
  {
    if i > 0 {
      InsertAt(cids[1..], cid, i - 1);
      assert cids[..i] == [cids[0]] + cids[1..][..i - 1] && cids[1..][i - 1..] == cids[i..];
    } else {
      assert cids[..0] + [cid] + cids[0..] == [cid] + cids;
    }
  }

  lemma {:induction false} RemoveAt(cids: seq<nat>, cid: nat, i: nat)
    requires i < |cids| && cids[i] == cid && cid !in cids[..i]
    ensures CidProtocol.RemoveFirst(cids, cid) == cids[..i] + cids[i + 1..]
  {
    if i > 0 {
      assert cids[0] in cids[..i];
      assert cids[1..][..i - 1] == cids[..i][1..];
      RemoveAt(cids[1..], cid, i - 1);
      assert cids[..i] == [cids[0]] + cids[1..][..i - 1] && cids[1..][i..] == cids[i + 1..];
    }
  }

  lemma {:induction false} RemoveNothing(cids: seq<nat>, cid: nat)
    requires cid !in cids
    ensures CidProtocol.RemoveFirst(cids, cid) == cids
  {
    if cids != [] {
      RemoveNothing(cids[1..], cid);
    }
  }
}
