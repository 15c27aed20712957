/** What callers of the attribute engine (ompi/attribute/attribute.c) can do with a keyval that they have created:
    ordinary callers with one of their own, and only privileged ones with a predefined one. */
module AttributesUse {
  import opened Attributes

  /** All attributes but the one at `o` and `key` are what they were. */
  ghost predicate OthersKept(before: map<Object, Table>, now: map<Object, Table>, o: Object, key: int) {
    && before.Keys <= now.Keys
    && (forall p :: p in before && p != o ==> now[p] == before[p])
    && forall k :: o in before && k != key ==>
         (k in now[o] <==> k in before[o]) && (k in now[o] ==> now[o][k] == before[o][k])
  }

  /** Setting an attribute under a new keyval stores the value, unless the object is of another kind or an
      ordinary caller is at a predefined keyval; then nothing changes. */
  method SetNew(e: Engine, kind: Kind, predefined: bool, privileged: bool, o: Object, value: int)
    returns (made: int, key: int, ret: int)
    requires e.Valid()
    modifies e
    ensures e.Valid() && OthersKept(old(e.tables), e.tables, o, key)
    ensures made == SUCCESS && o.kind == kind && (privileged || !predefined) ==>
              ret == SUCCESS && o in e.tables && key in e.tables[o] && e.tables[o][key].value == value
    ensures made == SUCCESS && (o.kind != kind || (predefined && !privileged)) ==>
              ret == ERR_BAD_PARAM && e.tables == old(e.tables) && e.keyvals == old(e.keyvals)[key := Keyval(kind, predefined, 1)]
  {
    made, key := e.CreateKeyval(kind, predefined, SUCCESS);
    ret := ERR_BAD_PARAM;
    if made == SUCCESS {
      ret := e.SetValue(o, key, value, privileged, SUCCESS, SUCCESS);
    }
  }

  /** Deleting it again removes it, with one callback, unless an ordinary caller is at a predefined keyval; then
      it stays. */
  method SetAndDelete(e: Engine, predefined: bool, privileged: bool, o: Object, value: int)
    returns (made: int, key: int, ret: int)
    requires e.Valid()
    modifies e
    ensures e.Valid()
    ensures made == SUCCESS && (privileged || !predefined) ==>
              ret == SUCCESS && o in e.tables && key !in e.tables[o] && e.deleted == old(e.deleted) + [(o, key)]
    ensures made == SUCCESS && predefined && !privileged ==>
              && ret == ERR_BAD_PARAM && e.deleted == old(e.deleted)
              && o in e.tables && key in e.tables[o] && e.tables[o][key].value == value
  {
    made, key := e.CreateKeyval(o.kind, predefined, SUCCESS);
    ret := ERR_BAD_PARAM;
    if made == SUCCESS {
      NewKeyIsUnused(old(e.keyvals), e.tables, e.sequence, key, o);
      var done := e.SetValue(o, key, value, true, SUCCESS, SUCCESS);
      ret := e.DeleteImpl(o, key, privileged, SUCCESS);
    }
  }

  lemma NewKeyIsUnused(keyvals: map<int, Keyval>, tables: map<Object, Table>, sequence: int, key: int, o: Object)
    requires AllAttrsOk(keyvals, tables, sequence) && key !in keyvals
    ensures o in tables ==> key !in tables[o]
  {
    assert o in tables && key in tables[o] ==> AttrOk(keyvals, tables, sequence, o, key);
  }

  /** Freeing a keyval that nothing uses ends it: nobody can set an attribute under its key any more.  An ordinary
      caller cannot free a predefined one. */
  method FreeNew(e: Engine, kind: Kind, predefined: bool, privileged: bool, o: Object, value: int)
    returns (made: int, key: int, ret: int, late: int)
    requires e.Valid()
    modifies e
    ensures e.Valid()
    ensures made == SUCCESS && (privileged || !predefined) ==>
              ret == SUCCESS && key !in e.keyvals && late == ERR_BAD_PARAM && e.tables == old(e.tables)
    ensures made == SUCCESS && predefined && !privileged ==> ret == ERR_BAD_PARAM && key in e.keyvals
    ensures made == SUCCESS && predefined && !privileged && o.kind == kind ==> late == SUCCESS
  {
    made, key := e.CreateKeyval(kind, predefined, SUCCESS);
    ret, late := ERR_BAD_PARAM, ERR_BAD_PARAM;
    if made == SUCCESS {
      NoHolders(old(e.keyvals), e.tables, e.sequence, key);
      ret := e.FreeKeyval(kind, key, privileged);
      late := e.SetValue(o, key, value, true, SUCCESS, SUCCESS);
    }
  }

  /** An object with two attributes of its own, the one under `a` set before the one under `b`. */
  ghost predicate HasTwo(tables: map<Object, Table>, o: Object, a: int, b: int) {
    && o in tables && a != b && tables[o].Keys == {a, b} && tables[o][a].sequence < tables[o][b].sequence
  }

  /** Two attributes are set, and the first one once more if so wished. */
  method SetTwo(e: Engine, o: Object, again: bool) returns (made: int, a: int, b: int)
    requires e.Valid() && o !in e.tables
    modifies e
    ensures e.Valid()
    ensures made == SUCCESS ==> if again then HasTwo(e.tables, o, b, a) else HasTwo(e.tables, o, a, b)
    ensures made == SUCCESS ==> e.deleted == old(e.deleted) + (if again then [(o, a)] else [])
  {
    made, a := e.CreateKeyval(o.kind, false, SUCCESS);
    b := 0;
    if made == SUCCESS {
      made, b := e.CreateKeyval(o.kind, false, SUCCESS);
    }
    if made == SUCCESS {
      var ret := e.SetValue(o, a, 1, false, SUCCESS, SUCCESS);
      SetBefore(e.keyvals, e.tables, e.sequence, o, a);
      ret := e.SetValue(o, b, 2, false, SUCCESS, SUCCESS);
      SetBefore(e.keyvals, e.tables, e.sequence, o, b);
      if again {
        ret := e.SetValue(o, a, 3, false, SUCCESS, SUCCESS);
      }
    }
  }

  lemma SetBefore(keyvals: map<int, Keyval>, tables: map<Object, Table>, sequence: int, o: Object, k: int)
    requires AllAttrsOk(keyvals, tables, sequence) && o in tables && k in tables[o]
    ensures tables[o][k].sequence < sequence
  {
    assert AttrOk(keyvals, tables, sequence, o, k);
  }

  /** Deleting all attributes calls back in the reverse of the order in which they were last set, and leaves none. */
  method SetTwoAndDeleteAll(e: Engine, o: Object, again: bool) returns (made: int, a: int, b: int, ret: int)
    requires e.Valid() && o !in e.tables
    modifies e
    ensures e.Valid()
    ensures made == SUCCESS ==>
              && ret == SUCCESS && o in e.tables && (forall k :: k !in e.tables[o])
              && e.deleted == old(e.deleted) + if again then [(o, a), (o, a), (o, b)] else [(o, b), (o, a)]
  {
    ret := ERR_BAD_PARAM;
    made, a, b := SetTwo(e, o, again);
    if made == SUCCESS {
      ghost var first, second, table := if again then b else a, if again then a else b, e.tables[o];
      ghost var tables, deleted := e.tables, e.deleted;
      ghost var attrs, left;
      ret, attrs, left := e.DeleteAll(o, k => SUCCESS);
      TwoInOrder(table, first, second, attrs);
      AllGone(tables, e.tables, deleted, e.deleted, o, attrs, left, k => SUCCESS, ret);
    }
  }

  predicate One(k: int, i: int, j: int) { k == i || k == j }

  lemma TwoInOrder(t: Table, a: int, b: int, attrs: seq<Attr>)
    requires a != b && t.Keys == {a, b} && t[a].sequence < t[b].sequence && SetOrder(t, attrs)
    ensures attrs == [t[a], t[b]] && attrs[0].key == a && attrs[1].key == b
  {
    var i :| 0 <= i < |attrs| && attrs[i] == t[a];
    var j :| 0 <= j < |attrs| && attrs[j] == t[b];
    forall k | 0 <= k < |attrs|
      ensures One(k, i, j)
    {
      assert attrs[k] in attrs && t[attrs[k].key] == attrs[k];
    }
    assert i < j;
    assert One(0, i, j) && One(1, i, j) && (|attrs| > 2 ==> One(2, i, j));
    assert i == 0 && j == 1 && |attrs| == 2;
  }

  lemma NoneKept(before: Table, now: Table, kept: seq<Attr>)
    requires kept == [] && (forall k :: k in now ==> k in before)
    requires forall k :: k in before ==> (k in now <==> before[k] in kept)
    ensures forall k :: k !in now
  {
    assert forall k :: k in before && k in now ==> before[k] in kept;
  }

  lemma AllGone(tables0: map<Object, Table>, tables: map<Object, Table>, deleted0: seq<(Object, int)>,
                deleted: seq<(Object, int)>, o: Object, attrs: seq<Attr>, left: nat, result: int -> int, ret: int)
    requires Outcome(tables0, tables, deleted0, deleted, o, attrs, left, result, ret) && |attrs| == 2
    requires forall k :: result(k) == SUCCESS
    ensures ret == SUCCESS && forall k :: k !in tables[o]
    ensures deleted == deleted0 + [(o, attrs[1].key), (o, attrs[0].key)]
  {
    assert left == 0 && attrs[..0] == [];
    NoneKept(tables0[o], tables[o], attrs[..0]);
    assert Backwards(o, attrs, 2) == [] && Backwards(o, attrs, 1) == [(o, attrs[1].key)];
  }
}
