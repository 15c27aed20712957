/** Cached attributes (ompi/attribute/attribute.c): keyvals that are counted once for their creator
    and once for every object that holds an attribute under their key.  User callbacks may succeed or
    fail as they like, but do not call the engine again. */
module Attributes {
  import opened Arithmetic

  datatype Kind = Comm | Win | Dtype

  datatype Object = Object(kind: Kind, id: nat)

  datatype Keyval = Keyval(kind: Kind, predefined: bool, refs: int)

  datatype Attr = Attr(key: int, value: int, sequence: int)

  type Table = map<int, Attr>

  const SUCCESS := 0
  const ERR_BAD_PARAM := -5
  const ERR_NOT_FOUND := -13
  const ERR_OUT_OF_RESOURCE := -2

  // ---------------------------------------------------------------------------
  // Who holds a key
  // ---------------------------------------------------------------------------

  ghost function Holders(tables: map<Object, Table>, key: int): (s: set<Object>) {
    set o | o in tables && key in tables[o]
  }

  lemma HoldersPut(tables: map<Object, Table>, o: Object, t: Table, key: int)
    ensures key in t ==> Holders(tables[o := t], key) == Holders(tables, key) + {o}
    ensures key !in t ==> Holders(tables[o := t], key) == Holders(tables, key) - {o}
  {
  }

  /** What one reference stands for: the creator's, until it frees the keyval, and one per object. */
  ghost predicate Counted(keyvals: map<int, Keyval>, freed: set<int>, tables: map<Object, Table>, key: int)
    requires key in keyvals
  {
    keyvals[key].refs == (if key in freed then 0 else 1) + |Holders(tables, key)| && keyvals[key].refs >= 1
  }

  ghost predicate AttrOk(keyvals: map<int, Keyval>, tables: map<Object, Table>, sequence: int, o: Object, key: int)
    requires o in tables && key in tables[o]
  {
    && key in keyvals && keyvals[key].kind == o.kind
    && tables[o][key].key == key && tables[o][key].sequence < sequence
  }

  ghost predicate Consistent(keyvals: map<int, Keyval>, bits: set<int>, freed: set<int>, tables: map<Object, Table>,
                             sequence: int) {
    && keyvals.Keys == bits && freed <= bits
    && AllCounted(keyvals, freed, tables) && AllAttrsOk(keyvals, tables, sequence) && Ordered(tables)
  }

  ghost predicate AllCounted(keyvals: map<int, Keyval>, freed: set<int>, tables: map<Object, Table>) {
    forall key :: key in keyvals ==> key >= 0 && Counted(keyvals, freed, tables, key)
  }

  /** Every stored attribute has a live keyval of its object's kind. */
  ghost predicate AllAttrsOk(keyvals: map<int, Keyval>, tables: map<Object, Table>, sequence: int) {
    forall o, key :: o in tables && key in tables[o] ==> AttrOk(keyvals, tables, sequence, o, key)
  }

  /** No two attributes of an object were set at the same time. */
  ghost predicate Ordered(tables: map<Object, Table>) {
    forall o :: o in tables ==> AllDifferent(tables[o])
  }

  ghost predicate AllDifferent(t: Table) {
    forall k, l :: k in t && l in t && k != l ==> t[k].sequence != t[l].sequence
  }

  // ---------------------------------------------------------------------------
  // The engine
  // ---------------------------------------------------------------------------

  class Engine {
    var keyvals: map<int, Keyval>
    var bits: set<int>
    var tables: map<Object, Table>
    var sequence: int
    const maxKeys: int

    /** Keyvals whose creator has freed them, and the delete callbacks made so far. */
    ghost var freed: set<int>
    ghost var deleted: seq<(Object, int)>

    ghost predicate Valid()
      reads this
    {
      Consistent(keyvals, bits, freed, tables, sequence)
    }

    constructor (maxKeys: int)
      ensures Valid() && keyvals == map[] && tables == map[] && deleted == [] && this.maxKeys == maxKeys
    {
      keyvals, bits, tables, sequence := map[], {}, map[], 0;
      this.maxKeys := maxKeys;
      freed, deleted := {}, [];
    }

    /** The lowest unset bit of the key bitmap, now set. */
    method CreateKey() returns (ret: int, key: int)
      requires forall b :: b in bits ==> b >= 0
      modifies `bits
      ensures ret == SUCCESS ==> 0 <= key < maxKeys && key !in old(bits) && bits == old(bits) + {key}
      ensures ret == SUCCESS ==> forall b :: 0 <= b < key ==> b in old(bits)
      ensures ret != SUCCESS ==> bits == old(bits) && forall b :: 0 <= b < maxKeys ==> b in bits
    {
      key := 0;
      while key < maxKeys && key in bits
        invariant key >= 0 && forall b :: 0 <= b < key ==> b in bits
        decreases maxKeys - key
      {
        key := key + 1;
      }
      if key < maxKeys {
        bits := bits + {key};
        ret := SUCCESS;
      } else {
        ret := ERR_OUT_OF_RESOURCE;
      }
    }

    /** ompi_attr_create_keyval_impl; `hashError` is the outcome of storing the keyval in the hash. */
    method CreateKeyval(kind: Kind, predefined: bool, hashError: int) returns (ret: int, key: int)
      requires Valid()
      modifies this
      ensures Valid() && tables == old(tables) && freed == old(freed) && deleted == old(deleted)
      ensures ret == SUCCESS ==> key !in old(keyvals) && keyvals == old(keyvals)[key := Keyval(kind, predefined, 1)]
      ensures ret != SUCCESS ==> keyvals == old(keyvals)
    {
      ret, key := CreateKey();
      if ret == SUCCESS {
        NoHolders(keyvals, tables, sequence, key);
        if hashError == SUCCESS {
          keyvals := keyvals[key := Keyval(kind, predefined, 1)];
        } else {
          ret := hashError;
          bits := bits - {key};
        }
      }
    }

    /** OBJ_RELEASE of a keyval: the last reference takes it out of the hash and frees its key. */
    method Release(key: int)
      requires key in keyvals
      modifies this
      ensures keyvals == if old(keyvals)[key].refs == 1 then old(keyvals) - {key}
                         else old(keyvals)[key := old(keyvals)[key].(refs := old(keyvals)[key].refs - 1)]
      ensures bits == if old(keyvals)[key].refs == 1 then old(bits) - {key} else old(bits)
      ensures freed == if old(keyvals)[key].refs == 1 then old(freed) - {key} else old(freed)
      ensures unchanged(`tables) && unchanged(`sequence) && unchanged(`deleted)
    {
      var k := keyvals[key];
      if k.refs == 1 {
        keyvals := keyvals - {key};
        bits := bits - {key};
        freed := freed - {key};
      } else {
        keyvals := keyvals[key := k.(refs := k.refs - 1)];
      }
    }

    /** The test at the head of every operation on a key. */
    predicate Usable(kind: Kind, key: int, predefined: bool)
      reads this
    {
      key in keyvals && keyvals[key].kind == kind && (predefined || !keyvals[key].predefined)
    }

    /** ompi_attr_free_keyval, by a creator who has not freed the keyval before. */
    method FreeKeyval(kind: Kind, key: int, predefined: bool) returns (ret: int)
      requires Valid() && key !in freed
      modifies this
      ensures Valid() && tables == old(tables) && deleted == old(deleted)
      ensures !old(Usable(kind, key, predefined)) ==> ret == ERR_BAD_PARAM && keyvals == old(keyvals) && freed == old(freed)
      ensures old(Usable(kind, key, predefined)) ==> ret == SUCCESS && (key in keyvals <==> Holders(tables, key) != {})
      ensures old(Usable(kind, key, predefined)) && key in keyvals ==> freed == old(freed) + {key}
      ensures forall k :: k != key ==> (k in keyvals <==> k in old(keyvals))
    {
      if !Usable(kind, key, predefined) {
        return ERR_BAD_PARAM;
      }
      FreedKeepsConsistent(keyvals, bits, freed, tables, sequence, key);
      freed := freed + {key};
      Release(key);
      ret := SUCCESS;
    }

    /** ompi_attr_delete_impl; `err` is what the delete callback returns. */
    method DeleteImpl(o: Object, key: int, predefined: bool, err: int) returns (ret: int)
      requires Valid()
      modifies this
      ensures Valid() && sequence == old(sequence)
      ensures !old(Usable(o.kind, key, predefined)) || o !in old(tables) ==> ret == ERR_BAD_PARAM && unchanged(this)
      ensures old(Usable(o.kind, key, predefined) && o in tables && key !in tables[o]) ==> ret == ERR_NOT_FOUND && unchanged(this)
      ensures old(Usable(o.kind, key, predefined) && o in tables && key in tables[o]) ==>
                && ret == err && deleted == old(deleted) + [(o, key)]
                && (err != SUCCESS ==> tables == old(tables) && keyvals == old(keyvals) && freed == old(freed))
                && (err == SUCCESS ==> tables == old(tables[o := tables[o] - {key}]) && keyvals == Released(old(keyvals), key))
    {
      if !Usable(o.kind, key, predefined) {
        return ERR_BAD_PARAM;
      }
      if o !in tables {
        return ERR_BAD_PARAM;
      }
      if key !in tables[o] {
        return ERR_NOT_FOUND;
      }
      deleted := deleted + [(o, key)];
      if err != SUCCESS {
        return err;
      }
      DetachKeepsConsistent(keyvals, bits, freed, tables, sequence, o, key);
      tables := tables[o := tables[o] - {key}];
      Release(key);
      ret := SUCCESS;
    }

    /** set_value; `err` is what the delete callback for an old value returns, `hashError` the outcome
        of storing the new one. */
    method SetValue(o: Object, key: int, value: int, predefined: bool, err: int, hashError: int) returns (ret: int)
      requires Valid()
      modifies this
      ensures Valid() && freed == old(freed) && bits == old(bits)
      ensures !old(Usable(o.kind, key, predefined)) ==> ret == ERR_BAD_PARAM && unchanged(this)
      ensures old(Usable(o.kind, key, predefined)) ==>
                var t := if o in old(tables) then old(tables)[o] else map[];
                && ret == (if key in t && err != SUCCESS then err else hashError)
                && (ret != SUCCESS ==> tables == old(tables)[o := t] && keyvals == old(keyvals))
                && (ret == SUCCESS ==>
                      && tables == old(tables)[o := t[key := Attr(key, value, old(sequence))]]
                      && keyvals == if key in t then old(keyvals) else Retained(old(keyvals), key))
                && deleted == if key in t then old(deleted) + [(o, key)] else old(deleted)
    {
      if !Usable(o.kind, key, predefined) {
        return ERR_BAD_PARAM;
      }
      if o !in tables {
        EmptyTableKeepsConsistent(keyvals, bits, freed, tables, sequence, o);
        tables := tables[o := map[]];
      }
      var hadOld := key in tables[o];
      if hadOld {
        deleted := deleted + [(o, key)];
        if err != SUCCESS {
          return err;
        }
      }
      ret := hashError;
      AttachKeepsConsistent(keyvals, bits, freed, tables, sequence, o, key, value);
      sequence := sequence + 1;
      if ret == SUCCESS {
        tables := tables[o := tables[o][key := Attr(key, value, sequence - 1)]];
        if !hadOld {
          keyvals := Retained(keyvals, key);
        }
      }
    }
  
    /** The attributes of a table in the order in which they were set; qsort is modelled by insertion. */
    method InOrder(o: Object) returns (attrs: seq<Attr>)
      requires Valid() && o in tables
      ensures SetOrder(tables[o], attrs)
    {
      var t := tables[o];
      assert forall k :: k in t ==> AttrOk(keyvals, tables, sequence, o, k);
      attrs := [];
      var left := t.Keys;
      while left != {}
        invariant left <= t.Keys && Ascending(attrs)
        invariant forall k :: k in t ==> (t[k] in attrs <==> k !in left)
        invariant forall a :: a in attrs ==> a.key in t && t[a.key] == a
        invariant forall k :: k in t ==> t[k].key == k
        decreases left
      {
        var k := Pick(left);
        assert AttrOk(keyvals, tables, sequence, o, k);
        forall a | a in attrs
          ensures a.sequence != t[k].sequence
        {
          assert a.key != k;
        }
        attrs := InsertAttr(attrs, t[k]);
        left := left - {k};
      }
    }

    /** What delete_all has done when the attributes from position `left` on are gone. */
    ghost predicate Progress(tables0: map<Object, Table>, deleted0: seq<(Object, int)>, o: Object, attrs: seq<Attr>,
                             left: nat)
      requires left <= |attrs|
      reads this
    {
      Kept(tables0, tables, o, attrs[..left]) && deleted == deleted0 + Backwards(o, attrs, left)
    }

    /** One turn of its loop. */
    method DeleteNext(o: Object, attrs: seq<Attr>, i: nat, result: int -> int,
                      ghost tables0: map<Object, Table>, ghost deleted0: seq<(Object, int)>) returns (ret: int)
      requires Valid() && i < |attrs| && o in tables0 && SetOrder(tables0[o], attrs)
      requires Progress(tables0, deleted0, o, attrs, i + 1) && AllSucceed(attrs, i + 1, result)
      modifies this
      ensures Valid() && ret == result(attrs[i].key)
      ensures ret == SUCCESS ==> Progress(tables0, deleted0, o, attrs, i) && AllSucceed(attrs, i, result)
      ensures ret != SUCCESS ==> Outcome(tables0, tables, deleted0, deleted, o, attrs, i + 1, result, ret)
    {
      StillThere(tables0, tables, o, attrs, i);
      OneMoreCall(deleted0, o, attrs, i);
      assert AttrOk(keyvals, tables, sequence, o, attrs[i].key);
      ret := DeleteImpl(o, attrs[i].key, true, result(attrs[i].key));
    }

    /** Its loop: the last attribute that was set goes first. */
    method DeleteInReverse(o: Object, attrs: seq<Attr>, result: int -> int) returns (ret: int, ghost left: nat)
      requires Valid() && o in tables && SetOrder(tables[o], attrs)
      modifies this
      ensures Valid() && Outcome(old(tables), tables, old(deleted), deleted, o, attrs, left, result, ret)
    {
      NothingGone(tables, o, attrs);
      ret, left := SUCCESS, |attrs|;
      var i := |attrs|;
      while i > 0
        invariant 0 <= i <= |attrs| && left == i && ret == SUCCESS
        invariant Valid() && Progress(old(tables), old(deleted), o, attrs, i) && AllSucceed(attrs, i, result)
      {
        ret := DeleteNext(o, attrs, i - 1, result, old(tables), old(deleted));
        if ret != SUCCESS {
          return;
        }
        i := i - 1;
        left := i;
      }
    }

    /** ompi_attr_delete_all; `result` gives what the delete callback returns for each key.  The
        attributes go in the reverse of the order in which they were set. */
    method DeleteAll(o: Object, result: int -> int) returns (ret: int, ghost attrs: seq<Attr>, ghost left: nat)
      requires Valid()
      modifies this
      ensures Valid()
      ensures o !in old(tables) ==> ret == SUCCESS && unchanged(this)
      ensures o in old(tables) ==>
                SetOrder(old(tables)[o], attrs) && Outcome(old(tables), tables, old(deleted), deleted, o, attrs, left, result, ret)
    {
      ret, attrs, left := SUCCESS, [], 0;
      if o !in tables {
        return;
      }
      var list := InOrder(o);
      attrs := list;
      ret, left := DeleteInReverse(o, list, result);
    }

    /** ompi_attr_copy_all, to another object that has a table; `copy` is what the copy callback answers
        for each key, `err` and `hashError` are the outcomes of storing under each key.  The hash is walked in
        any order, and the first failure ends it. */
    method CopyAll(o: Object, n: Object, copy: int -> Copied, err: int -> int, hashError: int -> int)
      returns (ret: int)
      requires Valid() && n in tables && n != o && n.kind == o.kind
      modifies this
      ensures Valid() && tables.Keys == old(tables.Keys) && freed == old(freed)
      ensures forall p :: p in tables && p != n ==> tables[p] == old(tables)[p]
      ensures o in tables ==> forall k :: CopyOf(old(tables)[o], old(tables)[n], tables[n], copy, k)
      ensures ret == SUCCESS && o in tables ==>
                forall k :: k in tables[o] ==> copy(k).err == SUCCESS && CopyDone(tables[n], copy, k)
      ensures ret != SUCCESS ==> o in tables && exists k :: k in tables[o] && CopyFails(copy(k), err(k), hashError(k), ret)
    {
      ret := SUCCESS;
      if o !in tables {
        return;
      }
      var left := tables[o].Keys;
      while left != {}
        invariant Valid() && tables.Keys == old(tables.Keys) && freed == old(freed) && left <= tables[o].Keys
                  && ret == SUCCESS
        invariant forall p :: p in tables && p != n ==> tables[p] == old(tables)[p]
        invariant forall k :: CopyOf(tables[o], old(tables)[n], tables[n], copy, k)
        invariant forall k :: k in tables[o] && k !in left ==> copy(k).err == SUCCESS && CopyDone(tables[n], copy, k)
        decreases left
      {
        var key := Pick(left);
        assert AttrOk(keyvals, tables, sequence, o, key);
        if copy(key).err != SUCCESS {
          assert CopyFails(copy(key), err(key), hashError(key), copy(key).err);
          return copy(key).err;
        }
        if copy(key).flag {
          ghost var before, when := tables, sequence;
          ret := SetValue(n, key, copy(key).value, true, err(key), hashError(key));
          OneMoreCopy(tables[o], old(tables)[n], before[n], before[n][key := Attr(key, copy(key).value, when)], copy, key, when);
          assert before[n := before[n]] == before;
          if ret != SUCCESS {
            assert CopyFails(copy(key), err(key), hashError(key), ret);
            return;
          }
        }
        left := left - {key};
      }
    }
  }

  /** What a copy callback answers. */
  datatype Copied = Copied(err: int, flag: bool, value: int)

  /** A failure to copy one attribute: the callback's own, or that of storing the copy. */
  predicate CopyFails(copied: Copied, err: int, hashError: int, ret: int) {
    ret != SUCCESS && if copied.err != SUCCESS then ret == copied.err else copied.flag && ret in {err, hashError}
  }

  /** The key is where it was, or has been copied as the callback said. */
  ghost predicate CopyOf(t: Table, before: Table, now: Table, copy: int -> Copied, k: int) {
    || ((k in now <==> k in before) && (k in now ==> now[k] == before[k]))
    || (k in t && copy(k).err == SUCCESS && copy(k).flag && k in now && now[k].value == copy(k).value)
  }

  lemma OneMoreCopy(t: Table, before: Table, now: Table, later: Table, copy: int -> Copied, key: int, sequence: int)
    requires key in t && copy(key).err == SUCCESS && copy(key).flag && forall k :: CopyOf(t, before, now, copy, k)
    requires later == now[key := Attr(key, copy(key).value, sequence)]
    ensures forall k :: CopyOf(t, before, later, copy, k)
  {
    forall k
      ensures CopyOf(t, before, later, copy, k)
    {
      assert CopyOf(t, before, now, copy, k);
    }
  }

  ghost predicate CopyDone(now: Table, copy: int -> Copied, k: int) {
    copy(k).flag ==> k in now && now[k].value == copy(k).value
  }

  method Pick<T(==)>(s: set<T>) returns (x: T)
    requires s != {}
    ensures x in s
  {
    x :| x in s;
  }

  predicate Ascending(attrs: seq<Attr>) {
    forall i, j :: 0 <= i < j < |attrs| ==> attrs[i].sequence < attrs[j].sequence
  }

  /** The attributes of a table in the order in which they were set. */
  ghost predicate SetOrder(t: Table, attrs: seq<Attr>) {
    && Ascending(attrs)
    && (forall k :: k in t ==> t[k].key == k && t[k] in attrs)
    && (forall a :: a in attrs ==> a.key in t && t[a.key] == a)
  }

  function InsertAttr(attrs: seq<Attr>, a: Attr): (r: seq<Attr>)
    requires Ascending(attrs) && forall b :: b in attrs ==> b.sequence != a.sequence
    ensures Ascending(r) && forall b :: b in r <==> b in attrs || b == a
  {
    if attrs == [] then [a]
    else
      var n := |attrs| - 1;
      if attrs[n].sequence < a.sequence then attrs + [a]
      else
        var r := InsertAttr(attrs[..n], a);
        assert attrs[n] in attrs && forall b :: b in r ==> b.sequence < attrs[n].sequence;
        r + [attrs[n]]
  }

  /** The calls of the delete callback for the attributes from position `from` on, the last one first. */
  ghost function Backwards(o: Object, attrs: seq<Attr>, from: nat): (calls: seq<(Object, int)>)
    decreases |attrs| - from
  {
    if from >= |attrs| then [] else Backwards(o, attrs, from + 1) + [(o, attrs[from].key)]
  }

  lemma OneMoreCall(before: seq<(Object, int)>, o: Object, attrs: seq<Attr>, i: nat)
    requires i < |attrs|
    ensures before + Backwards(o, attrs, i) == before + Backwards(o, attrs, i + 1) + [(o, attrs[i].key)]
  {
    var b, c := Backwards(o, attrs, i + 1), [(o, attrs[i].key)];
    assert before + (b + c) == (before + b) + c;
  }

  /** Only object `o` has lost attributes, and it has kept exactly `kept`. */
  ghost predicate Kept(before: map<Object, Table>, now: map<Object, Table>, o: Object, kept: seq<Attr>) {
    && o in before && now.Keys == before.Keys
    && (forall p :: p in before && p != o ==> now[p] == before[p])
    && (forall k :: k in now[o] ==> k in before[o] && now[o][k] == before[o][k])
    && (forall k :: k in before[o] ==> (k in now[o] <==> before[o][k] in kept))
  }

  /** How delete_all ends: `left` attributes stay, namely none, or the one whose callback failed and
      all that were set before it. */
  ghost predicate Outcome(tables0: map<Object, Table>, tables: map<Object, Table>, deleted0: seq<(Object, int)>,
                          deleted: seq<(Object, int)>, o: Object, attrs: seq<Attr>, left: nat, result: int -> int,
                          ret: int)
  {
    && left <= |attrs| && Kept(tables0, tables, o, attrs[..left]) && AllSucceed(attrs, left, result)
    && (if left == 0 then ret == SUCCESS else ret == result(attrs[left - 1].key) != SUCCESS)
    && deleted == deleted0 + Backwards(o, attrs, Max(left - 1, 0))
  }

  ghost predicate AllSucceed(attrs: seq<Attr>, from: nat, result: int -> int) {
    forall i :: from <= i < |attrs| ==> result(attrs[i].key) == SUCCESS
  }

  lemma NothingGone(tables: map<Object, Table>, o: Object, attrs: seq<Attr>)
    requires o in tables && SetOrder(tables[o], attrs)
    ensures Kept(tables, tables, o, attrs[..|attrs|]) && Backwards(o, attrs, |attrs|) == []
  {
    assert attrs[..|attrs|] == attrs;
  }

  /** The next attribute to go is there, and without it those before it are left. */
  lemma StillThere(before: map<Object, Table>, now: map<Object, Table>, o: Object, attrs: seq<Attr>, i: nat)
    requires i < |attrs| && Kept(before, now, o, attrs[..i + 1]) && SetOrder(before[o], attrs)
    ensures attrs[i].key in now[o]
    ensures Kept(before, now[o := now[o] - {attrs[i].key}], o, attrs[..i])
  {
    assert attrs[i] in attrs[..i + 1] && attrs[i] in attrs;
    forall k | k in before[o]
      ensures before[o][k] in attrs[..i] <==> before[o][k] in attrs[..i + 1] && k != attrs[i].key
    {
      OneFewer(before[o], attrs, i, k);
    }
    KeptWithout(before, now, o, attrs[i].key, attrs[..i + 1], attrs[..i]);
  }

  lemma KeptWithout(before: map<Object, Table>, now: map<Object, Table>, o: Object, key: int, kept: seq<Attr>,
                    left: seq<Attr>)
    requires Kept(before, now, o, kept)
    requires forall k :: k in before[o] ==> (before[o][k] in left <==> before[o][k] in kept && k != key)
    ensures Kept(before, now[o := now[o] - {key}], o, left)
  {
  }

  lemma OneFewer(t: Table, attrs: seq<Attr>, i: nat, k: int)
    requires i < |attrs| && SetOrder(t, attrs) && k in t
    ensures t[k] in attrs[..i] <==> t[k] in attrs[..i + 1] && k != attrs[i].key
  {
    assert attrs[..i + 1] == attrs[..i] + [attrs[i]] && attrs[i] in attrs;
    if t[k] in attrs[..i] {
      var j :| 0 <= j < i && attrs[j] == t[k];
      assert attrs[j].sequence < attrs[i].sequence;
    }
  }

  /** OBJ_RETAIN of a keyval. */
  function Retained(keyvals: map<int, Keyval>, key: int): (r: map<int, Keyval>)
    requires key in keyvals
  {
    keyvals[key := keyvals[key].(refs := keyvals[key].refs + 1)]
  }

  lemma EmptyTableKeepsConsistent(keyvals: map<int, Keyval>, bits: set<int>, freed: set<int>,
                                  tables: map<Object, Table>, sequence: int, o: Object)
    requires Consistent(keyvals, bits, freed, tables, sequence) && o !in tables
    ensures Consistent(keyvals, bits, freed, tables[o := map[]], sequence)
  {
    var now := tables[o := map[]];
    forall k | k in keyvals
      ensures Counted(keyvals, freed, now, k)
    {
      assert Counted(keyvals, freed, tables, k);
      assert Holders(now, k) == Holders(tables, k);
    }
    forall p, k | p in now && k in now[p]
      ensures AttrOk(keyvals, now, sequence, p, k)
    {
      assert AttrOk(keyvals, tables, sequence, p, k);
    }
  }

  /** Storing an attribute, new or in the place of an old one; and storing nothing. */
  lemma AttachKeepsConsistent(keyvals: map<int, Keyval>, bits: set<int>, freed: set<int>, tables: map<Object, Table>,
                              sequence: int,
                              o: Object, key: int, value: int)
    requires Consistent(keyvals, bits, freed, tables, sequence) && o in tables && key in keyvals
             && keyvals[key].kind == o.kind
    ensures Consistent(keyvals, bits, freed, tables, sequence + 1)
    ensures var t := tables[o][key := Attr(key, value, sequence)];
            Consistent(if key in tables[o] then keyvals else Retained(keyvals, key), bits, freed, tables[o := t], sequence + 1)
  {
    forall p, k | p in tables && k in tables[p]
      ensures AttrOk(keyvals, tables, sequence + 1, p, k)
    {
      assert AttrOk(keyvals, tables, sequence, p, k);
    }
    AttachCounted(keyvals, freed, tables, o, key, Attr(key, value, sequence));
    AttachAttrs(keyvals, tables, sequence, o, key, value);
    AttachOrdered(keyvals, tables, sequence, o, key, value);
  }

  lemma AttachCounted(keyvals: map<int, Keyval>, freed: set<int>, tables: map<Object, Table>, o: Object, key: int,
                      attr: Attr)
    requires AllCounted(keyvals, freed, tables) && o in tables && key in keyvals
    ensures AllCounted(if key in tables[o] then keyvals else Retained(keyvals, key), freed, tables[o := tables[o][key := attr]])
  {
    var now := tables[o := tables[o][key := attr]];
    var kv := if key in tables[o] then keyvals else Retained(keyvals, key);
    forall k | k in kv
      ensures k >= 0 && Counted(kv, freed, now, k)
    {
      assert Counted(keyvals, freed, tables, k);
      HoldersPut(tables, o, now[o], k);
      assert o in Holders(tables, k) <==> k in tables[o];
      if key in tables[o] || k != key {
        assert Holders(now, k) == Holders(tables, k);
      } else {
        assert |Holders(now, k)| == |Holders(tables, k)| + 1;
      }
    }
  }

  lemma AttachAttrs(keyvals: map<int, Keyval>, tables: map<Object, Table>, sequence: int, o: Object, key: int,
                    value: int)
    requires AllAttrsOk(keyvals, tables, sequence) && o in tables && key in keyvals && keyvals[key].kind == o.kind
    ensures var t := tables[o][key := Attr(key, value, sequence)];
            AllAttrsOk(if key in tables[o] then keyvals else Retained(keyvals, key), tables[o := t], sequence + 1)
  {
    var now := tables[o := tables[o][key := Attr(key, value, sequence)]];
    var kv := if key in tables[o] then keyvals else Retained(keyvals, key);
    forall p, k | p in now && k in now[p]
      ensures AttrOk(kv, now, sequence + 1, p, k)
    {
      if p != o || k != key {
        assert AttrOk(keyvals, tables, sequence, p, k);
      }
    }
  }

  lemma AttachOrdered(keyvals: map<int, Keyval>, tables: map<Object, Table>, sequence: int, o: Object, key: int,
                      value: int)
    requires AllAttrsOk(keyvals, tables, sequence) && Ordered(tables) && o in tables
    ensures Ordered(tables[o := tables[o][key := Attr(key, value, sequence)]])
  {
    var now := tables[o := tables[o][key := Attr(key, value, sequence)]];
    forall p, k | p in tables && k in tables[p]
      ensures tables[p][k].sequence < sequence
    {
      assert AttrOk(keyvals, tables, sequence, p, k);
    }
    assert AllDifferent(tables[o]);
  }

  /** Taking an attribute away together with its reference. */
  lemma DetachKeepsConsistent(keyvals: map<int, Keyval>, bits: set<int>, freed: set<int>, tables: map<Object, Table>,
                              sequence: int,
                              o: Object, key: int)
    requires Consistent(keyvals, bits, freed, tables, sequence) && o in tables && key in tables[o]
    ensures key in keyvals
    ensures var last := keyvals[key].refs == 1;
            Consistent(Released(keyvals, key), if last then bits - {key} else bits,
                       if last then freed - {key} else freed, tables[o := tables[o] - {key}], sequence)
  {
    assert AttrOk(keyvals, tables, sequence, o, key);
    var now := tables[o := tables[o] - {key}];
    DetachCounted(keyvals, freed, tables, o, key);
    forall p, k | p in now && k in now[p]
      ensures AttrOk(Released(keyvals, key), now, sequence, p, k)
    {
      assert AttrOk(keyvals, tables, sequence, p, k);
      if k == key {
        assert p in Holders(now, key);
      }
    }
  }

  lemma DetachCounted(keyvals: map<int, Keyval>, freed: set<int>, tables: map<Object, Table>, o: Object, key: int)
    requires AllCounted(keyvals, freed, tables) && o in tables && key in tables[o] && key in keyvals
    ensures AllCounted(Released(keyvals, key), if keyvals[key].refs == 1 then freed - {key} else freed, tables[o := tables[o] - {key}])
    ensures keyvals[key].refs == 1 ==> Holders(tables[o := tables[o] - {key}], key) == {}
  {
    var now := tables[o := tables[o] - {key}];
    var kv, fr := Released(keyvals, key), if keyvals[key].refs == 1 then freed - {key} else freed;
    assert Counted(keyvals, freed, tables, key) && o in Holders(tables, key);
    HoldersPut(tables, o, now[o], key);
    assert |Holders(now, key)| == |Holders(tables, key)| - 1;
    assert keyvals[key].refs == 1 ==> |Holders(now, key)| == 0;
    forall k | k in kv
      ensures k >= 0 && Counted(kv, fr, now, k)
    {
      assert Counted(keyvals, freed, tables, k);
      if k != key {
        HoldersPut(tables, o, now[o], k);
        assert o in Holders(tables, k) <==> k in tables[o];
        assert Holders(now, k) == Holders(tables, k);
      }
    }
  }

  lemma NoHolders(keyvals: map<int, Keyval>, tables: map<Object, Table>, sequence: int, key: int)
    requires key !in keyvals
    requires forall o, k :: o in tables && k in tables[o] ==> AttrOk(keyvals, tables, sequence, o, k)
    ensures Holders(tables, key) == {}
  {
    assert forall o :: o in tables && key in tables[o] ==> AttrOk(keyvals, tables, sequence, o, key);
  }

  /** The state in which a release ends. */
  ghost function Released(keyvals: map<int, Keyval>, key: int): (r: map<int, Keyval>)
    requires key in keyvals
  {
    if keyvals[key].refs == 1 then keyvals - {key} else keyvals[key := keyvals[key].(refs := keyvals[key].refs - 1)]
  }

  lemma FreedKeepsConsistent(keyvals: map<int, Keyval>, bits: set<int>, freed: set<int>, tables: map<Object, Table>,
                             sequence: int, key: int)
    requires Consistent(keyvals, bits, freed, tables, sequence) && key in keyvals && key !in freed
    ensures var last := keyvals[key].refs == 1;
            Consistent(Released(keyvals, key), if last then bits - {key} else bits,
                       if last then freed + {key} - {key} else freed + {key}, tables, sequence)
    ensures keyvals[key].refs == 1 <==> Holders(tables, key) == {}
  {
    assert Counted(keyvals, freed, tables, key);
    var last := keyvals[key].refs == 1;
    var kv, fr := Released(keyvals, key), if last then freed + {key} - {key} else freed + {key};
    forall k | k in kv
      ensures k >= 0 && Counted(kv, fr, tables, k)
    {
      assert Counted(keyvals, freed, tables, k);
    }
    forall o, k | o in tables && k in tables[o]
      ensures AttrOk(kv, tables, sequence, o, k)
    {
      assert AttrOk(keyvals, tables, sequence, o, k);
      if k == key {
        assert o in Holders(tables, key);
      }
    }
  }

  /** Freeing a keyval a second time, while objects still hold its key, takes a reference that is not the
      creator's: the counts are wrong, or an attribute has lost its keyval. */
  lemma FreedTwiceBreaks(keyvals: map<int, Keyval>, bits: set<int>, freed: set<int>, tables: map<Object, Table>,
                         sequence: int, key: int)
    requires Consistent(keyvals, bits, freed, tables, sequence) && key in keyvals && key in freed
    ensures !(AllCounted(Released(keyvals, key), freed, tables) && AllAttrsOk(Released(keyvals, key), tables, sequence))
  {
    assert Counted(keyvals, freed, tables, key);
    var o :| o in Holders(tables, key);
    if keyvals[key].refs == 1 {
      assert !AttrOk(Released(keyvals, key), tables, sequence, o, key);
    } else {
      assert !Counted(Released(keyvals, key), freed, tables, key);
    }
  }
}
