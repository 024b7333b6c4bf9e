/**
 * IterableMap of pycommons/collections/maps/iterable.py and what every map layer shares.
 *
 * A UserDict keeps its entries in `self.data`, a Python dict. Class `Dict` is that dict:
 * its keys in insertion order and its entries. `Table` holds the same pair as a value, and
 * `Put`/`PutAll` state what a write does to it. `ItemsIterator` is the iterator that
 * `iter(self.data.items())` returns, with CPython's checks for size changes and exhaustion.
 * `MapIterator` is the cursor the library walks maps with: stepping it gives a fresh
 * cursor, and `set_value` writes through to the shared dict under the cursor's key.
 */
module IterableMaps {
  import opened Base
  import OrderedSets

  datatype Table<K, V> = Table(keys: seq<K>, entries: map<K, V>)

  /** A dict's invariant: each key is listed once, and the listed keys are the entry keys. */
  ghost predicate TableValid<K, V>(t: Table<K, V>) {
    NoDuplicates(t.keys) &&
    (forall i :: 0 <= i < |t.keys| ==> t.keys[i] in t.entries) &&
    (forall k :: k in t.entries ==> k in t.keys)
  }

  function EmptyTable<K, V>(): Table<K, V> {
    Table([], map[])
  }

  /** `d[k] = v`: a new key goes to the end of the order, an existing key keeps its place. */
  function Put<K(==), V>(t: Table<K, V>, k: K, v: V): Table<K, V> {
    Table(if k in t.entries then t.keys else t.keys + [k], t.entries[k := v])
  }

  /** Writing the pairs one after another, as `update` and the UserDict constructor do. */
  function PutAll<K(==), V>(t: Table<K, V>, pairs: seq<(K, V)>): Table<K, V> {
    if pairs == [] then t
    else
      var last := pairs[|pairs| - 1];
      Put(PutAll(t, pairs[..|pairs| - 1]), last.0, last.1)
  }

  /** The keys of a sequence of pairs, in order and with repetitions. */
  function KeysOf<K, V>(pairs: seq<(K, V)>): (ks: seq<K>)
    ensures |ks| == |pairs|
    ensures forall i :: 0 <= i < |pairs| ==> ks[i] == pairs[i].0
  {
    if pairs == [] then [] else KeysOf(pairs[..|pairs| - 1]) + [pairs[|pairs| - 1].0]
  }

  /**
   * A write keeps the invariant, stores v under k, leaves every other entry alone, and
   * adds k at the end of the order exactly when k was not yet a key.
   */
  lemma PutSpec<K, V>(t: Table<K, V>, k: K, v: V)
    requires TableValid(t)
    ensures TableValid(Put(t, k, v))
    ensures k in Put(t, k, v).entries && Put(t, k, v).entries[k] == v
    ensures forall j :: j != k && j in t.entries ==> j in Put(t, k, v).entries && Put(t, k, v).entries[j] == t.entries[j]
    ensures k in t.entries ==> Put(t, k, v).keys == t.keys
    ensures k !in t.entries ==> Put(t, k, v).keys == t.keys + [k]
  {
  }

  /** len(d): the number of listed keys is the number of entries. */
  lemma {:induction false} SizeIsEntryCount<K, V>(t: Table<K, V>)
    requires TableValid(t)
    ensures |t.keys| == |t.entries|
  {
    DistinctElements(t.keys);
    assert t.entries.Keys == set x | x in t.keys;
  }

  /**
   * Writing a sequence of pairs into an empty dict keeps the invariant and orders the keys
   * by their first occurrence among the pairs.
   */
  lemma {:induction false} PutAllFromEmpty<K, V>(pairs: seq<(K, V)>)
    ensures TableValid(PutAll(EmptyTable(), pairs))
    ensures PutAll(EmptyTable(), pairs).keys == OrderedSets.FirstOccurrences(KeysOf(pairs))
  {
    if pairs != [] {
      var init := pairs[..|pairs| - 1];
      var last := pairs[|pairs| - 1];
      var t := PutAll(EmptyTable(), init);
      PutAllFromEmpty(init);
      PutSpec(t, last.0, last.1);
      assert KeysOf(pairs)[..|pairs| - 1] == KeysOf(init);
      assert (last.0 in t.entries) <==> (last.0 in t.keys);
    }
  }

  /** Python's dict, as the `data` attribute of a UserDict. */
  class Dict<K(==), V> {
    var keys: seq<K>
    var entries: map<K, V>

    function Contents(): Table<K, V>
      reads this
    {
      Table(keys, entries)
    }

    ghost predicate Valid()
      reads this
    {
      TableValid(Contents())
    }

    constructor ()
      ensures Valid() && Contents() == EmptyTable()
    {
      keys := [];
      entries := map[];
    }

    /** `self.data[k] = v`. */
    method Set(k: K, v: V)
      requires Valid()
      modifies this
      ensures Valid()
      ensures Contents() == Put(old(Contents()), k, v)
    {
      PutSpec(Contents(), k, v);
      if k !in entries {
        keys := keys + [k];
      }
      entries := entries[k := v];
    }

    /** `self.data.update(pairs)`: the pairs are written in order. */
    method Update(pairs: seq<(K, V)>)
      requires Valid()
      modifies this
      ensures Valid()
      ensures Contents() == PutAll(old(Contents()), pairs)
    {
      for i := 0 to |pairs|
        invariant Valid()
        invariant Contents() == PutAll(old(Contents()), pairs[..i])
      {
        assert pairs[..i + 1][..i] == pairs[..i];
        Set(pairs[i].0, pairs[i].1);
      }
      assert pairs[..|pairs|] == pairs;
    }
  }

  /**
   * The bookkeeping of CPython's dict item iterator: the dict size seen when iteration
   * began (-1 after a size change was reported), the next position, and whether the end
   * was reached.
   */
  datatype IterState = IterState(expected: int, pos: nat, exhausted: bool)

  function StartState<K, V>(t: Table<K, V>): IterState {
    IterState(|t.keys|, 0, false)
  }

  /**
   * One `next()` on an items iterator over a dict whose contents are now `t`. An exhausted
   * iterator keeps raising StopIteration; a dict whose size changed raises RuntimeError;
   * the end of the keys raises StopIteration and marks the iterator exhausted.
   */
  function Advance<K(==), V>(s: IterState, t: Table<K, V>): (step: (IterState, Result<(K, V)>))
    requires TableValid(t)
  {
    if s.exhausted then (s, Failure(StopIteration))
    else if |t.keys| != s.expected then (s.(expected := -1), Failure(RuntimeError))
    else if s.pos >= |t.keys| then (s.(exhausted := true), Failure(StopIteration))
    else (s.(pos := s.pos + 1), Success((t.keys[s.pos], t.entries[t.keys[s.pos]])))
  }

  /**
   * Over a dict that does not change, the steps from the start yield the entries in key
   * order and then StopIteration, after which the iterator stays exhausted.
   */
  lemma WalkInKeyOrder<K, V>(t: Table<K, V>, i: nat)
    requires TableValid(t) && i <= |t.keys|
    ensures var s := IterState(|t.keys|, i, false);
      if i < |t.keys| then
        Advance(s, t) == (IterState(|t.keys|, i + 1, false), Success((t.keys[i], t.entries[t.keys[i]])))
      else
        Advance(s, t).1 == Failure(StopIteration) && Advance(s, t).0.exhausted &&
        Advance(Advance(s, t).0, t).1 == Failure(StopIteration)
  {
  }

  /** Once a size change is reported, every later step raises RuntimeError, whatever the dict holds. */
  lemma SizeChangeIsFinal<K, V>(s: IterState, t: Table<K, V>)
    requires TableValid(t) && !s.exhausted && |t.keys| != s.expected
    ensures Advance(s, t).1 == Failure(RuntimeError)
    ensures forall t': Table<K, V> :: TableValid(t') ==> Advance(Advance(s, t).0, t').1 == Failure(RuntimeError)
  {
  }

  /** `iter(self.data.items())`. */
  class ItemsIterator<K(==), V> {
    const dict: Dict<K, V>
    var state: IterState

    constructor (d: Dict<K, V>)
      ensures dict == d && state == StartState(d.Contents())
    {
      dict := d;
      state := IterState(|d.keys|, 0, false);
    }

    method Next() returns (r: Result<(K, V)>)
      requires dict.Valid()
      modifies this
      ensures (state, r) == Advance(old(state), dict.Contents())
    {
      var t := dict.Contents();
      if state.exhausted {
        r := Failure(StopIteration);
      } else if |dict.keys| != state.expected {
        state := state.(expected := -1);
        r := Failure(RuntimeError);
      } else if state.pos >= |dict.keys| {
        state := state.(exhausted := true);
        r := Failure(StopIteration);
      } else {
        r := Success((dict.keys[state.pos], dict.entries[dict.keys[state.pos]]));
        state := state.(pos := state.pos + 1);
      }
    }
  }

  /**
   * MapIterator (and UnmodifiableMapIterator when `readOnly`): a cursor at one entry of a
   * dict. The dict's key type includes None, because a cursor that was never stepped has
   * key None and `set_value` writes under that key.
   */
  class MapIterator<K(==), V> {
    const data: Dict<Option<K>, V>
    const items: ItemsIterator<Option<K>, V>
    const readOnly: bool
    var key: Option<K>
    var value: Option<V>

    ghost predicate Valid()
      reads this, data
    {
      data.Valid() && items.dict == data
    }

    constructor (data: Dict<Option<K>, V>, items: ItemsIterator<Option<K>, V>, readOnly: bool,
                 key: Option<K>, value: Option<V>)
      ensures this.data == data && this.items == items && this.readOnly == readOnly
      ensures this.key == key && this.value == value
    {
      this.data := data;
      this.items := items;
      this.readOnly := readOnly;
      this.key := key;
      this.value := value;
    }

    /**
     * set_value: writes `val` under the cursor's key and returns the value the cursor held
     * before (None on a cursor that was never stepped). A read-only cursor raises TypeError.
     */
    method SetValue(val: V) returns (r: Result<Option<V>>)
      requires Valid()
      modifies this, data
      ensures Valid()
      ensures readOnly ==> r == Failure(TypeError) && unchanged(this, data)
      ensures !readOnly ==>
        r == Success(old(value)) && key == old(key) && value == Some(val) &&
        data.Contents() == Put(old(data.Contents()), key, val)
    {
      if readOnly {
        return Failure(TypeError);
      }
      var previous := value;
      value := Some(val);
      data.Set(key, val);
      r := Success(previous);
    }

    /** The `value` property setter: set_value without its result. */
    method AssignValue(val: V) returns (r: Outcome)
      requires Valid()
      modifies this, data
      ensures Valid()
      ensures readOnly ==> r == Fail(TypeError) && unchanged(this, data)
      ensures !readOnly ==>
        r == Pass && key == old(key) && value == Some(val) &&
        data.Contents() == Put(old(data.Contents()), key, val)
    {
      var written := SetValue(val);
      r := if written.Success? then Pass else Fail(written.error);
    }

    /**
     * __next__: one step of the shared items iterator; on success a fresh cursor of the same
     * kind at the entry stepped to. The dict and this cursor are left as they are.
     */
    method Next() returns (r: Result<MapIterator<K, V>>)
      requires Valid()
      modifies items
      ensures items.state == Advance(old(items.state), data.Contents()).0
      ensures Advance(old(items.state), data.Contents()).1.Failure? ==>
        r == Failure(Advance(old(items.state), data.Contents()).1.error)
      ensures Advance(old(items.state), data.Contents()).1.Success? ==>
        var entry := Advance(old(items.state), data.Contents()).1.value;
        r.Success? && fresh(r.value) && r.value.Valid() &&
        r.value.data == data && r.value.items == items && r.value.readOnly == readOnly &&
        r.value.key == entry.0 && r.value.value == Some(entry.1)
    {
      var step := items.Next();
      if step.Failure? {
        return Failure(step.error);
      }
      var cursor := new MapIterator(data, items, readOnly, step.value.0, Some(step.value.1));
      r := Success(cursor);
    }
  }

  /** IterableMap.map_iterator (and `__iter__`): a writable cursor before the first entry. */
  method MapIteratorOf<K(==), V>(d: Dict<Option<K>, V>) returns (it: MapIterator<K, V>)
    requires d.Valid()
    ensures fresh(it) && fresh(it.items) && it.Valid()
    ensures it.data == d && !it.readOnly && it.key == None && it.value == None
    ensures it.items.state == StartState(d.Contents())
  {
    var items := new ItemsIterator(d);
    it := new MapIterator(d, items, false, None, None);
  }

  /**
   * `for x in m` steps `__iter__`, which is `map_iterator`: what the loop receives is a
   * cursor at the first entry, not the first key. This departs from a dict, and it is what
   * UserDict's `keys()`, `values()` and `for k in m` then iterate over.
   */
  method FirstIterationStep<K(==), V>(d: Dict<Option<K>, V>) returns (step: Result<MapIterator<K, V>>)
    requires d.Valid() && d.keys != []
    ensures step.Success?
    ensures step.value.key == d.keys[0] && step.value.value == Some(d.entries[d.keys[0]])
  {
    var it := MapIteratorOf(d);
    WalkInKeyOrder(d.Contents(), 0);
    step := it.Next();
  }

  /**
   * Writing through a cursor that was never stepped stores the value under the key None,
   * and grows the dict when None was not a key, so the next step raises RuntimeError.
   */
  method WriteBeforeFirstStep<K(==), V>(d: Dict<Option<K>, V>, v: V) returns (step: Result<MapIterator<K, V>>)
    requires d.Valid() && None !in d.entries
    modifies d
    ensures d.entries == old(d.entries)[None := v]
    ensures d.keys == old(d.keys) + [None]
    ensures step == Failure(RuntimeError)
  {
    var it := MapIteratorOf(d);
    var written := it.SetValue(v);
    step := it.Next();
  }
}
