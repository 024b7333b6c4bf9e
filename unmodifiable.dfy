/**
 * UnmodifiableMap and UnmodifiableLateInitMap of pycommons/collections/maps/unmodifiable.py.
 *
 * The map is filled while a private flag (`initialising` here) is set: the UserDict
 * constructor calls the overridden `update`, which writes the initial entries straight
 * into the dict. Then `max_size` is fixed to the number of entries and the flag is
 * cleared. From then on every mutator raises TypeError, except that a late-init map
 * accepts one write for each key it does not hold yet. Keys have type Option<K> because
 * None is a key here like any other: it is refused by `__setitem__` during construction,
 * and a cursor that was never stepped writes under it.
 */
module UnmodifiableMaps {
  import opened Base
  import opened IterableMaps

  /** `_allow_set_item`: any key but None while initialising; for a late-init map also any absent key. */
  function AllowSetItem<K(==), V>(initialising: bool, lateInit: bool, t: Table<Option<K>, V>, k: Option<K>): bool {
    (initialising && k.Some?) || (lateInit && k !in t.entries)
  }

  /** `m[k] = v`: a dict write when allowed, TypeError otherwise. */
  function GuardedPut<K(==), V>(initialising: bool, lateInit: bool, t: Table<Option<K>, V>, k: Option<K>, v: V): Result<Table<Option<K>, V>> {
    if AllowSetItem(initialising, lateInit, t, k) then Success(Put(t, k, v)) else Failure(TypeError)
  }

  /** Once constructed, a plain UnmodifiableMap refuses every write, whatever the key. */
  lemma FrozenRefusesWrites<K, V>(t: Table<Option<K>, V>, k: Option<K>, v: V)
    ensures GuardedPut(false, false, t, k, v) == Failure(TypeError)
  {
  }

  /**
   * Once constructed, a late-init map accepts a write exactly when the key is absent, None
   * included; after that write the same key is refused, and nothing else changed.
   */
  lemma LateInitWritesOnce<K, V>(t: Table<Option<K>, V>, k: Option<K>, v: V, v': V)
    requires TableValid(t)
    ensures GuardedPut(false, true, t, k, v).Success? <==> k !in t.entries
    ensures GuardedPut(false, true, t, k, v).Failure? ==> GuardedPut(false, true, t, k, v).error == TypeError
    ensures GuardedPut(false, true, t, k, v).Success? ==>
      var t' := GuardedPut(false, true, t, k, v).value;
      TableValid(t') && t'.keys == t.keys + [k] && t'.entries == t.entries[k := v] &&
      GuardedPut(false, true, t', k, v') == Failure(TypeError)
  {
    PutSpec(t, k, v);
  }

  /** While initialising, `__setitem__` accepts any key except None. */
  lemma InitialisingRefusesNone<K, V>(lateInit: bool, t: Table<Option<K>, V>, k: Option<K>, v: V)
    requires k !in t.entries ==> !lateInit
    ensures GuardedPut(true, lateInit, t, k, v).Success? <==> k.Some?
  {
  }

  class UnmodifiableMap<K(==), V> {
    const data: Dict<Option<K>, V>
    const lateInit: bool       // UnmodifiableLateInitMap
    var initialising: bool     // the name-mangled `__init` flag
    var maxSizeAtInit: int     // `_max_size`

    /** The state every public operation sees: construction is over. */
    ghost predicate Valid()
      reads this, data
    {
      data.Valid() && !initialising
    }

    /**
     * UnmodifiableMap(seeds), or UnmodifiableLateInitMap(seeds) when `lateInit`: the seeds go
     * through `update` while the flag is set, None keys included.
     */
    constructor (seeds: seq<(Option<K>, V)>, lateInit: bool)
      ensures Valid() && fresh(data) && this.lateInit == lateInit
      ensures data.Contents() == PutAll(EmptyTable(), seeds)
      ensures maxSizeAtInit == |data.keys|
    {
      data := new Dict();
      this.lateInit := lateInit;
      initialising := true;
      maxSizeAtInit := 0;
      new;
      var seeded := Update(seeds);
      maxSizeAtInit := |data.keys|;
      initialising := false;
    }

    predicate AllowSetItemNow(k: Option<K>)
      reads this, data
    {
      AllowSetItem(initialising, lateInit, data.Contents(), k)
    }

    /** __setitem__: TypeError, with nothing changed, unless `_allow_set_item` says yes. */
    method Set(k: Option<K>, v: V) returns (r: Outcome)
      requires data.Valid()
      modifies data
      ensures data.Valid()
      ensures var w := GuardedPut(initialising, lateInit, old(data.Contents()), k, v);
        (w.Success? ==> r == Pass && data.Contents() == w.value) &&
        (w.Failure? ==> r == Fail(w.error) && data.Contents() == old(data.Contents()))
    {
      if AllowSetItemNow(k) {
        data.Set(k, v);
        r := Pass;
      } else {
        r := Fail(TypeError);
      }
    }

    /** update: straight into the dict while initialising, TypeError afterwards. */
    method Update(pairs: seq<(Option<K>, V)>) returns (r: Outcome)
      requires data.Valid()
      modifies data
      ensures data.Valid()
      ensures initialising ==> r == Pass && data.Contents() == PutAll(old(data.Contents()), pairs)
      ensures !initialising ==> r == Fail(TypeError) && data.Contents() == old(data.Contents())
    {
      if initialising {
        data.Update(pairs);
        r := Pass;
      } else {
        r := Fail(TypeError);
      }
    }

    /** popitem after construction. */
    method PopItem() returns (r: Result<(Option<K>, V)>)
      requires Valid()
      ensures r == Failure(TypeError)
    {
      r := Failure(TypeError);
    }

    /** `del m[k]` after construction. */
    method Delete(k: Option<K>) returns (r: Outcome)
      requires Valid()
      ensures r == Fail(TypeError)
    {
      r := Fail(TypeError);
    }

    /** pop(k) and pop(k, default) after construction. */
    method Pop(k: Option<K>, default: Option<V>) returns (r: Result<V>)
      requires Valid()
      ensures r == Failure(TypeError)
    {
      r := Failure(TypeError);
    }

    /** clear after construction. */
    method Clear() returns (r: Outcome)
      requires Valid()
      ensures r == Fail(TypeError)
    {
      r := Fail(TypeError);
    }

    /**
     * max_size: the number of entries at construction; for a late-init map the number of
     * entries now.
     */
    function MaxSize(): (n: int)
      reads this, data
      requires Valid()
      ensures lateInit ==> n == |data.keys|
      ensures !lateInit ==> n == maxSizeAtInit
    {
      if lateInit then |data.keys| else maxSizeAtInit
    }

    /** is_full: always for a plain map, never for a late-init map. */
    predicate IsFull()
      reads this
    {
      !lateInit
    }

    /** items_iterator: a read-only cursor before the first entry. */
    method ItemsIterator() returns (it: MapIterator<K, V>)
      requires Valid()
      ensures fresh(it) && fresh(it.items) && it.Valid()
      ensures it.data == data && it.readOnly && it.key == None && it.value == None
      ensures it.items.state == StartState(data.Contents())
    {
      var items := new IterableMaps.ItemsIterator(data);
      it := new MapIterator(data, items, true, None, None);
    }
  }

  /**
   * `__iter__` and `map_iterator` are inherited from IterableMap and give a writable cursor,
   * so a constructed plain UnmodifiableMap, whose own `__setitem__` refuses every key, is
   * changed by a write through it (under the key None, as the cursor was not stepped).
   */
  method WriteThroughInheritedIterator<K(==), V>(m: UnmodifiableMap<K, V>, v: V) returns (refused: Outcome)
    requires m.Valid() && !m.lateInit
    modifies m.data
    ensures refused == Fail(TypeError)
    ensures m.data.Contents() == Put(old(m.data.Contents()), None, v)
  {
    refused := m.Set(None, v);
    var it := MapIteratorOf(m.data);
    var previous := it.SetValue(v);
  }

  /** A cursor from `items_iterator` refuses the same write and leaves the map as it was. */
  method WriteThroughItemsIterator<K(==), V>(m: UnmodifiableMap<K, V>, v: V) returns (r: Result<Option<V>>)
    requires m.Valid()
    modifies m.data
    ensures r == Failure(TypeError)
    ensures m.data.Contents() == old(m.data.Contents())
  {
    var it := m.ItemsIterator();
    r := it.SetValue(v);
  }
}
