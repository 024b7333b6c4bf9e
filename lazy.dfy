/**
 * LazyMap and LazyOrderedMap of pycommons/collections/maps/lazy.py: reading a missing key
 * applies the factory to it, stores the result, and returns it.
 *
 * The factory may keep state between calls (a counter, say), so it is modelled as a
 * function of the keys it was applied to before and of the key; `calls` records those keys.
 */
module LazyMaps {
  import opened Base
  import opened IterableMaps
  import OrderedMaps

  /** The state a lookup reads and updates: the dict's contents and the factory's history. */
  datatype LazyState<K, V> = LazyState(table: Table<K, V>, calls: seq<K>)

  /**
   * `m[k]`: a stored key gives its value and changes nothing; a missing key gets the
   * factory's value, which is stored under it, and is added to the history.
   */
  function LazyGet<K(==), V>(s: LazyState<K, V>, factory: (seq<K>, K) -> V, k: K): (V, LazyState<K, V>) {
    if k in s.table.entries then (s.table.entries[k], s)
    else
      var v := factory(s.calls, k);
      (v, LazyState(Put(s.table, k, v), s.calls + [k]))
  }

  /**
   * A lookup keeps the dict's invariant, leaves the returned value stored under the key,
   * leaves every other entry alone, and calls the factory exactly when the key was missing.
   */
  lemma LazyGetSpec<K, V>(s: LazyState<K, V>, factory: (seq<K>, K) -> V, k: K)
    requires TableValid(s.table)
    ensures var (v, s') := LazyGet(s, factory, k);
      TableValid(s'.table) && k in s'.table.entries && s'.table.entries[k] == v &&
      (forall j :: j in s.table.entries ==> j in s'.table.entries && s'.table.entries[j] == s.table.entries[j]) &&
      (k in s.table.entries <==> s'.calls == s.calls) &&
      (k !in s.table.entries <==> s'.calls == s.calls + [k])
  {
    PutSpec(s.table, k, LazyGet(s, factory, k).0);
  }

  /** Reading the same key twice gives the same value, and the second read calls nothing. */
  lemma LazyGetTwice<K, V>(s: LazyState<K, V>, factory: (seq<K>, K) -> V, k: K)
    requires TableValid(s.table)
    ensures var (v1, s1) := LazyGet(s, factory, k);
      LazyGet(s1, factory, k) == (v1, s1)
  {
    LazyGetSpec(s, factory, k);
  }

  /** The factory of the tests: a counter that goes up by two on every call. */
  function CountingFactory<K>(): (seq<K>, K) -> int {
    (calls: seq<K>, k: K) => 2 * (|calls| + 1)
  }

  /**
   * Reading four distinct keys from an empty map gives 2, 4, 6, 8, a repeated read gives
   * the stored value again, and the keys are stored in the order they were first read.
   */
  lemma CountingScenario<K>(k1: K, k2: K, k3: K, k0: K)
    requires k1 != k2 && k1 != k3 && k1 != k0 && k2 != k3 && k2 != k0 && k3 != k0
    ensures var f := CountingFactory<K>();
      var (a, s1) := LazyGet(LazyState(EmptyTable(), []), f, k1);
      var (b, s2) := LazyGet(s1, f, k2);
      var (c, s3) := LazyGet(s2, f, k3);
      var (c', s3') := LazyGet(s3, f, k3);
      var (d, s4) := LazyGet(s3', f, k0);
      a == 2 && b == 4 && c == 6 && c' == 6 && d == 8 &&
      s4.table.keys == [k1, k2, k3, k0]
  {
  }

  class LazyMap<K(==), V> {
    const data: Dict<K, V>
    const factory: (seq<K>, K) -> V
    var calls: seq<K>

    ghost predicate Valid()
      reads this, data
    {
      data.Valid()
    }

    /** LazyMap(factory, seeds): the seeds are written in order into a new dict. */
    constructor (factory: (seq<K>, K) -> V, seeds: seq<(K, V)>)
      ensures Valid() && fresh(data)
      ensures this.factory == factory && calls == []
      ensures data.Contents() == PutAll(EmptyTable(), seeds)
    {
      this.factory := factory;
      calls := [];
      data := new Dict();
      new;
      data.Update(seeds);
    }

    /** The lazy part of a map whose dict is `store` (how LazyOrderedMap is put together). */
    constructor Over(factory: (seq<K>, K) -> V, store: Dict<K, V>)
      ensures data == store && this.factory == factory && calls == []
    {
      this.factory := factory;
      calls := [];
      data := store;
    }

    /** __getitem__. */
    method Get(k: K) returns (v: V)
      requires Valid()
      modifies this, data
      ensures Valid()
      ensures (v, LazyState(data.Contents(), calls)) ==
        LazyGet(LazyState(old(data.Contents()), old(calls)), factory, k)
    {
      if k !in data.entries {
        var produced := factory(calls, k);
        data.Set(k, produced);
        calls := calls + [k];
      }
      v := data.entries[k];
    }
  }

  /** LazyOrderedMap: the lazy lookup over the dict of an OrderedMap, rendered as one. */
  class LazyOrderedMap<K(==), V> {
    const ordered: OrderedMaps.OrderedMap<K, V>
    const lazy: LazyMap<K, V>

    ghost predicate Valid()
      reads this, lazy, ordered.data
    {
      lazy.data == ordered.data && ordered.data.Valid()
    }

    /** LazyOrderedMap(factory): empty; it takes no initial entries. */
    constructor (factory: (seq<K>, K) -> V)
      ensures Valid() && fresh(ordered) && fresh(ordered.data) && fresh(lazy)
      ensures lazy.factory == factory && lazy.calls == []
      ensures ordered.data.Contents() == EmptyTable()
    {
      var o := new OrderedMaps.OrderedMap();
      ordered := o;
      lazy := new LazyMap.Over(factory, o.data);
    }

    method Get(k: K) returns (v: V)
      requires Valid()
      modifies lazy, ordered.data
      ensures Valid()
      ensures (v, LazyState(ordered.data.Contents(), lazy.calls)) ==
        LazyGet(LazyState(old(ordered.data.Contents()), old(lazy.calls)), lazy.factory, k)
    {
      v := lazy.Get(k);
    }

    method Str(keyRepr: K -> string, valueRepr: V -> string) returns (s: string)
      requires Valid()
      ensures s == OrderedMaps.Render(ordered.data.Contents(), keyRepr, valueRepr)
    {
      s := ordered.Str(keyRepr, valueRepr);
    }
  }
}
