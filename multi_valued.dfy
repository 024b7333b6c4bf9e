/**
 * MultiValuedMap of pycommons/collections/maps/multi_valued.py: every write adds the value
 * to an OrderedSet kept under the key instead of replacing what is there.
 *
 * A stored value is either an OrderedSet (`Bag`) or a plain value (`Plain`), the latter
 * only when the dict was filled by some route other than the map's own `__setitem__`.
 */
module MultiValuedMaps {
  import opened Base
  import opened IterableMaps
  import opened OrderedSets

  datatype Stored<V> = Plain(item: V) | Bag(values: SetState<V>)

  /**
   * What `__setitem__` stores under a key that held `current`: the set with v added; a set
   * of the plain value and v; or a new set of v alone.
   */
  function Merged<V(==)>(current: Option<Stored<V>>, v: V): Stored<V> {
    match current
    case Some(Bag(values)) => Bag(Added(values, v))
    case Some(Plain(item)) => Bag(FromSeq([item, v]))
    case None => Bag(FromSeq([v]))
  }

  function Lookup<K(==), V>(t: Table<K, V>, k: K): Option<V> {
    if k in t.entries then Some(t.entries[k]) else None
  }

  /** `m[k] = v`. */
  function MultiPut<K(==), V(==)>(t: Table<K, Stored<V>>, k: K, v: V): Table<K, Stored<V>> {
    Put(t, k, Merged(Lookup(t, k), v))
  }

  /** The seeds of the constructor, written one after another through `__setitem__`. */
  function MultiPutAll<K(==), V(==)>(t: Table<K, Stored<V>>, pairs: seq<(K, V)>): Table<K, Stored<V>> {
    if pairs == [] then t
    else
      var last := pairs[|pairs| - 1];
      MultiPut(MultiPutAll(t, pairs[..|pairs| - 1]), last.0, last.1)
  }

  /** Every stored set keeps the OrderedSet invariant. */
  ghost predicate BagsWellFormed<K, V>(t: Table<K, Stored<V>>) {
    forall k :: k in t.entries && t.entries[k].Bag? ==> WellFormed(t.entries[k].values)
  }

  /**
   * A write leaves a well-formed set under k that holds v and everything held there
   * before, keeps the dict's invariant, and leaves every other key alone.
   */
  lemma MergedSpec<V>(current: Option<Stored<V>>, v: V)
    requires current.Some? && current.value.Bag? ==> WellFormed(current.value.values)
    ensures Merged(current, v).Bag?
    ensures WellFormed(Merged(current, v).values)
    ensures v in Merged(current, v).values.members
    ensures current.Some? && current.value.Bag? ==> current.value.values.members <= Merged(current, v).values.members
    ensures current.Some? && current.value.Plain? ==> current.value.item in Merged(current, v).values.members
  {
    match current
    case Some(Bag(values)) => AddedSpec(values, v);
    case Some(Plain(item)) => FromSeqSpec([item, v]);
    case None => FromSeqSpec([v]);
  }

  lemma MultiPutSpec<K, V>(t: Table<K, Stored<V>>, k: K, v: V)
    requires TableValid(t) && BagsWellFormed(t)
    ensures TableValid(MultiPut(t, k, v)) && BagsWellFormed(MultiPut(t, k, v))
    ensures k in MultiPut(t, k, v).entries && MultiPut(t, k, v).entries[k] == Merged(Lookup(t, k), v)
    ensures forall j :: j != k && j in t.entries ==> j in MultiPut(t, k, v).entries && MultiPut(t, k, v).entries[j] == t.entries[j]
  {
    MergedSpec(Lookup(t, k), v);
    PutSpec(t, k, Merged(Lookup(t, k), v));
  }

  /**
   * Adding to a stored set grows its iteration order by one exactly when the value is new;
   * writing the same value again changes nothing.
   */
  lemma BagGrowsByNewValues<V>(values: SetState<V>, v: V)
    requires WellFormed(values)
    ensures var after := Merged(Some(Bag(values)), v).values;
      |after.order| == |values.order| + (if v in values.members then 0 else 1) &&
      Merged(Some(Bag(after)), v) == Bag(after)
  {
    AddedSpec(values, v);
    AddedIdempotent(values, v);
  }

  /** A plain value rewritten with itself becomes a set holding it once. */
  lemma PlainSameValue<V>(item: V)
    ensures Merged(Some(Plain(item)), item).values.order == [item]
  {
    SingletonSet(item);
    FirstOccurrencesAppend([item], item);
    assert [item] + [item] == [item, item];
  }

  /** A set built from one value lists it once. */
  lemma SingletonSet<V>(v: V)
    ensures FromSeq([v]) == SetState([v], {v})
  {
    FirstOccurrencesAppend([], v);
    assert [] + [v] == [v];
    assert (set y | y in [v]) == {v};
  }

  /**
   * The scenario of the tests: a map seeded with (k, v1) and then written (k, v2), v2 new,
   * holds both values under k, in that order, and two of them.
   */
  lemma SecondValueScenario<K, V>(k: K, v1: V, v2: V)
    requires v1 != v2
    ensures var t := MultiPut(MultiPutAll(EmptyTable(), [(k, v1)]), k, v2);
      k in t.entries && t.entries[k].Bag? &&
      t.entries[k].values.order == [v1, v2] && t.entries[k].values.members == {v1, v2} &&
      |t.entries[k].values.members| == 2
  {
    assert [(k, v1)][..0] == [];
    SingletonSet(v1);
  }

  /** Seeding keeps the invariants and stores exactly the seeded keys. */
  lemma {:induction false} SeedsKeys<K, V>(pairs: seq<(K, V)>)
    ensures TableValid(MultiPutAll(EmptyTable(), pairs)) && BagsWellFormed(MultiPutAll(EmptyTable(), pairs))
    ensures MultiPutAll(EmptyTable(), pairs).entries.Keys == set i | 0 <= i < |pairs| :: pairs[i].0
  {
    if pairs != [] {
      var init := pairs[..|pairs| - 1];
      var last := pairs[|pairs| - 1];
      SeedsKeys(init);
      var t := MultiPutAll(EmptyTable(), init);
      MultiPutSpec(t, last.0, last.1);
      assert (set i | 0 <= i < |pairs| :: pairs[i].0) == (set i | 0 <= i < |init| :: init[i].0) + {last.0} by {
        assert forall i | 0 <= i < |init| :: init[i] == pairs[i];
      }
    }
  }

  /** Seeding with one value per key stores each value alone in a one-element set. */
  lemma {:induction false} SeedStoredAlone<K, V>(pairs: seq<(K, V)>, i: nat)
    requires NoDuplicates(KeysOf(pairs)) && i < |pairs|
    ensures pairs[i].0 in MultiPutAll(EmptyTable(), pairs).entries
    ensures MultiPutAll(EmptyTable(), pairs).entries[pairs[i].0] == Bag(SetState([pairs[i].1], {pairs[i].1}))
  {
    var init := pairs[..|pairs| - 1];
    var last := pairs[|pairs| - 1];
    var t := MultiPutAll(EmptyTable(), init);
    SeedsKeys(init);
    assert MultiPutAll(EmptyTable(), pairs) == Put(t, last.0, Merged(Lookup(t, last.0), last.1));
    PutSpec(t, last.0, Merged(Lookup(t, last.0), last.1));
    assert KeysOf(init) == KeysOf(pairs)[..|pairs| - 1];
    if i == |pairs| - 1 {
      assert last.0 !in t.entries by {
        forall j | 0 <= j < |init| ensures init[j].0 != last.0 {
          assert KeysOf(pairs)[j] != KeysOf(pairs)[|pairs| - 1];
        }
      }
      SingletonSet(last.1);
    } else {
      SeedStoredAlone(init, i);
      assert init[i] == pairs[i];
      assert KeysOf(pairs)[i] != KeysOf(pairs)[|pairs| - 1];
    }
  }

  class MultiValuedMap<K(==), V(==)> {
    const data: Dict<K, Stored<V>>

    ghost predicate Valid()
      reads this, data
    {
      data.Valid() && BagsWellFormed(data.Contents())
    }

    /** MultiValuedMap(seeds): the seeds go through `__setitem__`, in order. */
    constructor (seeds: seq<(K, V)>)
      ensures Valid() && fresh(data)
      ensures data.Contents() == MultiPutAll(EmptyTable(), seeds)
    {
      data := new Dict();
      new;
      for i := 0 to |seeds|
        invariant Valid()
        invariant data.Contents() == MultiPutAll(EmptyTable(), seeds[..i])
      {
        assert seeds[..i + 1][..i] == seeds[..i];
        Set(seeds[i].0, seeds[i].1);
      }
      assert seeds[..|seeds|] == seeds;
    }

    /** __setitem__. */
    method Set(k: K, v: V)
      requires Valid()
      modifies data
      ensures Valid()
      ensures data.Contents() == MultiPut(old(data.Contents()), k, v)
    {
      MultiPutSpec(data.Contents(), k, v);
      if k in data.entries && data.entries[k].Bag? {
        data.Set(k, Bag(Added(data.entries[k].values, v)));
      } else if k in data.entries && data.entries[k].Plain? {
        data.Set(k, Bag(FromSeq([data.entries[k].item, v])));
      } else {
        data.Set(k, Bag(FromSeq([v])));
      }
    }
  }
}
