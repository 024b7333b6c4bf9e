/**
 * DefaultedMap of pycommons/collections/maps/defaulted.py: a map meant to answer a missing
 * key with a default value. Its `__getitem__` computes the lookup but does not return it,
 * so every read gives None; the read that was evidently intended is modelled beside it.
 */
module DefaultedMaps {
  import opened Base
  import opened IterableMaps

  /** `m[k]` as written: the lookup's value is dropped and the read gives None. */
  function GetItemAsWritten<K(==), V>(t: Table<K, V>, default: V, k: K): Option<V> {
    None
  }

  /** `m[k]` as intended: `data.get(k, default)`. */
  function DefaultedLookup<K(==), V>(t: Table<K, V>, default: V, k: K): V {
    if k in t.entries then t.entries[k] else default
  }

  /** As written, a read of a stored key does not give the stored value, nor does a missing key give the default. */
  lemma GetItemAsWrittenLosesValues<K, V>(t: Table<K, V>, default: V, k: K)
    ensures k in t.entries ==> GetItemAsWritten(t, default, k) != Some(t.entries[k])
    ensures k !in t.entries ==> GetItemAsWritten(t, default, k) != Some(default)
  {
  }

  /**
   * As intended, a read after writing v under k gives v, and a write under another key does
   * not change what k reads; a key never written reads as the default.
   */
  lemma DefaultedLookupAfterPut<K, V>(t: Table<K, V>, default: V, k: K, j: K, v: V)
    requires TableValid(t)
    ensures DefaultedLookup(Put(t, k, v), default, k) == v
    ensures j != k ==> DefaultedLookup(Put(t, k, v), default, j) == DefaultedLookup(t, default, j)
    ensures DefaultedLookup(EmptyTable(), default, k) == default
  {
    PutSpec(t, k, v);
  }

  /**
   * The scenario of the tests: seeded with (k1, v1), the map reads v1 under k1 and the
   * default under another key as intended, but None for both as written.
   */
  lemma SeededScenario<K, V>(default: V, k1: K, v1: V, unknown: K)
    requires unknown != k1
    ensures var t := PutAll(EmptyTable(), [(k1, v1)]);
      DefaultedLookup(t, default, k1) == v1 && DefaultedLookup(t, default, unknown) == default &&
      GetItemAsWritten(t, default, k1) == None && GetItemAsWritten(t, default, unknown) == None
  {
    assert [(k1, v1)][..0] == [];
    DefaultedLookupAfterPut(EmptyTable(), default, k1, unknown, v1);
  }

  class DefaultedMap<K(==), V> {
    const data: Dict<K, V>
    const defaultValue: V

    ghost predicate Valid()
      reads this, data
    {
      data.Valid()
    }

    /** DefaultedMap(default_value, seeds): the seeds are written in order into a new dict. */
    constructor (defaultValue: V, seeds: seq<(K, V)>)
      ensures Valid() && fresh(data) && this.defaultValue == defaultValue
      ensures data.Contents() == PutAll(EmptyTable(), seeds)
    {
      this.defaultValue := defaultValue;
      data := new Dict();
      new;
      data.Update(seeds);
    }

    /** __getitem__ as written: None, whatever is stored. */
    method GetItem(k: K) returns (r: Option<V>)
      requires Valid()
      ensures r == GetItemAsWritten(data.Contents(), defaultValue, k)
    {
      var found := if k in data.entries then data.entries[k] else defaultValue;
      r := None;
    }

    /** __getitem__ as intended: the stored value, or the default for a missing key. */
    method GetItemIntended(k: K) returns (v: V)
      requires Valid()
      ensures v == DefaultedLookup(data.Contents(), defaultValue, k)
    {
      v := if k in data.entries then data.entries[k] else defaultValue;
    }
  }
}
