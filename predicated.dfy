/**
 * PredicatedMap and PredicateOrderedMap of pycommons/collections/maps/predicated.py: a map
 * that checks every write against a key predicate and a value predicate and raises
 * ValueError, the key being checked first, when either fails.
 *
 * The predicates are objects with a `test` method from outside this package; here they are
 * plain functions. The constructor forwards its extra positional arguments, and the NAMES of
 * its keyword arguments, to UserDict as positional arguments.
 */
module PredicatedMaps {
  import opened Base
  import opened IterableMaps
  import OrderedMaps

  /** Which check `validate_exceptionally` raises from. */
  datatype Rejection = KeyRejected | ValueRejected

  /** validate_exceptionally: the key is checked first, then the value. */
  function Check<K, V>(keyOk: K -> bool, valueOk: V -> bool, k: K, v: V): Option<Rejection> {
    if !keyOk(k) then Some(KeyRejected)
    else if !valueOk(v) then Some(ValueRejected)
    else None
  }

  /** `m[k] = v`: ValueError, with nothing written, when a check fails. */
  function CheckedPut<K(==), V>(keyOk: K -> bool, valueOk: V -> bool, t: Table<K, V>, k: K, v: V): Result<Table<K, V>> {
    if Check(keyOk, valueOk, k, v).Some? then Failure(ValueError) else Success(Put(t, k, v))
  }

  /** The initial entries written in order into an empty map; the first failure is raised. */
  function CheckedPutAll<K(==), V>(keyOk: K -> bool, valueOk: V -> bool, pairs: seq<(K, V)>): Result<Table<K, V>> {
    if pairs == [] then Success(EmptyTable())
    else
      var last := pairs[|pairs| - 1];
      match CheckedPutAll(keyOk, valueOk, pairs[..|pairs| - 1])
      case Failure(e) => Failure(e)
      case Success(t) => CheckedPut(keyOk, valueOk, t, last.0, last.1)
  }

  /** Every stored entry passes both predicates. */
  ghost predicate AllValid<K, V>(keyOk: K -> bool, valueOk: V -> bool, t: Table<K, V>) {
    forall i :: 0 <= i < |t.keys| ==>
      t.keys[i] in t.entries && keyOk(t.keys[i]) && valueOk(t.entries[t.keys[i]])
  }

  /**
   * The check passes exactly when both predicates pass; it blames the key whenever the key
   * fails, and the value only when the key passes.
   */
  lemma CheckSpec<K, V>(keyOk: K -> bool, valueOk: V -> bool, k: K, v: V)
    ensures Check(keyOk, valueOk, k, v) == None <==> keyOk(k) && valueOk(v)
    ensures Check(keyOk, valueOk, k, v) == Some(KeyRejected) <==> !keyOk(k)
    ensures Check(keyOk, valueOk, k, v) == Some(ValueRejected) <==> keyOk(k) && !valueOk(v)
  {
  }

  /**
   * A checked write succeeds exactly when both predicates pass; it then keeps the dict's
   * invariant and the invariant that every stored entry passes.
   */
  lemma CheckedPutSpec<K, V>(keyOk: K -> bool, valueOk: V -> bool, t: Table<K, V>, k: K, v: V)
    requires TableValid(t) && AllValid(keyOk, valueOk, t)
    ensures CheckedPut(keyOk, valueOk, t, k, v).Success? <==> keyOk(k) && valueOk(v)
    ensures CheckedPut(keyOk, valueOk, t, k, v).Failure? ==> CheckedPut(keyOk, valueOk, t, k, v).error == ValueError
    ensures CheckedPut(keyOk, valueOk, t, k, v).Success? ==>
      var t' := CheckedPut(keyOk, valueOk, t, k, v).value;
      t' == Put(t, k, v) && TableValid(t') && AllValid(keyOk, valueOk, t')
  {
    PutSpec(t, k, v);
    if keyOk(k) && valueOk(v) {
      var t' := Put(t, k, v);
      forall i | 0 <= i < |t'.keys|
        ensures t'.keys[i] in t'.entries && keyOk(t'.keys[i]) && valueOk(t'.entries[t'.keys[i]])
      {
        if i < |t.keys| && t.keys[i] != k {
          assert t'.keys[i] == t.keys[i];
        }
      }
    }
  }

  /**
   * Construction with initial entries succeeds exactly when every pair passes both
   * predicates; the map then holds what a plain dict would, and every entry passes.
   */
  lemma {:induction false} CheckedPutAllOutcome<K, V>(keyOk: K -> bool, valueOk: V -> bool, pairs: seq<(K, V)>)
    ensures CheckedPutAll(keyOk, valueOk, pairs).Success? <==>
      forall i :: 0 <= i < |pairs| ==> keyOk(pairs[i].0) && valueOk(pairs[i].1)
    ensures CheckedPutAll(keyOk, valueOk, pairs).Failure? ==> CheckedPutAll(keyOk, valueOk, pairs).error == ValueError
    ensures CheckedPutAll(keyOk, valueOk, pairs).Success? ==>
      var t := CheckedPutAll(keyOk, valueOk, pairs).value;
      t == PutAll(EmptyTable(), pairs) && TableValid(t) && AllValid(keyOk, valueOk, t)
  {
    if pairs != [] {
      var init := pairs[..|pairs| - 1];
      var last := pairs[|pairs| - 1];
      CheckedPutAllOutcome(keyOk, valueOk, init);
      assert forall i :: 0 <= i < |init| ==> init[i] == pairs[i];
      if CheckedPutAll(keyOk, valueOk, init).Success? {
        CheckedPutSpec(keyOk, valueOk, CheckedPutAll(keyOk, valueOk, init).value, last.0, last.1);
      }
    }
  }

  /** The predicates of the tests: keys start with "testKey", values are even. */
  predicate StartsWithTestKey(s: string) {
    |s| >= 7 && s[..7] == "testKey"
  }

  predicate IsEven(i: int) {
    i % 2 == 0
  }

  /**
   * The scenario of the tests: ("unknown", 8) fails on its key and ("testKey3", 7) on its
   * value, so both writes raise ValueError; ("testKey1", 2) is accepted.
   */
  lemma TestPredicatesScenario()
    ensures Check(StartsWithTestKey, IsEven, "unknown", 8) == Some(KeyRejected)
    ensures Check(StartsWithTestKey, IsEven, "testKey3", 7) == Some(ValueRejected)
    ensures Check(StartsWithTestKey, IsEven, "testKey1", 2) == None
  {
    assert "unknown"[..7] == "unknown";
    assert "testKey3"[..7] == "testKey";
    assert "testKey1"[..7] == "testKey";
  }

  class PredicatedMap<K(==), V> {
    const data: Dict<K, V>
    const keyPredicate: K -> bool
    const valuePredicate: V -> bool

    ghost predicate Valid()
      reads this, data
    {
      data.Valid() && AllValid(keyPredicate, valuePredicate, data.Contents())
    }

    constructor Empty(keyPredicate: K -> bool, valuePredicate: V -> bool)
      ensures Valid() && fresh(data) && data.Contents() == EmptyTable()
      ensures this.keyPredicate == keyPredicate && this.valuePredicate == valuePredicate
    {
      this.keyPredicate := keyPredicate;
      this.valuePredicate := valuePredicate;
      data := new Dict();
    }

    /** The checking part of a map whose (empty) dict is `store`, as in PredicateOrderedMap. */
    constructor Over(keyPredicate: K -> bool, valuePredicate: V -> bool, store: Dict<K, V>)
      requires store.Valid() && store.keys == []
      ensures Valid() && data == store
      ensures this.keyPredicate == keyPredicate && this.valuePredicate == valuePredicate
    {
      this.keyPredicate := keyPredicate;
      this.valuePredicate := valuePredicate;
      data := store;
    }

    /**
     * PredicatedMap(key_predicate, value_predicate, *args, **kwargs). UserDict takes at most
     * one positional argument, so more than one mapping and keyword name together raise
     * TypeError. A keyword name on its own is a string, which `update` fails to unpack into
     * pairs: ValueError. A mapping goes through `__setitem__`, pair by pair.
     */
    static method Create(keyPredicate: K -> bool, valuePredicate: V -> bool,
                         mappings: seq<seq<(K, V)>>, keywordCount: nat)
      returns (r: Result<PredicatedMap<K, V>>)
      ensures |mappings| + keywordCount > 1 ==> r == Failure(TypeError)
      ensures |mappings| == 0 && keywordCount == 1 ==> r == Failure(ValueError)
      ensures |mappings| == 0 && keywordCount == 0 ==>
        r.Success? && fresh(r.value) && r.value.Valid() && r.value.data.Contents() == EmptyTable()
      ensures |mappings| == 1 && keywordCount == 0 ==>
        var seeded := CheckedPutAll(keyPredicate, valuePredicate, mappings[0]);
        (seeded.Failure? ==> r == Failure(seeded.error)) &&
        (seeded.Success? ==>
          r.Success? && fresh(r.value) && r.value.Valid() &&
          r.value.keyPredicate == keyPredicate && r.value.valuePredicate == valuePredicate &&
          r.value.data.Contents() == seeded.value)
    {
      if |mappings| + keywordCount > 1 {
        return Failure(TypeError);
      }
      if |mappings| == 0 && keywordCount == 1 {
        return Failure(ValueError);
      }
      var m := new PredicatedMap.Empty(keyPredicate, valuePredicate);
      if |mappings| == 0 {
        return Success(m);
      }
      var seeds := mappings[0];
      CheckedPutAllOutcome(keyPredicate, valuePredicate, seeds);
      for i := 0 to |seeds|
        invariant fresh(m) && fresh(m.data) && m.Valid()
        invariant m.keyPredicate == keyPredicate && m.valuePredicate == valuePredicate
        invariant CheckedPutAll(keyPredicate, valuePredicate, seeds[..i]) == Success(m.data.Contents())
      {
        assert seeds[..i + 1][..i] == seeds[..i];
        var written := m.Set(seeds[i].0, seeds[i].1);
        if written.Fail? {
          CheckedPutAllOutcome(keyPredicate, valuePredicate, seeds[..i + 1]);
          assert !(keyPredicate(seeds[i].0) && valuePredicate(seeds[i].1));
          return Failure(written.error);
        }
      }
      assert seeds[..|seeds|] == seeds;
      r := Success(m);
    }

    /** validate_key. */
    function ValidateKey(k: K): bool {
      keyPredicate(k)
    }

    /** validate_value. */
    function ValidateValue(v: V): bool {
      valuePredicate(v)
    }

    /** validate: both predicates pass (the value is not consulted when the key fails). */
    function Validate(k: K, v: V): (ok: bool)
      ensures ok <==> Check(keyPredicate, valuePredicate, k, v) == None
    {
      ValidateKey(k) && ValidateValue(v)
    }

    /** validate_exceptionally: ValueError exactly when `validate` is false. */
    function ValidateExceptionally(k: K, v: V): (r: Outcome)
      ensures r == Pass <==> Validate(k, v)
      ensures r.Fail? ==> r.error == ValueError
    {
      if !ValidateKey(k) then Fail(ValueError)
      else if !ValidateValue(v) then Fail(ValueError)
      else Pass
    }

    /** __setitem__. */
    method Set(k: K, v: V) returns (r: Outcome)
      requires Valid()
      modifies data
      ensures Valid()
      ensures var w := CheckedPut(keyPredicate, valuePredicate, old(data.Contents()), k, v);
        (w.Success? ==> r == Pass && data.Contents() == w.value) &&
        (w.Failure? ==> r == Fail(w.error) && data.Contents() == old(data.Contents()))
    {
      CheckedPutSpec(keyPredicate, valuePredicate, data.Contents(), k, v);
      r := ValidateExceptionally(k, v);
      if r == Pass {
        data.Set(k, v);
      }
    }
  }

  /** PredicateOrderedMap: the checked writes over the dict of an OrderedMap, rendered as one. */
  class PredicateOrderedMap<K(==), V> {
    const ordered: OrderedMaps.OrderedMap<K, V>
    const checked: PredicatedMap<K, V>

    ghost predicate Valid()
      reads this, checked, ordered.data
    {
      checked.data == ordered.data && checked.Valid()
    }

    /** PredicateOrderedMap(key_predicate, value_predicate): empty. */
    constructor (keyPredicate: K -> bool, valuePredicate: V -> bool)
      ensures Valid() && fresh(ordered) && fresh(ordered.data) && fresh(checked)
      ensures checked.keyPredicate == keyPredicate && checked.valuePredicate == valuePredicate
      ensures ordered.data.Contents() == EmptyTable()
    {
      var o := new OrderedMaps.OrderedMap();
      ordered := o;
      checked := new PredicatedMap.Over(keyPredicate, valuePredicate, o.data);
    }

    method Set(k: K, v: V) returns (r: Outcome)
      requires Valid()
      modifies ordered.data
      ensures Valid()
      ensures var w := CheckedPut(checked.keyPredicate, checked.valuePredicate, old(ordered.data.Contents()), k, v);
        (w.Success? ==> r == Pass && ordered.data.Contents() == w.value) &&
        (w.Failure? ==> r == Fail(w.error) && ordered.data.Contents() == old(ordered.data.Contents()))
    {
      r := checked.Set(k, v);
    }

    method Str(keyRepr: K -> string, valueRepr: V -> string) returns (s: string)
      requires Valid()
      ensures s == OrderedMaps.Render(ordered.data.Contents(), keyRepr, valueRepr)
    {
      s := ordered.Str(keyRepr, valueRepr);
    }
  }
}
