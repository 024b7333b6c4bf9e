/**
 * FixedSizeMap and SingletonMap of pycommons/collections/maps/sized.py: a map that refuses
 * any write, even an overwrite, once it holds `max_size` keys. A negative `max_size` is
 * never reached, so such a map is unbounded. The initial entries go through the same
 * guarded write, so construction itself can raise OverflowError.
 */
module SizedMaps {
  import opened Base
  import opened IterableMaps

  /** `m[k] = v` on a FixedSizeMap holding `t`. */
  function FixedPut<K(==), V>(t: Table<K, V>, maxSize: int, k: K, v: V): Result<Table<K, V>> {
    if |t.keys| == maxSize then Failure(OverflowError) else Success(Put(t, k, v))
  }

  /** The initial entries written in order into an empty map; the first failure is raised. */
  function FixedPutAll<K(==), V>(maxSize: int, pairs: seq<(K, V)>): Result<Table<K, V>> {
    if pairs == [] then Success(EmptyTable())
    else
      var last := pairs[|pairs| - 1];
      match FixedPutAll(maxSize, pairs[..|pairs| - 1])
      case Failure(e) => Failure(e)
      case Success(t) => FixedPut(t, maxSize, last.0, last.1)
  }

  /** The number of distinct keys among the pairs. */
  function DistinctKeys<K(==), V>(pairs: seq<(K, V)>): nat {
    |PutAll(EmptyTable(), pairs).keys|
  }

  /**
   * A write raises OverflowError exactly when the map already holds maxSize keys, whether
   * or not k is one of them; otherwise it is a plain dict write, and it keeps the bound.
   */
  lemma FixedPutSpec<K, V>(t: Table<K, V>, maxSize: int, k: K, v: V)
    requires TableValid(t) && (maxSize >= 0 ==> |t.keys| <= maxSize)
    ensures FixedPut(t, maxSize, k, v).Failure? <==> |t.keys| == maxSize
    ensures FixedPut(t, maxSize, k, v).Failure? ==> FixedPut(t, maxSize, k, v).error == OverflowError
    ensures FixedPut(t, maxSize, k, v).Success? ==>
      var t' := FixedPut(t, maxSize, k, v).value;
      t' == Put(t, k, v) && TableValid(t') && (maxSize >= 0 ==> |t'.keys| <= maxSize)
  {
    PutSpec(t, k, v);
  }

  /** Each pair adds at most one key. */
  lemma DistinctKeysStep<K, V>(pairs: seq<(K, V)>)
    requires pairs != []
    ensures DistinctKeys(pairs[..|pairs| - 1]) <= DistinctKeys(pairs) <= DistinctKeys(pairs[..|pairs| - 1]) + 1
  {
    var init := pairs[..|pairs| - 1];
    PutAllFromEmpty(init);
    PutSpec(PutAll(EmptyTable(), init), pairs[|pairs| - 1].0, pairs[|pairs| - 1].1);
  }

  /**
   * Construction with initial entries raises OverflowError exactly when some write finds the
   * map full: when maxSize is not negative and the pairs before the last one already bring
   * maxSize distinct keys. Otherwise the map holds what a plain dict would, within the bound.
   */
  lemma {:induction false} FixedPutAllOutcome<K, V>(maxSize: int, pairs: seq<(K, V)>)
    ensures FixedPutAll(maxSize, pairs).Failure? <==>
      pairs != [] && 0 <= maxSize <= DistinctKeys(pairs[..|pairs| - 1])
    ensures FixedPutAll(maxSize, pairs).Failure? ==> FixedPutAll(maxSize, pairs).error == OverflowError
    ensures FixedPutAll(maxSize, pairs).Success? ==>
      FixedPutAll(maxSize, pairs).value == PutAll(EmptyTable(), pairs) &&
      (maxSize >= 0 ==> DistinctKeys(pairs) <= maxSize)
  {
    if pairs != [] {
      var init := pairs[..|pairs| - 1];
      var last := pairs[|pairs| - 1];
      FixedPutAllOutcome(maxSize, init);
      PutAllFromEmpty(init);
      DistinctKeysStep(pairs);
      if init != [] {
        DistinctKeysStep(init);
      }
      if FixedPutAll(maxSize, init).Success? {
        FixedPutSpec(PutAll(EmptyTable(), init), maxSize, last.0, last.1);
      }
    }
  }

  /** is_full as written: one key short of max_size. */
  function IsFullAsWritten<K, V>(t: Table<K, V>, maxSize: int): bool {
    |t.keys| == maxSize - 1
  }

  /**
   * is_full as written answers false on a map that refuses every further write, and true
   * on a map that still accepts one.
   */
  lemma IsFullAsWrittenDisagrees<K, V>(t: Table<K, V>, maxSize: int, k: K, v: V)
    requires TableValid(t)
    ensures FixedPut(t, maxSize, k, v).Failure? ==> !IsFullAsWritten(t, maxSize)
    ensures IsFullAsWritten(t, maxSize) ==> FixedPut(t, maxSize, k, v).Success?
  {
  }

  /** is_full as intended: the map holds max_size keys. */
  function IsFullIntended<K, V>(t: Table<K, V>, maxSize: int): bool {
    |t.keys| == maxSize
  }

  /** The intended is_full is true exactly when the next write raises OverflowError. */
  lemma IsFullMeansNextWriteFails<K, V>(t: Table<K, V>, maxSize: int, k: K, v: V)
    requires TableValid(t)
    ensures IsFullIntended(t, maxSize) <==> FixedPut(t, maxSize, k, v).Failure?
  {
  }

  /**
   * The scenario of the tests: max_size 3 seeded with two keys, then a third. With two keys
   * is_full as written is true; with three it is false, yet a fourth key overflows.
   */
  lemma {:induction false} ThreeSlotScenario<K, V>(k1: K, v1: V, k2: K, v2: V, k3: K, v3: V, k4: K, v4: V)
    requires k1 != k2 && k1 != k3 && k2 != k3
    ensures FixedPutAll(3, [(k1, v1), (k2, v2)]).Success?
    ensures var t := FixedPutAll(3, [(k1, v1), (k2, v2)]).value;
      |t.keys| == 2 && IsFullAsWritten(t, 3) && !IsFullIntended(t, 3) &&
      FixedPut(t, 3, k3, v3).Success? &&
      var t' := FixedPut(t, 3, k3, v3).value;
      |t'.keys| == 3 && !IsFullAsWritten(t', 3) && IsFullIntended(t', 3) &&
      FixedPut(t', 3, k4, v4) == Failure(OverflowError)
  {
    var pairs := [(k1, v1), (k2, v2)];
    var t1 := Put(EmptyTable(), k1, v1);
    assert t1.keys == [k1];
    assert FixedPutAll(3, [(k1, v1)]) == Success(t1) by {
      assert [(k1, v1)][..0] == [];
    }
    var t2 := Put(t1, k2, v2);
    assert t2.keys == [k1, k2];
    assert FixedPutAll(3, pairs) == Success(t2) by {
      assert pairs[..1] == [(k1, v1)];
    }
    var t3 := Put(t2, k3, v3);
    assert t3.keys == [k1, k2, k3];
  }

  /** A SingletonMap holding a key refuses a second key and also an overwrite. */
  lemma SingletonRefusesSecondWrite<K, V>(t: Table<K, V>, k: K, v: V)
    requires TableValid(t) && |t.keys| == 1
    ensures FixedPut(t, 1, k, v) == Failure(OverflowError)
  {
  }

  class FixedSizeMap<K(==), V> {
    const data: Dict<K, V>
    const maxSize: int

    ghost predicate Valid()
      reads this, data
    {
      data.Valid() && (maxSize >= 0 ==> |data.keys| <= maxSize)
    }

    /** FixedSizeMap(size) with no initial entries. */
    constructor (size: int)
      ensures Valid() && fresh(data) && maxSize == size && data.Contents() == EmptyTable()
    {
      maxSize := size;
      data := new Dict();
    }

    /** FixedSizeMap(size, seeds): the seeds go through `__setitem__`, which may raise. */
    static method Create(size: int, seeds: seq<(K, V)>) returns (r: Result<FixedSizeMap<K, V>>)
      ensures r.Failure? <==> FixedPutAll(size, seeds).Failure?
      ensures r.Failure? ==> r.error == OverflowError
      ensures r.Success? ==>
        fresh(r.value) && fresh(r.value.data) && r.value.Valid() && r.value.maxSize == size &&
        r.value.data.Contents() == FixedPutAll(size, seeds).value
    {
      FixedPutAllOutcome(size, seeds);
      var m := new FixedSizeMap(size);
      for i := 0 to |seeds|
        invariant fresh(m) && fresh(m.data) && m.Valid() && m.maxSize == size
        invariant FixedPutAll(size, seeds[..i]) == Success(m.data.Contents())
      {
        assert seeds[..i + 1][..i] == seeds[..i];
        var written := m.Set(seeds[i].0, seeds[i].1);
        if written.Fail? {
          assert FixedPutAll(size, seeds[..i + 1]).Failure?;
          FixedPutAllFailureIsFinal(size, seeds, i + 1);
          return Failure(written.error);
        }
      }
      assert seeds[..|seeds|] == seeds;
      r := Success(m);
    }

    /** SingletonMap(seeds): a FixedSizeMap of size one. */
    static method CreateSingleton(seeds: seq<(K, V)>) returns (r: Result<FixedSizeMap<K, V>>)
      ensures r.Failure? <==> FixedPutAll(1, seeds).Failure?
      ensures r.Failure? ==> r.error == OverflowError
      ensures r.Success? ==>
        fresh(r.value) && fresh(r.value.data) && r.value.Valid() && r.value.maxSize == 1 &&
        r.value.data.Contents() == FixedPutAll(1, seeds).value
    {
      r := Create(1, seeds);
    }

    /** __setitem__: OverflowError once max_size keys are held, with nothing changed. */
    method Set(k: K, v: V) returns (r: Outcome)
      requires Valid()
      modifies data
      ensures Valid()
      ensures FixedPut(old(data.Contents()), maxSize, k, v).Failure? ==>
        r == Fail(OverflowError) && data.Contents() == old(data.Contents())
      ensures FixedPut(old(data.Contents()), maxSize, k, v).Success? ==>
        r == Pass && data.Contents() == FixedPut(old(data.Contents()), maxSize, k, v).value
    {
      FixedPutSpec(data.Contents(), maxSize, k, v);
      if |data.keys| == maxSize {
        return Fail(OverflowError);
      }
      data.Set(k, v);
      r := Pass;
    }

    /** is_full, as written. */
    function IsFull(): (full: bool)
      reads this, data
      requires Valid()
      ensures full == IsFullAsWritten(data.Contents(), maxSize)
    {
      |data.keys| == maxSize - 1
    }
  }

  /** A failed prefix of the initial entries makes the whole construction fail. */
  lemma {:induction false} FixedPutAllFailureIsFinal<K, V>(maxSize: int, pairs: seq<(K, V)>, n: nat)
    requires n <= |pairs| && FixedPutAll(maxSize, pairs[..n]).Failure?
    ensures FixedPutAll(maxSize, pairs).Failure?
    decreases |pairs| - n
  {
    if n < |pairs| {
      assert pairs[..n + 1][..n] == pairs[..n];
      FixedPutAllFailureIsFinal(maxSize, pairs, n + 1);
    } else {
      assert pairs[..n] == pairs;
    }
  }
}
