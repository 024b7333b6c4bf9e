/**
 * OrderedSet of pycommons/collections/sets/ordered.py: a Python set (membership and
 * `len`) with an `_order` list beside it that `__iter__` and `__getitem__` read.
 *
 * `SetState` is the pair (order list, member set) as a value; the operations are stated
 * on it (`FromSeq`, `Added`, `Discarded`) and class `OrderedSet` runs them in place.
 * Every operation keeps `WellFormed`: the order list is duplicate-free and holds only
 * members. It does not keep the two in lockstep: `discard` leaves the membership alone.
 */
module OrderedSets {
  import opened Base

  datatype SetState<T> = SetState(order: seq<T>, members: set<T>)

  /** The invariant every operation keeps. */
  ghost predicate WellFormed<T>(st: SetState<T>) {
    NoDuplicates(st.order) && forall i :: 0 <= i < |st.order| ==> st.order[i] in st.members
  }

  /** The elements of `xs`, each kept at its first occurrence, later duplicates dropped. */
  function FirstOccurrences<T(==)>(xs: seq<T>): seq<T> {
    if xs == [] then []
    else
      var kept := FirstOccurrences(xs[..|xs| - 1]);
      if xs[|xs| - 1] in kept then kept else kept + [xs[|xs| - 1]]
  }

  /** The position of the first occurrence of `x` in `xs`. */
  function IndexOf<T(==)>(xs: seq<T>, x: T): (i: nat)
    requires x in xs
    ensures i < |xs| && xs[i] == x
    ensures forall j :: 0 <= j < i ==> xs[j] != x
  {
    if xs[0] == x then 0 else 1 + IndexOf(xs[1..], x)
  }

  /** FirstOccurrences is duplicate-free and has exactly the elements of its input. */
  lemma {:induction false} FirstOccurrencesElements<T>(xs: seq<T>)
    ensures NoDuplicates(FirstOccurrences(xs))
    ensures forall i :: 0 <= i < |FirstOccurrences(xs)| ==> FirstOccurrences(xs)[i] in xs
    ensures forall i :: 0 <= i < |xs| ==> xs[i] in FirstOccurrences(xs)
  {
    if xs != [] {
      var init := xs[..|xs| - 1];
      var last := xs[|xs| - 1];
      var kept := FirstOccurrences(init);
      FirstOccurrencesElements(init);
      assert xs == init + [last];
      forall i | 0 <= i < |kept| ensures kept[i] in xs {
        assert kept[i] in init;
      }
      forall i | 0 <= i < |xs| ensures xs[i] in FirstOccurrences(xs) {
        if i < |init| {
          assert xs[i] == init[i];
        }
      }
      if last !in kept {
        var r := kept + [last];
        forall i, j | 0 <= i < j < |r| ensures r[i] != r[j] {
          if j == |kept| {
            assert r[i] == kept[i];
          }
        }
      }
    }
  }

  /** FirstOccurrences lists the elements in the order of their first occurrence in the input. */
  lemma {:induction false} FirstOccurrencesOrder<T>(xs: seq<T>)
    ensures forall i, j :: 0 <= i < j < |FirstOccurrences(xs)| ==>
      FirstOccurrences(xs)[i] in xs && FirstOccurrences(xs)[j] in xs &&
      IndexOf(xs, FirstOccurrences(xs)[i]) < IndexOf(xs, FirstOccurrences(xs)[j])
  {
    if xs != [] {
      var init := xs[..|xs| - 1];
      var last := xs[|xs| - 1];
      var kept := FirstOccurrences(init);
      FirstOccurrencesOrder(init);
      FirstOccurrencesElements(init);
      assert xs == init + [last];
      var r := FirstOccurrences(xs);
      forall i, j | 0 <= i < j < |r|
        ensures r[i] in xs && r[j] in xs && IndexOf(xs, r[i]) < IndexOf(xs, r[j])
      {
        assert r[i] == kept[i] && kept[i] in init;
        IndexOfPrefix(xs, init, kept[i]);
        if j < |kept| {
          assert r[j] == kept[j] && kept[j] in init;
          IndexOfPrefix(xs, init, kept[j]);
        } else {
          assert r[j] == last && last !in init;
          assert IndexOf(xs, last) == |xs| - 1;
        }
      }
      assert r == FirstOccurrences(xs);
    } else {
      assert FirstOccurrences(xs) == [];
    }
  }

  /**
   * FirstOccurrences is duplicate-free, has exactly the elements of its input, and lists
   * them in the order of their first occurrence in the input.
   */
  lemma FirstOccurrencesSpec<T>(xs: seq<T>)
    ensures NoDuplicates(FirstOccurrences(xs))
    ensures forall i :: 0 <= i < |FirstOccurrences(xs)| ==> FirstOccurrences(xs)[i] in xs
    ensures forall i :: 0 <= i < |xs| ==> xs[i] in FirstOccurrences(xs)
    ensures forall i, j :: 0 <= i < j < |FirstOccurrences(xs)| ==>
      IndexOf(xs, FirstOccurrences(xs)[i]) < IndexOf(xs, FirstOccurrences(xs)[j])
  {
    FirstOccurrencesElements(xs);
    FirstOccurrencesOrder(xs);
  }

  /** The first index of an element of a prefix is the same in the whole sequence. */
  lemma {:induction false} IndexOfPrefix<T>(xs: seq<T>, prefix: seq<T>, x: T)
    requires prefix <= xs && x in prefix
    ensures IndexOf(xs, x) == IndexOf(prefix, x)
  {
    if prefix[0] != x {
      assert prefix[1..] <= xs[1..];
      IndexOfPrefix(xs[1..], prefix[1..], x);
    }
  }

  /** A duplicate-free input is kept as it is. */
  lemma {:induction false} FirstOccurrencesOfDistinct<T>(xs: seq<T>)
    requires NoDuplicates(xs)
    ensures FirstOccurrences(xs) == xs
  {
    if xs != [] {
      var init := xs[..|xs| - 1];
      FirstOccurrencesOfDistinct(init);
      assert xs[|xs| - 1] !in init by {
        forall i | 0 <= i < |init| ensures init[i] != xs[|xs| - 1] { assert xs[i] != xs[|xs| - 1]; }
      }
    }
  }

  /** OrderedSet(xs): the set of `xs` with the first occurrences of `xs` as order. */
  function FromSeq<T(==)>(xs: seq<T>): SetState<T> {
    SetState(FirstOccurrences(xs), set x | x in xs)
  }

  /** A freshly built OrderedSet lists every member exactly once, in first-occurrence order. */
  lemma {:induction false} FromSeqSpec<T>(xs: seq<T>)
    ensures WellFormed(FromSeq(xs))
    ensures forall i :: 0 <= i < |FromSeq(xs).order| ==> FromSeq(xs).order[i] in xs
    ensures forall i :: 0 <= i < |xs| ==> xs[i] in FromSeq(xs).order
    ensures FromSeq(xs).members == set x | x in xs
    ensures forall i, j :: 0 <= i < j < |FromSeq(xs).order| ==>
      IndexOf(xs, FromSeq(xs).order[i]) < IndexOf(xs, FromSeq(xs).order[j])
  {
    FirstOccurrencesSpec(xs);
    var st := FromSeq(xs);
    forall i | 0 <= i < |st.order| ensures st.order[i] in st.members {
      assert st.order[i] in xs;
    }
  }

  /** add(x): appends to the order only when x is not yet a member. */
  function Added<T(==)>(st: SetState<T>, x: T): SetState<T> {
    SetState(if x in st.members then st.order else st.order + [x], st.members + {x})
  }

  /** `_order.remove(x)`: drops the first occurrence. */
  function RemoveFirst<T(==)>(xs: seq<T>, x: T): seq<T>
    requires x in xs
  {
    var i := IndexOf(xs, x);
    xs[..i] + xs[i + 1..]
  }

  /**
   * discard(x): a member is removed from the order list only; membership is not updated.
   * A member that is no longer in the order list makes `list.remove` raise ValueError.
   */
  function Discarded<T(==)>(st: SetState<T>, x: T): Result<SetState<T>> {
    if x !in st.members then Success(st)
    else if x in st.order then Success(SetState(RemoveFirst(st.order, x), st.members))
    else Failure(ValueError)
  }

  /**
   * add keeps the invariant, makes x a member, and grows the order by exactly x when x
   * was not a member and not at all otherwise.
   */
  lemma AddedSpec<T>(st: SetState<T>, x: T)
    requires WellFormed(st)
    ensures WellFormed(Added(st, x))
    ensures x in Added(st, x).members
    ensures Added(st, x).members == st.members + {x}
    ensures x !in st.members ==> Added(st, x).order == st.order + [x]
    ensures x in st.members ==> Added(st, x) == st
  {
  }

  /** add is idempotent. */
  lemma AddedIdempotent<T>(st: SetState<T>, x: T)
    ensures Added(Added(st, x), x) == Added(st, x)
  {
  }

  /**
   * discard keeps the invariant; on success x is no longer in the order, the rest of the
   * order is kept in sequence, and the members are the same as before.
   */
  lemma {:induction false} DiscardedSpec<T>(st: SetState<T>, x: T)
    requires WellFormed(st)
    ensures Discarded(st, x).Failure? <==> x in st.members && x !in st.order
    ensures Discarded(st, x).Success? ==>
      var d := Discarded(st, x).value;
      WellFormed(d) && x !in d.order && d.members == st.members &&
      forall y :: y in d.order <==> y in st.order && y != x
  {
    if x in st.order {
      var i := IndexOf(st.order, x);
      var d := RemoveFirst(st.order, x);
      assert d == st.order[..i] + st.order[i + 1..];
      forall a, b | 0 <= a < b < |d| ensures d[a] != d[b] {
        var a' := if a < i then a else a + 1;
        var b' := if b < i then b else b + 1;
        assert d[a] == st.order[a'] && d[b] == st.order[b'];
      }
      forall y | y in d ensures y != x && y in st.order {
        var k :| 0 <= k < |d| && d[k] == y;
        var k' := if k < i then k else k + 1;
        assert d[k] == st.order[k'];
      }
      forall y | y in st.order && y != x ensures y in d {
        var k :| 0 <= k < |st.order| && st.order[k] == y;
        assert k != i;
        if k < i { assert d[k] == y; } else { assert d[k - 1] == y; }
      }
    }
  }

  /**
   * Because discard leaves x a member, a later add does not put it back in the order,
   * and a second discard raises ValueError.
   */
  lemma DiscardThenAdd<T>(st: SetState<T>, x: T)
    requires WellFormed(st) && x in st.order
    ensures Discarded(st, x).Success?
    ensures x !in Added(Discarded(st, x).value, x).order
    ensures Discarded(Discarded(st, x).value, x) == Failure(ValueError)
  {
    DiscardedSpec(st, x);
  }

  /** The order list and the membership hold the same elements. */
  ghost predicate Lockstep<T>(st: SetState<T>) {
    WellFormed(st) && st.members == set i | 0 <= i < |st.order| :: st.order[i]
  }

  /** discard as intended: x leaves the membership as well as the order. */
  function DiscardedIntended<T(==)>(st: SetState<T>, x: T): SetState<T> {
    if x in st.order then SetState(RemoveFirst(st.order, x), st.members - {x})
    else SetState(st.order, st.members - {x})
  }

  /** add keeps the order list and the membership in lockstep. */
  lemma AddedKeepsLockstep<T>(st: SetState<T>, x: T)
    requires Lockstep(st)
    ensures Lockstep(Added(st, x))
  {
    var a := Added(st, x);
    if x !in st.members {
      assert (set i | 0 <= i < |a.order| :: a.order[i]) == (set i | 0 <= i < |st.order| :: st.order[i]) + {x} by {
        assert a.order[|st.order|] == x;
        assert forall i | 0 <= i < |st.order| :: a.order[i] == st.order[i];
      }
    }
  }

  /**
   * The intended discard keeps the lockstep and removes x; a later add puts x back at the
   * end of the order; and a second discard changes nothing.
   */
  lemma DiscardIntendedThenAdd<T>(st: SetState<T>, x: T)
    requires Lockstep(st) && x in st.order
    ensures Lockstep(DiscardedIntended(st, x)) && x !in DiscardedIntended(st, x).members
    ensures Added(DiscardedIntended(st, x), x).order == RemoveFirst(st.order, x) + [x]
    ensures DiscardedIntended(DiscardedIntended(st, x), x) == DiscardedIntended(st, x)
  {
    DiscardedSpec(st, x);
    var d := DiscardedIntended(st, x);
    assert d.order == Discarded(st, x).value.order;
    assert (set i | 0 <= i < |d.order| :: d.order[i]) == st.members - {x} by {
      forall y | y in st.members - {x} ensures y in set i | 0 <= i < |d.order| :: d.order[i] {
        assert y in st.order;
        assert y in d.order;
        var k :| 0 <= k < |d.order| && d.order[k] == y;
      }
      forall i | 0 <= i < |d.order| ensures d.order[i] in st.members - {x} {
        assert d.order[i] in d.order;
        assert d.order[i] in st.order;
        var k :| 0 <= k < |st.order| && st.order[k] == d.order[i];
      }
    }
  }

  /** Appending one element to the input of FirstOccurrences. */
  lemma FirstOccurrencesAppend<T>(xs: seq<T>, x: T)
    ensures FirstOccurrences(xs + [x]) ==
      if x in FirstOccurrences(xs) then FirstOccurrences(xs) else FirstOccurrences(xs) + [x]
  {
    assert (xs + [x])[..|xs|] == xs;
  }

  /** OrderedSet([a, b, c, b, a]) iterates as [a, b, c], e.g. [3, 1, 2, 1, 3] as [3, 1, 2]. */
  lemma FromSeqExample<T>(a: T, b: T, c: T)
    requires a != b && b != c && a != c
    ensures FromSeq([a, b, c, b, a]).order == [a, b, c]
  {
    assert FirstOccurrences([a]) == [a] by { FirstOccurrencesAppend([], a); assert [] + [a] == [a]; }
    FirstOccurrencesAppend([a], b);
    assert [a] + [b] == [a, b];
    FirstOccurrencesAppend([a, b], c);
    assert [a, b] + [c] == [a, b, c];
    FirstOccurrencesAppend([a, b, c], b);
    assert [a, b, c] + [b] == [a, b, c, b];
    FirstOccurrencesAppend([a, b, c, b], a);
    assert [a, b, c, b] + [a] == [a, b, c, b, a];
  }

  /** Python's clamping of a slice bound (step 1); None stands for the omitted bound. */
  function SliceBound(b: Option<int>, n: nat, omitted: nat): (i: nat)
    requires omitted <= n
    ensures i <= n
  {
    match b
    case None => omitted
    case Some(j) =>
      if j < 0 then (if j + n < 0 then 0 else j + n)
      else if j > n then n else j
  }

  class OrderedSet<T(==)> {
    var members: set<T>    // the Python set the class extends: `in` and `len`
    var order: seq<T>      // `_order`

    function State(): SetState<T>
      reads this
    {
      SetState(order, members)
    }

    ghost predicate Valid()
      reads this
    {
      WellFormed(State())
    }

    /** OrderedSet(items): the set of the items, ordered by first occurrence. */
    constructor (items: seq<T>)
      ensures Valid()
      ensures State() == FromSeq(items)
    {
      var kept: seq<T> := [];
      var seen: set<T> := {};
      var i := 0;
      while i < |items|
        invariant 0 <= i <= |items|
        invariant kept == FirstOccurrences(items[..i])
        invariant forall x :: x in seen <==> x in kept
      {
        assert items[..i + 1][..i] == items[..i];
        if items[i] !in seen {
          kept := kept + [items[i]];
          seen := seen + {items[i]};
        }
        i := i + 1;
      }
      assert items[..i] == items;
      members := set x | x in items;
      order := kept;
      assert SetState(kept, set x | x in items) == FromSeq(items);
      FromSeqSpec(items);
    }

    method Add(x: T)
      requires Valid()
      modifies this
      ensures Valid()
      ensures State() == Added(old(State()), x)
    {
      if x !in members {
        order := order + [x];
      }
      members := members + {x};
      AddedSpec(old(State()), x);
    }

    /** discard(x); `Fail(ValueError)` is the error `list.remove` raises, with nothing changed. */
    method Discard(x: T) returns (r: Outcome)
      requires Valid()
      modifies this
      ensures Valid()
      ensures Discarded(old(State()), x).Success? ==>
        r == Pass && State() == Discarded(old(State()), x).value
      ensures Discarded(old(State()), x).Failure? ==>
        r == Fail(ValueError) && State() == old(State())
    {
      DiscardedSpec(State(), x);
      r := Pass;
      if x in members {
        if x !in order {
          return Fail(ValueError);
        }
        order := RemoveFirst(order, x);
      }
    }

    /** `x in s`. */
    predicate Contains(x: T)
      reads this
    {
      x in members
    }

    /** __iter__: the order list, duplicate-free and made of members. */
    function Items(): (r: seq<T>)
      reads this
      requires Valid()
      ensures NoDuplicates(r)
      ensures forall x :: x in r ==> Contains(x)
    {
      order
    }

    /** __getitem__ with an int: Python indexing of the order list, IndexError when out of range. */
    function At(i: int): (r: Result<T>)
      reads this
      requires Valid()
      ensures r.Success? <==> -|order| <= i < |order|
      ensures r.Failure? ==> r.error == IndexError
      ensures r.Success? ==> Contains(r.value)
      ensures r.Success? && i >= 0 ==> r.value == order[i]
      ensures r.Success? && i < 0 ==> r.value == order[|order| + i]
    {
      if 0 <= i < |order| then Success(order[i])
      else if -|order| <= i < 0 then Success(order[|order| + i])
      else Failure(IndexError)
    }

    /** __getitem__ with a slice [start:stop]: a new OrderedSet holding that part of the order. */
    method Slice(start: Option<int>, stop: Option<int>) returns (s: OrderedSet<T>)
      requires Valid()
      ensures fresh(s) && s.Valid()
      ensures var lo, hi := SliceBound(start, |order|, 0), SliceBound(stop, |order|, |order|);
        s.order == (if lo < hi then order[lo..hi] else []) &&
        s.State() == FromSeq(if lo < hi then order[lo..hi] else [])
      ensures forall x :: s.Contains(x) ==> Contains(x)
    {
      var lo, hi := SliceBound(start, |order|, 0), SliceBound(stop, |order|, |order|);
      var part := if lo < hi then order[lo..hi] else [];
      assert NoDuplicates(part);
      FirstOccurrencesOfDistinct(part);
      s := new OrderedSet(part);
    }
  }
}
