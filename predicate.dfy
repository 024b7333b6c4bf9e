/**
 * The predicate combinator algebra of pycommons/collections/functions/predicate.py.
 *
 * A predicate object is a value of `Pred`: the combinators hold the list of child
 * predicates their constructor stored (`_predicates`), ExactCount also its expected count
 * and its optional delegate (`_decorated`). `Test` gives the result of `test(value)` for
 * every shape; the methods below run the early-exit loops of the source and are proved to
 * return `Test` and to stop right after the child that decides the result.
 */
module Predicates {
  import opened Base

  datatype Pred<!T(==)> =
    | Leaf(fn: T -> bool)         // a caller-supplied Predicate
    | Passing                     // PassingPredicate
    | Failing                     // FailingPredicate
    | All(preds: seq<Pred<T>>)
    | Any(preds: seq<Pred<T>>)
    | Neither(preds: seq<Pred<T>>)
    | ExactCount(preds: seq<Pred<T>>, expected: int, decorated: Option<Pred<T>>)
    | And(first: Pred<T>, second: Pred<T>)
    | Or(first: Pred<T>, second: Pred<T>)
    | Not(operand: Pred<T>)
    | Equals(value: T)
    | NotEquals(value: T)
    | In(values: seq<T>)
    | NotIn(values: seq<T>)

  /** The result of `p.test(v)`, as the source computes it (OrPredicate included). */
  function Test<T(==)>(p: Pred<T>, v: T): bool
    decreases p, 1
  {
    match p
    case Leaf(f) => f(v)
    case Passing => true
    case Failing => false
    case All(ps) => forall i | 0 <= i < |ps| :: Test(ps[i], v)
    case Any(ps) => exists i | 0 <= i < |ps| :: Test(ps[i], v)
    case Neither(ps) => !exists i | 0 <= i < |ps| :: Test(ps[i], v)
    case ExactCount(ps, k, d) =>
      if d.Some? then Test(d.value, v) else CountTrue(Outcomes(ps, v)) == k
    case And(a, b) => Test(a, v) && Test(b, v)
    // OrPredicate.test is written with `and`, exactly like AndPredicate.test
    case Or(a, b) => Test(a, v) && Test(b, v)
    case Not(a) => !Test(a, v)
    case Equals(x) => v == x
    case NotEquals(x) => v != x
    case In(xs) => v in xs
    case NotIn(xs) => v !in xs
  }

  /** The results of testing `v` against each child, in order. */
  function Outcomes<T(==)>(ps: seq<Pred<T>>, v: T): (r: seq<bool>)
    ensures |r| == |ps|
    ensures forall i :: 0 <= i < |ps| ==> r[i] == Test(ps[i], v)
    decreases ps, 0
  {
    seq(|ps|, i requires 0 <= i < |ps| => Test(ps[i], v))
  }

  /** How many of `bs` are true, counted from the front as a running counter does. */
  function CountTrue(bs: seq<bool>): nat
  {
    if bs == [] then 0 else CountTrue(bs[..|bs| - 1]) + (if bs[|bs| - 1] then 1 else 0)
  }

  /** How many children pass `v`. */
  function PassCount<T(==)>(ps: seq<Pred<T>>, v: T): nat {
    CountTrue(Outcomes(ps, v))
  }

  lemma {:induction false} CountTrueBounds(bs: seq<bool>)
    ensures CountTrue(bs) <= |bs|
    ensures CountTrue(bs) == 0 <==> forall i :: 0 <= i < |bs| ==> !bs[i]
    ensures CountTrue(bs) == |bs| <==> forall i :: 0 <= i < |bs| ==> bs[i]
  {
    if bs != [] {
      var init := bs[..|bs| - 1];
      CountTrueBounds(init);
      assert forall i :: 0 <= i < |init| ==> init[i] == bs[i];
    }
  }

  lemma {:induction false} CountTrueMonotone(bs: seq<bool>, i: nat)
    requires i <= |bs|
    ensures CountTrue(bs[..i]) <= CountTrue(bs)
    decreases |bs|
  {
    if i < |bs| {
      var init := bs[..|bs| - 1];
      assert bs[..i] == init[..i];
      CountTrueMonotone(init, i);
    } else {
      assert bs[..i] == bs;
    }
  }

  // ---------------------------------------------------------------------------------
  // Construction

  predicate HasNone<T(==)>(children: seq<Option<Pred<T>>>) {
    exists i :: 0 <= i < |children| && children[i].None?
  }

  /** The children of a None-free argument list, unwrapped. */
  function Present<T(==)>(children: seq<Option<Pred<T>>>): (r: seq<Pred<T>>)
    requires !HasNone(children)
    ensures |r| == |children|
    ensures forall i :: 0 <= i < |children| ==> r[i] == children[i].value
  {
    seq(|children|, i requires 0 <= i < |children| => children[i].value)
  }

  /**
   * DecoratedPredicate.__init__: copies the children in order, refusing a None child, and
   * stores `empty` alone when there are no children and a substitute is given.
   */
  method Decorate<T(==)>(children: seq<Option<Pred<T>>>, empty: Option<Pred<T>>)
    returns (r: Result<seq<Pred<T>>>)
    ensures r.Failure? <==> HasNone(children)
    ensures r.Failure? ==> r.error == NoneArgument
    ensures r.Success? && |children| > 0 ==>
      |r.value| == |children| && forall i :: 0 <= i < |children| ==> r.value[i] == children[i].value
    ensures r.Success? && |children| == 0 ==>
      r.value == if empty.Some? then [empty.value] else []
  {
    var stored: seq<Pred<T>> := [];
    var i := 0;
    while i < |children|
      invariant 0 <= i <= |children|
      invariant |stored| == i
      invariant forall j :: 0 <= j < i ==> children[j].Some? && stored[j] == children[j].value
    {
      if children[i].None? {
        return Failure(NoneArgument);
      }
      stored := stored + [children[i].value];
      i := i + 1;
    }
    if |stored| == 0 && empty.Some? {
      stored := stored + [empty.value];
    }
    return Success(stored);
  }

  /** The object AllPredicate(ps) builds: an empty list is replaced by a PassingPredicate. */
  function AllOf<T(==)>(ps: seq<Pred<T>>): Pred<T> {
    All(if ps == [] then [Passing] else ps)
  }

  /** The object AnyPredicate(ps) builds: an empty list is replaced by a FailingPredicate. */
  function AnyOf<T(==)>(ps: seq<Pred<T>>): Pred<T> {
    Any(if ps == [] then [Failing] else ps)
  }

  /** The object NeitherPredicate(ps) builds: an empty list is replaced by a FailingPredicate. */
  function NeitherOf<T(==)>(ps: seq<Pred<T>>): Pred<T> {
    Neither(if ps == [] then [Failing] else ps)
  }

  /**
   * ExactCountPredicate(ps, k): ValueError when k exceeds the number of children;
   * k = 0 delegates to Neither, k = n or k < 0 delegates to All with expected count n.
   */
  function ExactCountOf<T(==)>(ps: seq<Pred<T>>, k: int): (r: Result<Pred<T>>)
    ensures r.Failure? <==> k > |ps|
    ensures r.Failure? ==> r.error == ValueError
  {
    if k > |ps| then Failure(ValueError)
    else if k == 0 then Success(ExactCount(ps, k, Some(NeitherOf(ps))))
    else if k == |ps| || k < 0 then Success(ExactCount(ps, |ps|, Some(AllOf(ps))))
    else Success(ExactCount(ps, k, None))
  }

  /** ExactOnePredicate(ps) is ExactCountPredicate(ps, 1). */
  function ExactOneOf<T(==)>(ps: seq<Pred<T>>): Result<Pred<T>> {
    ExactCountOf(ps, 1)
  }

  method NewAll<T(==)>(children: seq<Option<Pred<T>>>) returns (r: Result<Pred<T>>)
    ensures r.Failure? <==> HasNone(children)
    ensures r.Success? ==> r.value == AllOf(Present(children))
  {
    var stored := Decorate(children, Some(Passing));
    if stored.Failure? { return Failure(stored.error); }
    r := Success(All(stored.value));
  }

  method NewAny<T(==)>(children: seq<Option<Pred<T>>>) returns (r: Result<Pred<T>>)
    ensures r.Failure? <==> HasNone(children)
    ensures r.Success? ==> r.value == AnyOf(Present(children))
  {
    var stored := Decorate(children, Some(Failing));
    if stored.Failure? { return Failure(stored.error); }
    r := Success(Any(stored.value));
  }

  method NewNeither<T(==)>(children: seq<Option<Pred<T>>>) returns (r: Result<Pred<T>>)
    ensures r.Failure? <==> HasNone(children)
    ensures r.Success? ==> r.value == NeitherOf(Present(children))
  {
    var stored := Decorate(children, Some(Failing));
    if stored.Failure? { return Failure(stored.error); }
    r := Success(Neither(stored.value));
  }

  /** ExactCountPredicate.__init__: the None check runs first, then the count check. */
  method NewExactCount<T(==)>(children: seq<Option<Pred<T>>>, count: int) returns (r: Result<Pred<T>>)
    ensures HasNone(children) ==> r == Failure(NoneArgument)
    ensures !HasNone(children) ==> r == ExactCountOf(Present(children), count)
  {
    var stored := Decorate(children, None);
    if stored.Failure? { return Failure(stored.error); }
    var ps := stored.value;
    assert ps == Present(children);
    if count > |ps| {
      return Failure(ValueError);
    }
    var decorated: Option<Pred<T>> := None;
    var expected := count;
    if count == 0 {
      decorated := Some(NeitherOf(ps));
    } else if count == |ps| || count < 0 {
      decorated := Some(AllOf(ps));
      expected := |ps|;
    }
    r := Success(ExactCount(ps, expected, decorated));
  }

  method NewExactOne<T(==)>(children: seq<Option<Pred<T>>>) returns (r: Result<Pred<T>>)
    ensures HasNone(children) ==> r == Failure(NoneArgument)
    ensures !HasNone(children) ==> r == ExactOneOf(Present(children))
  {
    r := NewExactCount(children, 1);
  }

  method NewAnd<T(==)>(a: Option<Pred<T>>, b: Option<Pred<T>>) returns (r: Result<Pred<T>>)
    ensures r.Failure? <==> a.None? || b.None?
    ensures r.Success? ==> r.value == And(a.value, b.value)
  {
    var stored := Decorate([a, b], None);
    if stored.Failure? { return Failure(stored.error); }
    r := Success(And(stored.value[0], stored.value[1]));
  }

  method NewOr<T(==)>(a: Option<Pred<T>>, b: Option<Pred<T>>) returns (r: Result<Pred<T>>)
    ensures r.Failure? <==> a.None? || b.None?
    ensures r.Success? ==> r.value == Or(a.value, b.value)
  {
    var stored := Decorate([a, b], None);
    if stored.Failure? { return Failure(stored.error); }
    r := Success(Or(stored.value[0], stored.value[1]));
  }

  method NewNot<T(==)>(a: Option<Pred<T>>) returns (r: Result<Pred<T>>)
    ensures r.Failure? <==> a.None?
    ensures r.Success? ==> r.value == Not(a.value)
  {
    var stored := Decorate([a], None);
    if stored.Failure? { return Failure(stored.error); }
    r := Success(Not(stored.value[0]));
  }

  /** The predicate objects that have a `get_predicates` (subclasses of DecoratedPredicate). */
  predicate IsDecorated<T(==)>(p: Pred<T>) {
    match p
    case All(_) => true
    case Any(_) => true
    case Neither(_) => true
    case ExactCount(_, _, d) => d.None? || IsDecorated(d.value)
    case And(_, _) => true
    case Or(_, _) => true
    case Not(_) => true
    case _ => false
  }

  /** get_predicates: the stored children; ExactCount answers for its delegate when it has one. */
  function GetPredicates<T(==)>(p: Pred<T>): seq<Pred<T>>
    requires IsDecorated(p)
  {
    match p
    case All(ps) => ps
    case Any(ps) => ps
    case Neither(ps) => ps
    case ExactCount(ps, _, d) => if d.Some? then GetPredicates(d.value) else ps
    case And(a, b) => [a, b]
    case Or(a, b) => [a, b]
    case Not(a) => [a]
  }

  // ---------------------------------------------------------------------------------
  // The test loops

  /** `p.test(v)`, dispatching to the loop of each combinator. */
  method Evaluate<T(==)>(p: Pred<T>, v: T) returns (r: bool)
    ensures r == Test(p, v)
    decreases p, 1
  {
    match p
    case Leaf(f) => r := f(v);
    case Passing => r := true;
    case Failing => r := false;
    case All(ps) => var tested; r, tested := TestAll(ps, v);
    case Any(ps) => var tested; r, tested := TestAny(ps, v);
    case Neither(ps) => var tested; r, tested := TestNeither(ps, v);
    case ExactCount(ps, k, d) =>
      if d.Some? {
        r := Evaluate(d.value, v);
      } else {
        var tested; r, tested := TestExactCount(ps, k, v);
      }
    case And(a, b) =>
      r := Evaluate(a, v);
      if r { r := Evaluate(b, v); }
    case Or(a, b) =>
      r := Evaluate(a, v);
      if r { r := Evaluate(b, v); }
    case Not(a) =>
      r := Evaluate(a, v);
      r := !r;
    case Equals(x) => r := v == x;
    case NotEquals(x) => r := v != x;
    case In(xs) => r := v in xs;
    case NotIn(xs) => r := v !in xs;
  }

  /**
   * AllPredicate.test: true iff every child passes; `tested` children were asked, which is
   * all of them on success and exactly up to the first failing one otherwise.
   */
  method TestAll<T(==)>(ps: seq<Pred<T>>, v: T) returns (r: bool, tested: nat)
    ensures r <==> forall i :: 0 <= i < |ps| ==> Test(ps[i], v)
    ensures tested <= |ps|
    ensures r ==> tested == |ps|
    ensures !r ==> 0 < tested && !Test(ps[tested - 1], v)
    ensures forall i :: 0 <= i < tested - 1 ==> Test(ps[i], v)
    decreases ps, 0
  {
    var i := 0;
    while i < |ps|
      invariant 0 <= i <= |ps|
      invariant forall j :: 0 <= j < i ==> Test(ps[j], v)
    {
      var b := Evaluate(ps[i], v);
      if !b {
        return false, i + 1;
      }
      i := i + 1;
    }
    return true, i;
  }

  /**
   * AnyPredicate.test: true iff some child passes, stopping right after the first one that
   * does; when none passes every child was asked.
   */
  method TestAny<T(==)>(ps: seq<Pred<T>>, v: T) returns (r: bool, tested: nat)
    ensures r <==> exists i :: 0 <= i < |ps| && Test(ps[i], v)
    ensures tested <= |ps|
    ensures !r ==> tested == |ps|
    ensures r ==> 0 < tested && Test(ps[tested - 1], v)
    ensures forall i :: 0 <= i < tested - 1 ==> !Test(ps[i], v)
    decreases ps, 0
  {
    var i := 0;
    while i < |ps|
      invariant 0 <= i <= |ps|
      invariant forall j :: 0 <= j < i ==> !Test(ps[j], v)
    {
      var b := Evaluate(ps[i], v);
      if b {
        return true, i + 1;
      }
      i := i + 1;
    }
    return false, i;
  }

  /**
   * NeitherPredicate.test: true iff no child passes, returning false right after the first
   * child that passes.
   */
  method TestNeither<T(==)>(ps: seq<Pred<T>>, v: T) returns (r: bool, tested: nat)
    ensures r <==> forall i :: 0 <= i < |ps| ==> !Test(ps[i], v)
    ensures tested <= |ps|
    ensures r ==> tested == |ps|
    ensures !r ==> 0 < tested && Test(ps[tested - 1], v)
    ensures forall i :: 0 <= i < tested - 1 ==> !Test(ps[i], v)
    decreases ps, 0
  {
    var i := 0;
    while i < |ps|
      invariant 0 <= i <= |ps|
      invariant forall j :: 0 <= j < i ==> !Test(ps[j], v)
    {
      var b := Evaluate(ps[i], v);
      if b {
        return false, i + 1;
      }
      i := i + 1;
    }
    return true, i;
  }

  /** The running count exceeds `k` right after child `j`, which passed. */
  predicate ExceedsAt(bs: seq<bool>, k: int, j: nat)
    requires j < |bs|
  {
    bs[j] && CountTrue(bs[..j + 1]) > k
  }

  /**
   * The counting loop of ExactCountPredicate.test (no delegate): true iff exactly `k`
   * children pass; it stops right after the first child at which the running count
   * exceeds `k`, and otherwise asks every child.
   */
  method TestExactCount<T(==)>(ps: seq<Pred<T>>, k: int, v: T) returns (r: bool, tested: nat)
    ensures r <==> PassCount(ps, v) == k
    ensures tested <= |ps|
    ensures tested < |ps| ==> 0 < tested && ExceedsAt(Outcomes(ps, v), k, tested - 1)
    ensures forall j :: 0 <= j < tested - 1 ==> !ExceedsAt(Outcomes(ps, v), k, j)
    decreases ps, 0
  {
    ghost var outcomes := Outcomes(ps, v);
    var count := 0;
    var i := 0;
    while i < |ps|
      invariant 0 <= i <= |ps|
      invariant count == CountTrue(outcomes[..i])
      invariant forall j :: 0 <= j < i ==> !ExceedsAt(outcomes, k, j)
    {
      var b := Evaluate(ps[i], v);
      assert outcomes[..i + 1][..i] == outcomes[..i];
      if b {
        count := count + 1;
        if count > k {
          CountTrueMonotone(outcomes, i + 1);
          return false, i + 1;
        }
      }
      i := i + 1;
    }
    assert outcomes[..i] == outcomes;
    return count == k, i;
  }

  // ---------------------------------------------------------------------------------
  // Properties of the combinators

  /** All is true iff every child passes; with no children it is true. */
  lemma AllOfMeaning<T>(ps: seq<Pred<T>>, v: T)
    ensures Test(AllOf(ps), v) <==> forall i :: 0 <= i < |ps| ==> Test(ps[i], v)
    ensures GetPredicates(AllOf(ps)) == if ps == [] then [Passing] else ps
  {
  }

  /** Any is true iff some child passes; with no children it is false. */
  lemma AnyOfMeaning<T>(ps: seq<Pred<T>>, v: T)
    ensures Test(AnyOf(ps), v) <==> exists i :: 0 <= i < |ps| && Test(ps[i], v)
    ensures GetPredicates(AnyOf(ps)) == if ps == [] then [Failing] else ps
  {
    if ps == [] {
      assert !Test(Failing, v);
    }
  }

  /** Neither is the negation of Any; with no children it is true. */
  lemma NeitherOfMeaning<T>(ps: seq<Pred<T>>, v: T)
    ensures Test(NeitherOf(ps), v) <==> !Test(AnyOf(ps), v)
    ensures Test(NeitherOf(ps), v) <==> forall i :: 0 <= i < |ps| ==> !Test(ps[i], v)
    ensures GetPredicates(NeitherOf(ps)) == if ps == [] then [Failing] else ps
  {
    if ps == [] {
      assert !Test(Failing, v);
    }
  }

  /** For 0 <= k <= n, ExactCount(ps, k) is true iff exactly k children pass. */
  lemma {:induction false} ExactCountMeaning<T>(ps: seq<Pred<T>>, k: int, v: T)
    requires 0 <= k <= |ps|
    ensures ExactCountOf(ps, k).Success?
    ensures Test(ExactCountOf(ps, k).value, v) <==> PassCount(ps, v) == k
  {
    var outcomes := Outcomes(ps, v);
    CountTrueBounds(outcomes);
    if k == 0 {
      NeitherOfMeaning(ps, v);
    } else if k == |ps| {
      AllOfMeaning(ps, v);
    }
  }

  /** ExactCount(ps, 0) tests like Neither(ps); ExactCount(ps, n) and ExactCount(ps, k < 0) like All(ps). */
  lemma ExactCountDelegates<T>(ps: seq<Pred<T>>, k: int, v: T)
    requires k == 0 || k == |ps| || k < 0
    ensures ExactCountOf(ps, k).Success?
    ensures k == 0 ==> Test(ExactCountOf(ps, k).value, v) == Test(NeitherOf(ps), v)
    ensures k != 0 ==> Test(ExactCountOf(ps, k).value, v) == Test(AllOf(ps), v)
    ensures k != 0 ==> ExactCountOf(ps, k).value.expected == |ps|
  {
  }

  /** A negative count behaves as "all children pass", even with no children. */
  lemma ExactCountNegativeIsAll<T>(ps: seq<Pred<T>>, k: int, v: T)
    requires k < 0
    ensures Test(ExactCountOf(ps, k).value, v) <==> forall i :: 0 <= i < |ps| ==> Test(ps[i], v)
  {
    AllOfMeaning(ps, v);
  }

  /**
   * get_predicates through the delegate returns the children in order when there are any;
   * with no children it returns the delegate's substitute instead, so the delegation is
   * visible: Failing for k = 0, Passing for k < 0.
   */
  lemma ExactCountPredicates<T>(ps: seq<Pred<T>>, k: int)
    requires k <= |ps|
    ensures IsDecorated(ExactCountOf(ps, k).value)
    ensures ps != [] ==> GetPredicates(ExactCountOf(ps, k).value) == ps
    ensures ps == [] && k == 0 ==> GetPredicates(ExactCountOf(ps, k).value) == [Failing]
    ensures ps == [] && k < 0 ==> GetPredicates(ExactCountOf(ps, k).value) == [Passing]
  {
  }

  /**
   * ExactOne: refused with no children, delegates to All for one child, and otherwise
   * counts with expected count 1 and no delegate; it is true iff exactly one child passes.
   */
  lemma ExactOneShape<T>(ps: seq<Pred<T>>, v: T)
    ensures ExactOneOf(ps).Failure? <==> ps == []
    ensures |ps| == 1 ==> ExactOneOf(ps).value.decorated == Some(AllOf(ps))
    ensures |ps| > 1 ==> ExactOneOf(ps).value == ExactCount(ps, 1, None)
    ensures ps != [] ==> (Test(ExactOneOf(ps).value, v) <==> PassCount(ps, v) == 1)
  {
    if ps != [] {
      ExactCountMeaning(ps, 1, v);
    }
  }

  /** The scenario ExactCount([pass, pass, pass, fail], 2) is false for every value. */
  lemma ThreeOfFourIsNotTwo<T>(v: T)
    ensures !Test(ExactCountOf([Passing, Passing, Passing, Failing], 2).value, v)
  {
    var ps: seq<Pred<T>> := [Passing, Passing, Passing, Failing];
    var outcomes := Outcomes(ps, v);
    assert outcomes == [true, true, true, false];
    CountTrueBounds(outcomes[..3]);
    assert outcomes[..|outcomes| - 1] == outcomes[..3];
  }

  /** Not negates its child; And is the conjunction of its two children. */
  lemma NotAndMeaning<T>(a: Pred<T>, b: Pred<T>, v: T)
    ensures Test(Not(a), v) == !Test(a, v)
    ensures Test(And(a, b), v) == (Test(a, v) && Test(b, v))
    ensures GetPredicates(And(a, b)) == [a, b] && GetPredicates(Not(a)) == [a]
  {
  }

  /** Equals/NotEquals and In/NotIn are complementary, and NotIn tests like Not(In). */
  lemma ValuePredicatesComplement<T>(x: T, xs: seq<T>, v: T)
    ensures Test(NotEquals(x), v) == !Test(Equals(x), v)
    ensures Test(NotIn(xs), v) == !Test(In(xs), v)
    ensures Test(NotIn(xs), v) == Test(Not(In(xs)), v)
    ensures Test(Equals(x), v) <==> v == x
    ensures Test(In(xs), v) <==> exists i :: 0 <= i < |xs| && xs[i] == v
  {
  }

  /** As written, Or(a, b) tests exactly like All([a, b]): it is a conjunction. */
  lemma OrAsWritten<T>(a: Pred<T>, b: Pred<T>, v: T)
    ensures Test(Or(a, b), v) == Test(AllOf([a, b]), v)
    ensures !Test(Or(Passing, Failing), v)
  {
    var ps := [a, b];
    AllOfMeaning(ps, v);
    assert ps[0] == a && ps[1] == b;
  }

  /** OrPredicate.test as evidently intended: `or` instead of `and`. */
  function TestOrIntended<T(==)>(a: Pred<T>, b: Pred<T>, v: T): bool {
    Test(a, v) || Test(b, v)
  }

  /** The intended Or agrees with Any over its two children, so it passes when one child passes. */
  lemma OrIntendedIsAny<T>(a: Pred<T>, b: Pred<T>, v: T)
    ensures TestOrIntended(a, b, v) == Test(AnyOf([a, b]), v)
    ensures TestOrIntended(Passing, Failing, v)
    ensures TestOrIntended(a, Not(a), v)
  {
    var ps := [a, b];
    AnyOfMeaning(ps, v);
    assert ps[0] == a && ps[1] == b;
  }
}
