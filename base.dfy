/**
 * What the library takes from Python itself: the exception classes it raises, the
 * Option/Result shapes that stand for "may be None" and "may raise", and duplicate-free
 * sequences (the insertion-order lists kept by dicts and ordered sets).
 */
module Base {

  /** The exception classes raised by the modelled code (their messages are not modelled).
      `NoneArgument` is whatever `ObjectUtils.require_not_none` raises for a None argument. */
  datatype Error =
    | ValueError
    | TypeError
    | OverflowError
    | KeyError
    | IndexError
    | StopIteration
    | RuntimeError
    | NoneArgument

  datatype Option<+T> = None | Some(value: T)

  /** A call that either returns a value or raises. */
  datatype Result<+T> = Success(value: T) | Failure(error: Error)

  /** A call that either returns nothing or raises. */
  datatype Outcome = Pass | Fail(error: Error)

  predicate NoDuplicates<T(==)>(s: seq<T>) {
    forall i, j :: 0 <= i < j < |s| ==> s[i] != s[j]
  }

  /** A duplicate-free sequence has as many distinct elements as positions. */
  lemma {:induction false} DistinctElements<T>(s: seq<T>)
    requires NoDuplicates(s)
    ensures |set x | x in s| == |s|
  {
    if s != [] {
      var init := s[..|s| - 1];
      var last := s[|s| - 1];
      assert NoDuplicates(init);
      DistinctElements(init);
      assert last !in init by {
        forall i | 0 <= i < |init| ensures init[i] != last { assert s[i] != s[|s| - 1]; }
      }
      assert (set x | x in s) == (set x | x in init) + {last};
    }
  }
}
