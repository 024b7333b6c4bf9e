# pycommons-collections in Dafny

This project models the core of the pycommons collections package:

- the predicate combinators of `functions/predicate.py`: All, Any, Neither, ExactCount, ExactOne, And, Or, Not and the value predicates;
- `OrderedSet`, a set with an insertion-order list beside it;
- the map family built on `UserDict`:
  - `IterableMap` and its `MapIterator` cursor, which can write through to the map;
  - `OrderedMap` and its `__str__`;
  - `LazyMap` and `LazyOrderedMap`, which fill a missing key from a factory;
  - `MultiValuedMap`, which keeps an OrderedSet of values per key;
  - `FixedSizeMap` and `SingletonMap`, which overflow at `max_size` keys;
  - `UnmodifiableMap` and `UnmodifiableLateInitMap`;
  - `PredicatedMap` and `PredicateOrderedMap`, which check keys and values on write;
  - `DefaultedMap`.

Each source file has one module:

| module | file |
|---|---|
| `Predicates` | `predicate.dfy` |
| `OrderedSets` | `ordered_set.dfy` |
| `IterableMaps` | `iterable.dfy` |
| `OrderedMaps` | `ordered_map.dfy` |
| `LazyMaps` | `lazy.dfy` |
| `MultiValuedMaps` | `multi_valued.dfy` |
| `SizedMaps` | `sized.dfy` |
| `UnmodifiableMaps` | `unmodifiable.dfy` |
| `PredicatedMaps` | `predicated.dfy` |
| `DefaultedMaps` | `defaulted.dfy` |

`Base` (`base.dfy`) holds the Python exceptions as an `Error` datatype, plus `Option`, `Result` and `Outcome`.

## How the model is built

The dict behind every map, `self.data`, is the class `IterableMaps.Dict`:

- a key sequence in insertion order, plus a `map` of entries;
- its contents as a value are `Table`;
- writes go through the pure `Put` and `PutAll`.

Each map class holds a `Dict` and updates it in place. Its methods are proved equal to pure functions of the old contents: `FixedPut`, `MultiPut`, `LazyGet`, `GuardedPut`, `CheckedPut`. Lemmas state what those functions promise.

The CPython dict items iterator is the pure step function `Advance`:

- it yields entries in key order;
- it raises RuntimeError once the dict's size has changed, and on every later step;
- it raises StopIteration at the end.

The `MapIterator` cursor (key, value, write-through `set_value`) is a class over it. Because an unstepped cursor writes under the key None, maps reachable by a cursor use `Option<K>` keys.

Predicates are values of the datatype `Pred`. `Test` gives their result. Methods run the source's early-exit loops and are proved to return `Test`.

The code is modelled as written. Where it departs from what its names and documentation promise, the as-written and the intended behaviour both appear (see Findings).

## Model

| member | source | states |
|---|---|---|
| Predicates.Outcomes | pycommons/collections/functions/predicate.py:114-116 | one result per child, in order, each the child's `test` |
| Predicates.CountTrueBounds | pycommons/collections/functions/predicate.py:113-121 | the passing count is at most the number of children; it is 0 iff none pass and full iff all pass |
| Predicates.CountTrueMonotone | pycommons/collections/functions/predicate.py:114-119 | the running counter never exceeds the final count, so the early `False` exit is sound |
| Predicates.Present | pycommons/collections/functions/predicate.py:18-20 | the None-free children unwrapped, same length and order |
| Predicates.Decorate | pycommons/collections/functions/predicate.py:13-23 | fails exactly when a child is None; otherwise stores the children in order, or the substitute alone when there are none |
| Predicates.ExactCountOf | pycommons/collections/functions/predicate.py:128-140 | ValueError exactly when the count exceeds the number of children |
| Predicates.NewAll | pycommons/collections/functions/predicate.py:35-36 | fails iff a child is None, otherwise the All predicate over the children |
| Predicates.NewAny | pycommons/collections/functions/predicate.py:61-62 | fails iff a child is None, otherwise the Any predicate over the children |
| Predicates.NewNeither | pycommons/collections/functions/predicate.py:87-88 | fails iff a child is None, otherwise the Neither predicate over the children |
| Predicates.NewExactCount | pycommons/collections/functions/predicate.py:128-140 | a None child fails; otherwise the ExactCount construction |
| Predicates.NewExactOne | pycommons/collections/functions/predicate.py:143-145 | a None child fails; otherwise ExactCount with count 1 |
| Predicates.NewAnd | pycommons/collections/functions/predicate.py:148-150 | fails iff an operand is None |
| Predicates.NewOr | pycommons/collections/functions/predicate.py:156-158 | fails iff an operand is None |
| Predicates.NewNot | pycommons/collections/functions/predicate.py:164-166 | fails iff the operand is None |
| Predicates.Evaluate | pycommons/collections/functions/predicate.py:38-169 | the iterative evaluation of any predicate equals `Test` |
| Predicates.TestAll | pycommons/collections/functions/predicate.py:49-52 | true iff every child passes; stops right after the first failing child |
| Predicates.TestAny | pycommons/collections/functions/predicate.py:75-78 | true iff some child passes; stops right after the first passing child |
| Predicates.TestNeither | pycommons/collections/functions/predicate.py:102-105 | true iff no child passes; stops right after the first passing child |
| Predicates.TestExactCount | pycommons/collections/functions/predicate.py:113-121 | true iff exactly k children pass; stops right after the count first exceeds k |
| Predicates.AllOfMeaning | pycommons/collections/functions/predicate.py:29-52 | All is the conjunction of its children, and stores Passing when it has none |
| Predicates.AnyOfMeaning | pycommons/collections/functions/predicate.py:55-78 | Any is the disjunction of its children, and stores Failing when it has none |
| Predicates.NeitherOfMeaning | pycommons/collections/functions/predicate.py:81-105 | Neither is the negation of Any, true iff no child passes, and stores Failing when it has none |
| Predicates.ExactCountMeaning | pycommons/collections/functions/predicate.py:109-140 | for 0 <= k <= n, ExactCount(k) is true iff exactly k children pass, whichever delegate was chosen |
| Predicates.ExactCountDelegates | pycommons/collections/functions/predicate.py:136-140 | count 0 delegates to Neither; count n or negative delegates to All, with the expected count reset to n |
| Predicates.ExactCountNegativeIsAll | pycommons/collections/functions/predicate.py:138-140 | a negative count means "all children pass" |
| Predicates.ExactCountPredicates | pycommons/collections/functions/predicate.py:123-126 | get_predicates gives the children, or the delegate's substitute when there are none |
| Predicates.ExactOneShape | pycommons/collections/functions/predicate.py:143-145 | ExactOne fails on no children; otherwise it is true iff exactly one child passes |
| Predicates.ThreeOfFourIsNotTwo | pycommons/collections/functions/predicate.py:113-121 | three passing children out of four do not satisfy a count of two |
| Predicates.NotAndMeaning | pycommons/collections/functions/predicate.py:148-169 | Not negates, And conjoins, and both store their operands in order |
| Predicates.ValuePredicatesComplement | pycommons/collections/functions/predicate.py:182-212 | NotEquals and NotIn are the complements of Equals and In |
| Predicates.OrAsWritten | pycommons/collections/functions/predicate.py:160-161 | Or as written is the conjunction of its operands, so Or(Passing, Failing) is false |
| Predicates.OrIntendedIsAny | pycommons/collections/functions/predicate.py:156-161 | the intended Or is Any of its two operands, true for Or(Passing, Failing) and for a or not a |
| OrderedSets.FirstOccurrencesElements | pycommons/collections/sets/ordered.py:13-17 | the constructor's order is duplicate-free and holds exactly the input's elements |
| OrderedSets.FirstOccurrencesOrder | pycommons/collections/sets/ordered.py:14-17 | the constructor's order follows the first occurrence of each element in the input |
| OrderedSets.FirstOccurrencesSpec | pycommons/collections/sets/ordered.py:13-17 | the order built by the constructor is duplicate-free, has exactly the input's elements, and follows first occurrence |
| OrderedSets.IndexOfPrefix | pycommons/collections/sets/ordered.py:14-17 | a first occurrence within a prefix is the first occurrence in the whole input |
| OrderedSets.FirstOccurrencesOfDistinct | pycommons/collections/sets/ordered.py:13-17 | a duplicate-free input is kept as it is |
| OrderedSets.FromSeqSpec | pycommons/collections/sets/ordered.py:9-17 | a new set is well formed, its members are the input's elements, and it iterates in first-occurrence order |
| OrderedSets.FromSeqExample | pycommons/collections/sets/ordered.py:9-17 | [a, b, c, b, a] iterates as [a, b, c] |
| OrderedSets.FirstOccurrencesAppend | pycommons/collections/sets/ordered.py:14-17 | one more input element is appended to the order iff it was not seen before |
| OrderedSets.AddedSpec | pycommons/collections/sets/ordered.py:19-23 | add keeps the invariant, makes x a member, and appends x to the order iff it was not a member |
| OrderedSets.AddedIdempotent | pycommons/collections/sets/ordered.py:19-23 | adding twice is adding once |
| OrderedSets.DiscardedSpec | pycommons/collections/sets/ordered.py:25-27 | discard keeps the invariant and removes x from the order only; it raises ValueError iff x is a member missing from the order |
| OrderedSets.DiscardThenAdd | pycommons/collections/sets/ordered.py:19-27 | after a discard, add does not restore x to the order, and a second discard raises ValueError |
| OrderedSets.AddedKeepsLockstep | pycommons/collections/sets/ordered.py:19-23 | add keeps the order and the membership holding the same elements |
| OrderedSets.DiscardIntendedThenAdd | pycommons/collections/sets/ordered.py:25-27 | the intended discard removes x from both; a later add appends it again, and a second discard changes nothing |
| OrderedSets.SliceBound | pycommons/collections/sets/ordered.py:32-34 | a Python slice bound is clamped into 0..len |
| OrderedSets.OrderedSet.constructor | pycommons/collections/sets/ordered.py:9-17 | the loop with a seen-set builds exactly `FromSeq(items)` |
| OrderedSets.OrderedSet.Add | pycommons/collections/sets/ordered.py:19-23 | the new state is `Added` of the old |
| OrderedSets.OrderedSet.Discard | pycommons/collections/sets/ordered.py:25-27 | the new state is `Discarded` of the old, or ValueError with nothing changed |
| OrderedSets.OrderedSet.Items | pycommons/collections/sets/ordered.py:29-30 | iteration lists distinct members |
| OrderedSets.OrderedSet.At | pycommons/collections/sets/ordered.py:32-35 | an index in -len..len-1 gives that element (negative from the end); any other index raises IndexError |
| OrderedSets.OrderedSet.Slice | pycommons/collections/sets/ordered.py:32-34 | a slice is a new OrderedSet built from the clamped range of the order: its order is that range and its members are exactly the range's elements |
| IterableMaps.KeysOf | pycommons/collections/maps/iterable.py:48-54 | the keys of the pairs, in order |
| IterableMaps.PutSpec | pycommons/collections/maps/iterable.py:48 | a dict write stores v under k, keeps every other entry, and appends k to the key order iff it is new |
| IterableMaps.SizeIsEntryCount | pycommons/collections/maps/iterable.py:48 | `len` counts the keys of the order list |
| IterableMaps.PutAllFromEmpty | pycommons/collections/maps/iterable.py:48 | writing pairs into an empty dict orders keys by first occurrence |
| IterableMaps.Dict.Set | pycommons/collections/maps/iterable.py:28 | the new contents are `Put` of the old |
| IterableMaps.Dict.Update | pycommons/collections/maps/iterable.py:48 | the new contents are `PutAll` of the old, pair by pair |
| IterableMaps.WalkInKeyOrder | pycommons/collections/maps/iterable.py:51 | an unchanged dict's items iterator yields the entries in key order, then raises StopIteration |
| IterableMaps.SizeChangeIsFinal | pycommons/collections/maps/iterable.py:51 | once the dict's size changed, the step and every later step raise RuntimeError |
| IterableMaps.ItemsIterator.Next | pycommons/collections/maps/iterable.py:44 | one step of the items iterator is `Advance` |
| IterableMaps.MapIterator.constructor | pycommons/collections/maps/iterable.py:13-17 | the cursor holds the data, the shared items iterator, key and value |
| IterableMaps.MapIterator.SetValue | pycommons/collections/maps/iterable.py:25-29 | returns the previous value and writes through to the dict under the cursor's key |
| IterableMaps.MapIterator.AssignValue | pycommons/collections/maps/iterable.py:39-41 | the value setter is `set_value` with the result dropped |
| IterableMaps.MapIterator.Next | pycommons/collections/maps/iterable.py:43-45 | a step gives a new cursor over the same data on the next entry, or the iterator's exception |
| IterableMaps.MapIteratorOf | pycommons/collections/maps/iterable.py:50-54 | a writable cursor with key and value None at the start of the items |
| IterableMaps.FirstIterationStep | pycommons/collections/maps/iterable.py:43-54 | the first step of `iter(m)` gives a cursor at the first entry (its key and value), not a key |
| IterableMaps.WriteBeforeFirstStep | pycommons/collections/maps/iterable.py:25-29 | a write before the first step stores under None, and the next step then raises RuntimeError |
| OrderedMaps.EntryTexts | pycommons/collections/maps/ordered.py:17-19 | one `key: value` text per entry, in key order |
| OrderedMaps.RenderEmpty | pycommons/collections/maps/ordered.py:16-21 | an empty map renders as `{}` |
| OrderedMaps.JoinAppend | pycommons/collections/maps/ordered.py:21 | joining one more part appends the separator and the part |
| OrderedMaps.EntryTextsAppend | pycommons/collections/maps/ordered.py:17-19 | a new key's entry text comes after the texts of the keys already there |
| OrderedMaps.RenderNewKey | pycommons/collections/maps/ordered.py:16-21 | a new key's entry is rendered last, after `, ` |
| OrderedMaps.RenderSingle | pycommons/collections/maps/ordered.py:16-21 | a single entry renders as `{key: value}` |
| OrderedMaps.RenderTwo | pycommons/collections/maps/ordered.py:16-21 | two entries render in insertion order |
| OrderedMaps.OrderedMap.constructor | pycommons/collections/maps/ordered.py:12-14 | starts empty |
| OrderedMaps.OrderedMap.Str | pycommons/collections/maps/ordered.py:16-21 | the loop over the items iterator builds exactly `Render` of the contents |
| LazyMaps.LazyGetSpec | pycommons/collections/maps/lazy.py:17-21 | a read leaves the returned value stored and other entries alone; the factory runs iff the key was missing |
| LazyMaps.LazyGetTwice | pycommons/collections/maps/lazy.py:17-21 | a second read of a key gives the same value and calls nothing |
| LazyMaps.CountingScenario | pycommons/collections/maps/lazy.py:17-21 | a counting factory gives 2, 4, 6, then 6 again, then 8, and keys are stored in first-read order |
| LazyMaps.LazyMap.constructor | pycommons/collections/maps/lazy.py:13-15 | the seeds are written into a new dict and no factory call is made |
| LazyMaps.LazyMap.Over | pycommons/collections/maps/lazy.py:24-28 | the lazy lookup over a given dict |
| LazyMaps.LazyMap.Get | pycommons/collections/maps/lazy.py:17-21 | `__getitem__` is `LazyGet` |
| LazyMaps.LazyOrderedMap.constructor | pycommons/collections/maps/lazy.py:24-28 | empty, the lazy lookup sharing the ordered map's dict |
| LazyMaps.LazyOrderedMap.Get | pycommons/collections/maps/lazy.py:17-21 | `__getitem__` is `LazyGet` on the shared dict |
| LazyMaps.LazyOrderedMap.Str | pycommons/collections/maps/ordered.py:16-21 | renders the shared dict |
| MultiValuedMaps.MergedSpec | pycommons/collections/maps/multi_valued.py:15-21 | the key then holds a well-formed set containing v and what was stored before |
| MultiValuedMaps.MultiPutSpec | pycommons/collections/maps/multi_valued.py:15-21 | a write keeps the dict invariant and the set invariant, and changes only key k |
| MultiValuedMaps.BagGrowsByNewValues | pycommons/collections/maps/multi_valued.py:16-17 | a stored set grows by one iff the value is new, and writing it again changes nothing |
| MultiValuedMaps.PlainSameValue | pycommons/collections/maps/multi_valued.py:18-19 | a plain value written again becomes a set holding it once |
| MultiValuedMaps.SingletonSet | pycommons/collections/maps/multi_valued.py:20-21 | a new key stores a set of v alone |
| MultiValuedMaps.SecondValueScenario | pycommons/collections/maps/multi_valued.py:15-21 | a seeded key written with a second value holds both, in order |
| MultiValuedMaps.SeedsKeys | pycommons/collections/maps/multi_valued.py:12-13 | seeding keeps the invariants and stores exactly the seeded keys |
| MultiValuedMaps.SeedStoredAlone | pycommons/collections/maps/multi_valued.py:12-13 | with one value per key, every seed is stored as a one-element set |
| MultiValuedMaps.MultiValuedMap.constructor | pycommons/collections/maps/multi_valued.py:12-13 | the seeds go through `__setitem__` in order |
| MultiValuedMaps.MultiValuedMap.Set | pycommons/collections/maps/multi_valued.py:15-21 | `__setitem__` is `MultiPut`, keeping every stored set well formed |
| SizedMaps.FixedPutSpec | pycommons/collections/maps/sized.py:31-34 | OverflowError iff max_size keys are held, overwrites included; otherwise a dict write within the bound |
| SizedMaps.DistinctKeysStep | pycommons/collections/maps/sized.py:31-34 | each write adds at most one key |
| SizedMaps.FixedPutAllOutcome | pycommons/collections/maps/sized.py:27-34 | seeding fails iff some write finds the map full; otherwise the map holds what a dict would, within max_size |
| SizedMaps.FixedPutAllFailureIsFinal | pycommons/collections/maps/sized.py:27-29 | a failing prefix of the seeds fails the construction |
| SizedMaps.IsFullAsWrittenDisagrees | pycommons/collections/maps/sized.py:21-22 | is_full as written is false on a map that refuses every write and true on one that accepts one more |
| SizedMaps.IsFullMeansNextWriteFails | pycommons/collections/maps/sized.py:21-22 | the intended is_full is true iff the next write raises OverflowError |
| SizedMaps.ThreeSlotScenario | pycommons/collections/maps/sized.py:21-34 | with max_size 3: two keys read as full as written, three keys read as not full, and a fourth key overflows |
| SizedMaps.SingletonRefusesSecondWrite | pycommons/collections/maps/sized.py:37-40 | a SingletonMap holding a key refuses any further write |
| SizedMaps.FixedSizeMap.constructor | pycommons/collections/maps/sized.py:27-29 | an empty map with the given max_size |
| SizedMaps.FixedSizeMap.Create | pycommons/collections/maps/sized.py:27-29 | seeding through `__setitem__` fails with OverflowError iff `FixedPutAll` does |
| SizedMaps.FixedSizeMap.CreateSingleton | pycommons/collections/maps/sized.py:37-40 | a SingletonMap is a FixedSizeMap of size one |
| SizedMaps.FixedSizeMap.Set | pycommons/collections/maps/sized.py:31-34 | `__setitem__` is `FixedPut`; nothing changes on overflow |
| SizedMaps.FixedSizeMap.IsFull | pycommons/collections/maps/sized.py:21-22 | is_full as written, one key short of max_size |
| UnmodifiableMaps.FrozenRefusesWrites | pycommons/collections/maps/unmodifiable.py:30-31 | after construction, a plain map refuses every key |
| UnmodifiableMaps.LateInitWritesOnce | pycommons/collections/maps/unmodifiable.py:82-83 | a late-init map accepts a write iff the key is absent, and refuses that key afterwards |
| UnmodifiableMaps.InitialisingRefusesNone | pycommons/collections/maps/unmodifiable.py:30-31 | while initialising, any key but None is accepted |
| UnmodifiableMaps.UnmodifiableMap.constructor | pycommons/collections/maps/unmodifiable.py:33-37 | the seeds are written through update while initialising; max_size is then the number of keys and the flag is cleared |
| UnmodifiableMaps.UnmodifiableMap.Set | pycommons/collections/maps/unmodifiable.py:39-42 | `__setitem__` is `GuardedPut`: a dict write when allowed, TypeError with nothing changed otherwise |
| UnmodifiableMaps.UnmodifiableMap.Update | pycommons/collections/maps/unmodifiable.py:54-57 | writes while initialising, TypeError afterwards |
| UnmodifiableMaps.UnmodifiableMap.PopItem | pycommons/collections/maps/unmodifiable.py:44-47 | TypeError after construction |
| UnmodifiableMaps.UnmodifiableMap.Delete | pycommons/collections/maps/unmodifiable.py:49-52 | TypeError after construction |
| UnmodifiableMaps.UnmodifiableMap.Pop | pycommons/collections/maps/unmodifiable.py:59-64 | TypeError after construction, with or without a default |
| UnmodifiableMaps.UnmodifiableMap.Clear | pycommons/collections/maps/unmodifiable.py:66-69 | TypeError after construction |
| UnmodifiableMaps.UnmodifiableMap.MaxSize | pycommons/collections/maps/unmodifiable.py:27-28 | the number of keys at construction; for a late-init map, the number now |
| UnmodifiableMaps.UnmodifiableMap.ItemsIterator | pycommons/collections/maps/unmodifiable.py:71-72 | a read-only cursor at the start of the items |
| UnmodifiableMaps.WriteThroughInheritedIterator | pycommons/collections/maps/iterable.py:50-54 | a frozen map refuses `m[None] = v`, yet an inherited cursor writes v under None |
| UnmodifiableMaps.WriteThroughItemsIterator | pycommons/collections/maps/unmodifiable.py:12-18 | a cursor from items_iterator raises TypeError and leaves the map unchanged |
| PredicatedMaps.CheckSpec | pycommons/collections/maps/predicated.py:24-29 | the check passes iff both predicates pass; it blames the key whenever the key fails |
| PredicatedMaps.CheckedPutSpec | pycommons/collections/maps/predicated.py:17-19 | a write succeeds iff key and value pass, else ValueError; it keeps every stored entry passing |
| PredicatedMaps.CheckedPutAllOutcome | pycommons/collections/maps/predicated.py:12-19 | seeding succeeds iff every pair passes; the map then holds what a dict would, every entry passing |
| PredicatedMaps.TestPredicatesScenario | pycommons/collections/maps/predicated.py:24-29 | under "starts with testKey" and "even", ("unknown", 8) fails on its key, ("testKey3", 7) on its value, and ("testKey1", 2) passes |
| PredicatedMaps.PredicatedMap.Empty | pycommons/collections/maps/predicated.py:12-15 | an empty map with the given predicates |
| PredicatedMaps.PredicatedMap.Over | pycommons/collections/maps/predicated.py:38-42 | the checked writes over a given empty dict |
| PredicatedMaps.PredicatedMap.Create | pycommons/collections/maps/predicated.py:12-15 | too many positional arguments raise TypeError, a lone keyword name ValueError, and seeds go through `CheckedPutAll` |
| PredicatedMaps.PredicatedMap.Validate | pycommons/collections/maps/predicated.py:21-22 | validate is true iff the exceptional check raises nothing |
| PredicatedMaps.PredicatedMap.ValidateExceptionally | pycommons/collections/maps/predicated.py:24-29 | raises ValueError exactly when validate is false |
| PredicatedMaps.PredicatedMap.Set | pycommons/collections/maps/predicated.py:17-19 | `__setitem__` is `CheckedPut`; nothing changes on ValueError |
| PredicatedMaps.PredicateOrderedMap.constructor | pycommons/collections/maps/predicated.py:38-42 | empty, the checks sharing the ordered map's dict |
| PredicatedMaps.PredicateOrderedMap.Set | pycommons/collections/maps/predicated.py:17-19 | `__setitem__` is `CheckedPut` on the shared dict |
| PredicatedMaps.PredicateOrderedMap.Str | pycommons/collections/maps/ordered.py:16-21 | renders the shared dict |
| DefaultedMaps.GetItemAsWrittenLosesValues | pycommons/collections/maps/defaulted.py:15-16 | as written, a read gives neither the stored value nor the default |
| DefaultedMaps.DefaultedLookupAfterPut | pycommons/collections/maps/defaulted.py:15-16 | as intended, a read after writing v under k gives v; other keys are unaffected; a never-written key gives the default |
| DefaultedMaps.SeededScenario | pycommons/collections/maps/defaulted.py:11-16 | seeded with (k1, v1): k1 reads v1 and another key reads the default as intended, but both read None as written |
| DefaultedMaps.DefaultedMap.constructor | pycommons/collections/maps/defaulted.py:11-13 | the default is kept and the seeds are written into a new dict |
| DefaultedMaps.DefaultedMap.GetItem | pycommons/collections/maps/defaulted.py:15-16 | `__getitem__` as written gives None |
| DefaultedMaps.DefaultedMap.GetItemIntended | pycommons/collections/maps/defaulted.py:15-16 | the stored value, or the default for a missing key |

## Left out

- IdentityPredicate, NonePredicate, NoneIsTruePredicate and NoneIsFalsePredicate: they compare by object identity (`is`), which values in this model do not have.
- InPredicate and NotInPredicate: they hold a reference to a live iterable. Here it is a snapshot sequence, so a later change to the collection is not seen.
- Predicate objects from outside this package (`PassingPredicate`, `FailingPredicate`, the `Predicate` base) appear as the `Passing`, `Failing` and `Leaf` cases.
- `ObjectUtils.require_not_none` comes from outside this package. Its exception is the `NoneArgument` error.
- Exception messages are not modelled; only the exception type is.
- UserDict's `len`, `in`, `get`, `__delitem__`, `pop`, `popitem` and `clear` on the writable maps are not modelled beyond the dict writes they share with the modelled ones.
- `keys()`, `values()`, `items()` and `for k in m` are not modelled. They go through the overridden `__iter__` (pycommons/collections/maps/iterable.py:53-54), which yields `MapIterator` cursors rather than keys; `IterableMaps.FirstIterationStep` shows the first step. So `for k in m` gives cursors, and `values()` looks up `m[cursor]`, which on a LazyMap runs the factory on the cursor. A dict would give keys.
- `repr(m)` is not modelled. Only `__str__` is overridden (pycommons/collections/maps/ordered.py:16-21); `repr` is UserDict's rendering of `self.data`, an `OrderedDict` for the ordered maps.
- Names used by the repository's tests or package exports that the source does not define are not modelled: `FixedSizeMap.size()`, `PredicatedOrderedMap`, `CompositePredicatedMap`, and the `ItemsIterator` and `UnmodifiableItemsIterator` imported by `pycommons/collections/maps/__init__.py:2,7`. Those two imports fail, so importing the maps package as written raises ImportError.
- OrderedMap, LazyOrderedMap and PredicateOrderedMap hold a `collections.OrderedDict`, but their iteration is modelled with the plain dict items iterator (`IterableMaps.Advance`). CPython's OrderedDict iterator differs. After a change it raises RuntimeError once and StopIteration afterwards, so the error is not sticky. After the last entry it gives StopIteration even when the dict changed. `IterableMaps.SizeChangeIsFinal` does not describe these three maps.
- `repr`: `key_repr` and `value_repr` are parameters of `Str`.
- OrderedMaps.OrderedMap.Str: walks the items iterator rather than the `MapIterator` cursors. Those cursors carry only the key and value it reads.
- MapIterator's `get_key`, `get_value` and the `key`/`value` properties are the cursor's fields `key` and `value`.
- Mutation during iteration is modelled only as a size change. Deletions followed by insertions of the same size are not modelled.
- OrderedSet slices with a step other than 1 are not modelled.
- OrderedSet's other `set` operations (`remove`, `pop`, `clear`, the set algebra) are inherited from `set` and do not touch `_order`. They are not modelled.
- MultiValuedMap shares one OrderedSet object per key. The model stores it as a value, so a change made through another reference to the same set is not seen.
- Keyword-argument seeds (`**kwargs` forwarded to UserDict) are not modelled. Keys are generic, not strings. Seeds are a sequence of pairs given in iteration order.
- PredicatedMaps.PredicatedMap.Create: takes the forwarded keyword arguments as a count, since only their names reach UserDict.
- The `initialising` branches of UnmodifiableMap's `popitem`, `__delitem__`, `pop` and `clear` are left out. The constructor reaches only `update`, so those branches never run; the methods require a constructed map.
- UnmodifiableMaps.UnmodifiableMap.IsFull: has no contract beyond its value (`not lateInit`).
- A cursor write from the inherited `map_iterator` writes `self.data` directly (pycommons/collections/maps/iterable.py:25-29). It bypasses every `__setitem__` check: PredicatedMap's predicates, UnmodifiableMap's guard, and FixedSizeMap's and SingletonMap's size check. The model shows it only for UnmodifiableMap, whose keys can be None.
- SizedMaps.FixedSizeMap.Valid: the bound `len <= max_size` holds only for writes through `__setitem__`. On a full FixedSizeMap or SingletonMap, a write through an unstepped cursor adds the key None. After that, `len(self.data) == self._max_size` (pycommons/collections/maps/sized.py:32) is never true again, so every later write succeeds. The model keeps its keys of type K and does not capture this.
- `BoundedMap` is abstract and has no behaviour of its own.
- `pycommons/collections/functions/consumer_predicate.py` is not part of this model.

## Findings

| source | as written | input that shows it | evidently intended | confidence | as-written member | corrected member |
|---|---|---|---|---|---|---|
| pycommons/collections/functions/predicate.py:160-161 | `OrPredicate.test` uses `and` | Or(Passing, Failing) tests false | true when either operand passes | not executed | Predicates.OrAsWritten | Predicates.OrIntendedIsAny |
| pycommons/collections/maps/sized.py:21-22 | `is_full` compares `len` with `max_size - 1` | max_size 3 holding 3 keys: is_full is false, yet every write overflows | `len == max_size` | not executed | SizedMaps.IsFullAsWrittenDisagrees | SizedMaps.IsFullMeansNextWriteFails |
| pycommons/collections/maps/defaulted.py:15-16 | `__getitem__` drops the lookup's value | DefaultedMap("default", {"testKey1": "testValue2"})["testKey1"] gives None | return the stored value or the default | not executed | DefaultedMaps.GetItemAsWrittenLosesValues | DefaultedMaps.DefaultedLookupAfterPut |
| pycommons/collections/sets/ordered.py:25-27 | `discard` removes from `_order` but not from the set | OrderedSet([1]): discard(1), add(1) leaves 1 a member missing from iteration; a second discard raises ValueError | remove from both | not executed | OrderedSets.DiscardThenAdd | OrderedSets.DiscardIntendedThenAdd |
| pycommons/collections/maps/unmodifiable.py:21 | UnmodifiableMap inherits the writable `__iter__`/`map_iterator` | UnmodifiableMap({1: 2}): `m[None] = 3` raises TypeError, yet `m.map_iterator().value = 3` stores 3 under None | iteration gives read-only cursors | not executed | UnmodifiableMaps.WriteThroughInheritedIterator | UnmodifiableMaps.WriteThroughItemsIterator |
