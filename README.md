# ParallelFlowable, modelled in Dafny

`ParallelFlowable` is the facade of RxJava2Extensions' parallel flows. A
parallel flow splits a Reactive-Streams source into N "rails", runs
operators on each rail independently, and joins the rails back into one
sequential `Flowable`. This project models the facade class itself:

- **Validation** (`validation.dfy`): `validate(subscribers)`, the gate every
  operator runs before subscribing. It is modelled as an imperative method
  over an array of `Subscriber` objects that record the signals they
  receive. On a length mismatch, every entry of the array is subscribed to
  the empty subscription and then gets an `IllegalArgumentException`, once
  per occurrence, and the result is `false`. Otherwise nobody is touched and the result is `true`.
- **Assembly** (`assembly.dfy`): every static factory and operator method
  is a pure function from its arguments to either the operator object it
  builds (a `Rails` or `Joined` value naming the operator class and its
  constructor arguments) or the exception it throws (`Failure`). The
  functions keep the order of the guards and the exact messages. Each
  overload that fills in defaults is defined through the overload it
  delegates to. Defaults that come from the runtime
  (`availableProcessors()`, `Flowable.bufferSize()`) are parameters.
- **Java `int`** (`java_int.dfy`): `capacityHint / parallelism() + 1` uses
  Java's truncating division and wrap-around addition. For hint
  `Integer.MAX_VALUE` on one rail, the capacity wraps to `Integer.MIN_VALUE`.
- **The meaning of `reduce`, `sorted` and `toSortedList`** (`rails.dfy`,
  `sorting.dfy`, `pipeline.dfy`): a finite parallel flow is denoted by the
  sequence of its rails' values, `seq<seq<T>>`. The pipelines are composed
  the way the source composes them:
  - `reduce(createArrayList, ListAdd)` collects each rail into a list;
  - `map(SorterFunction)` sorts each list;
  - `sorted` then merges the sorted lists k ways (`ParallelSortedJoin`);
  - `toSortedList` instead reduces them across rails with a two-list merge
    (`reduce(MergerBiFunction)`).

  The comparator is a function `le: (T, T) -> bool` assumed to be a total
  preorder, as a `Comparator` must be. The order in which the rails finish
  is an input of `toSortedList`. The model proves that both pipelines emit
  their input in sorted order, as a permutation of it, whatever that order.
  Under a total order, both emit the same sequence.
- **Denotation** (`denote.dfy`): reads the operator terms that
  `reduce(reducer)`, `sorted` and `toSortedList` build back as the
  pipelines above, so the lemmas about the
  pipelines are lemmas about what those methods return.

## Model

| member | source | states |
|---|---|---|
| Validation.Validate | src/main/java/hu/akarnokd/rxjava2/parallel/ParallelFlowable.java:68-77 | Returns true exactly when the array's length equals the flow's parallelism. On success no subscriber's signals change. On a mismatch, each subscriber receives the empty subscription and then the `IllegalArgument(ParallelismMismatch(p, length))` error, once per occurrence in the array. |
| Validation.ErrorAll | src/main/java/hu/akarnokd/rxjava2/parallel/ParallelFlowable.java:71-73 | The loop over the array: each entry's signal list grows by exactly as many copies of (subscription, error) as the entry occurs in the array. Proved by a loop invariant over the multiset of the visited prefix. |
| Validation.EmptyError | src/main/java/hu/akarnokd/rxjava2/parallel/ParallelFlowable.java:72 | `EmptySubscription.error` appends the subscription signal and then the error signal, and nothing else. |
| Validation.Subscriber.OnSubscribe | src/main/java/hu/akarnokd/rxjava2/parallel/ParallelFlowable.java:72 | Delivering the subscription appends exactly that signal to the subscriber's received signals. |
| Validation.Subscriber.OnError | src/main/java/hu/akarnokd/rxjava2/parallel/ParallelFlowable.java:72 | Delivering an error appends exactly that error signal to the subscriber's received signals. |
| Validation.OneErrorPerDistinctSubscriber | src/main/java/hu/akarnokd/rxjava2/parallel/ParallelFlowable.java:70-74 | When the array holds distinct subscribers, each receives exactly one subscription signal followed by one error. |
| Validation.MismatchExample | src/main/java/hu/akarnokd/rxjava2/parallel/ParallelFlowable.java:68-77 | One fresh subscriber offered to a flow of two publishers: `validate` returns false, and the subscriber has received the subscription and then the error naming parallelism 2 and 1 subscriber. |
| Assembly.AssembledHasRails | src/main/java/hu/akarnokd/rxjava2/parallel/ParallelFlowable.java:112-124 | Every flow built from the guarded factories and operators has a positive number of rails. |
| Assembly.From | src/main/java/hu/akarnokd/rxjava2/parallel/ParallelFlowable.java:112-124 | Succeeds iff parallelism > 0, prefetch > 0 and the source is non-null. A bad parallelism is reported before a bad prefetch, and both before a null source, which fails with the message "queueSupplier". On success the flow has exactly `parallelism` rails. |
| Assembly.FromWithParallelism | src/main/java/hu/akarnokd/rxjava2/parallel/ParallelFlowable.java:97-99 | Behaves as `From` with prefetch set to the buffer size. |
| Assembly.FromSource | src/main/java/hu/akarnokd/rxjava2/parallel/ParallelFlowable.java:86-88 | Behaves as `From` with one rail per available processor and the buffer-size prefetch. |
| Assembly.FromArray | src/main/java/hu/akarnokd/rxjava2/parallel/ParallelFlowable.java:496-501 | Fails with "zero publishers" iff the array is empty. Otherwise there is one rail per publisher. |
| Assembly.RunOn | src/main/java/hu/akarnokd/rxjava2/parallel/ParallelFlowable.java:195-201 | Succeeds iff prefetch > 0 and the scheduler is non-null, with prefetch checked first. Keeps the number of rails. |
| Assembly.RunOnScheduler | src/main/java/hu/akarnokd/rxjava2/parallel/ParallelFlowable.java:170-172 | Behaves as `RunOn` with the buffer-size prefetch. |
| Assembly.Map | src/main/java/hu/akarnokd/rxjava2/parallel/ParallelFlowable.java:134-137 | Fails with `NullPointer("mapper")` iff the mapper is null. Keeps the number of rails. |
| Assembly.Filter | src/main/java/hu/akarnokd/rxjava2/parallel/ParallelFlowable.java:146-149 | Fails with `NullPointer("predicate")` iff the predicate is null. Keeps the number of rails. |
| Assembly.ReduceWith | src/main/java/hu/akarnokd/rxjava2/parallel/ParallelFlowable.java:227-231 | Fails iff the supplier or the reducer is null, the supplier being checked first. Keeps the number of rails. |
| Assembly.FlatMap | src/main/java/hu/akarnokd/rxjava2/parallel/ParallelFlowable.java:589-593 | Never fails at assembly time. Keeps the number of rails. |
| Assembly.FlatMapDefault | src/main/java/hu/akarnokd/rxjava2/parallel/ParallelFlowable.java:541-543 | Errors are not delayed, concurrency is `Integer.MAX_VALUE`, and the prefetch is the buffer size. |
| Assembly.FlatMapDelayError | src/main/java/hu/akarnokd/rxjava2/parallel/ParallelFlowable.java:555-558 | The given `delayError`, with unbounded concurrency and the buffer-size prefetch. |
| Assembly.FlatMapBounded | src/main/java/hu/akarnokd/rxjava2/parallel/ParallelFlowable.java:572-575 | The given `delayError` and `maxConcurrency`, with the buffer-size prefetch. |
| Assembly.ConcatMap | src/main/java/hu/akarnokd/rxjava2/parallel/ParallelFlowable.java:652-656 | Never fails at assembly time. Keeps the number of rails. |
| Assembly.ConcatMapDefault | src/main/java/hu/akarnokd/rxjava2/parallel/ParallelFlowable.java:604-607 | Prefetch 2 and immediate error mode. |
| Assembly.ConcatMapPrefetch | src/main/java/hu/akarnokd/rxjava2/parallel/ParallelFlowable.java:619-623 | The given prefetch and immediate error mode. |
| Assembly.ConcatMapErrorMode | src/main/java/hu/akarnokd/rxjava2/parallel/ParallelFlowable.java:635-639 | Prefetch 2 and the given error mode. |
| Assembly.Sequential | src/main/java/hu/akarnokd/rxjava2/parallel/ParallelFlowable.java:254-259 | Fails iff prefetch <= 0. Otherwise it builds the join of these rails with that prefetch. |
| Assembly.SequentialDefault | src/main/java/hu/akarnokd/rxjava2/parallel/ParallelFlowable.java:242-244 | Behaves as `Sequential` with the buffer-size prefetch. |
| Assembly.Reduce | src/main/java/hu/akarnokd/rxjava2/parallel/ParallelFlowable.java:211-214 | Fails with `NullPointer("reducer")` iff the reducer is null. Otherwise it builds the full reduction of these rails. |
| Assembly.Sorted | src/main/java/hu/akarnokd/rxjava2/parallel/ParallelFlowable.java:284-290 | Fails, by division by zero, iff the flow reports zero rails. Otherwise it builds: collect each rail into a list of capacity `hint / parallelism + 1`, sort each list, then join sorted with the same comparator. Neither the comparator nor the hint is checked. |
| Assembly.SortedDefault | src/main/java/hu/akarnokd/rxjava2/parallel/ParallelFlowable.java:270-272 | Behaves as `Sorted` with capacity hint 16. |
| Assembly.ToSortedList | src/main/java/hu/akarnokd/rxjava2/parallel/ParallelFlowable.java:312-320 | Same guard and same per-rail pipeline as `Sorted`, ending in a full reduction by the merging function. |
| Assembly.ToSortedListDefault | src/main/java/hu/akarnokd/rxjava2/parallel/ParallelFlowable.java:300-302 | Behaves as `ToSortedList` with capacity hint 16. |
| Assembly.DefaultSortAssembles | src/main/java/hu/akarnokd/rxjava2/parallel/ParallelFlowable.java:270-272 | On any flow built by the guarded factories, both default-hint overloads assemble. Each rail's list capacity is `16 / parallelism + 1`, which is at least 1. |
| Assembly.RailCapacityPositive | src/main/java/hu/akarnokd/rxjava2/parallel/ParallelFlowable.java:285 | For N > 0 rails, the Java-`int` capacity is positive iff hint > -N, except hint `Integer.MAX_VALUE` with one rail. |
| Assembly.RailCapacityNonNegative | src/main/java/hu/akarnokd/rxjava2/parallel/ParallelFlowable.java:285 | For N > 0 rails, the Java-`int` capacity is a legal `ArrayList` capacity (zero or more) iff hint > -2N, except hint `Integer.MAX_VALUE` with one rail. |
| Assembly.RailCapacityCoversHint | src/main/java/hu/akarnokd/rxjava2/parallel/ParallelFlowable.java:313 | For a non-negative hint that does not overflow, the capacity is `hint / N + 1`, and N lists of that capacity together exceed the hint. |
| Assembly.RailCapacityOverflows | src/main/java/hu/akarnokd/rxjava2/parallel/ParallelFlowable.java:285 | Hint `Integer.MAX_VALUE` on one rail yields capacity `Integer.MIN_VALUE`. |
| JavaInt.Quot | src/main/java/hu/akarnokd/rxjava2/parallel/ParallelFlowable.java:285 | Java `int` division: the quotient rounded toward zero for a positive divisor, and `MIN_VALUE / -1` equals `MIN_VALUE`. |
| JavaInt.Add | src/main/java/hu/akarnokd/rxjava2/parallel/ParallelFlowable.java:285 | Java `int` addition: the exact sum when it fits, the sum minus 2^32 when it exceeds `Integer.MAX_VALUE`, and the sum plus 2^32 when it is below `Integer.MIN_VALUE`. |
| Rails.RailReduce | src/main/java/hu/akarnokd/rxjava2/parallel/ParallelFlowable.java:227-231 | Keeps the number of rails. Rail i then carries exactly one value: rail i's values folded from the initial value by the reducer. |
| Rails.RailMap | src/main/java/hu/akarnokd/rxjava2/parallel/ParallelFlowable.java:134-137 | Keeps the number of rails and the length of each rail. Value j of rail i becomes the mapper applied to value j of rail i. |
| Rails.CollectKeepsRail | src/main/java/hu/akarnokd/rxjava2/parallel/ParallelFlowable.java:286 | Collecting a rail with `ListAdd`, starting from an empty list, yields the rail's values in arrival order. |
| Rails.FullReduceEmpty | src/main/java/hu/akarnokd/rxjava2/parallel/ParallelFlowable.java:203-214 | The full reduction emits nothing iff every rail is empty. |
| Rails.FullReduceIsFold | src/main/java/hu/akarnokd/rxjava2/parallel/ParallelFlowable.java:203-214 | For an associative reducer, reducing within and then across rails, with the rails taken in the given order, equals one fold over all the values in that order. |
| Rails.FullReduceAnyOrder | src/main/java/hu/akarnokd/rxjava2/parallel/ParallelFlowable.java:203-214 | For an associative and commutative reducer, the full reduction gives the same value whatever order the rails finish in: the fold of all values in rail order. |
| Rails.ArrivalOrderMatters | src/main/java/hu/akarnokd/rxjava2/parallel/ParallelFlowable.java:203-214 | With list concatenation, which is associative but not commutative, two finishing orders of the same two rails give different results. |
| Rails.FlattenPermutation | src/main/java/hu/akarnokd/rxjava2/parallel/ParallelFlowable.java:203-214 | Rearranging the rails rearranges their values: the multiset of all values is unchanged. |
| Rails.RailFoldPermutation | src/main/java/hu/akarnokd/rxjava2/parallel/ParallelFlowable.java:203-214 | For an associative and commutative reducer, folding a rearrangement of values gives the same result. |
| Sorting.SortCorrect | src/main/java/hu/akarnokd/rxjava2/parallel/ParallelFlowable.java:287 | Sorting a rail's list yields a list that is sorted by the comparator and is a permutation of the input. |
| Sorting.MergePermutes | src/main/java/hu/akarnokd/rxjava2/parallel/ParallelFlowable.java:317 | Merging two lists keeps exactly their combined elements. |
| Sorting.MergeSorted | src/main/java/hu/akarnokd/rxjava2/parallel/ParallelFlowable.java:317 | Merging two sorted lists yields a sorted list. |
| Sorting.MinHead | src/main/java/hu/akarnokd/rxjava2/parallel/ParallelFlowable.java:261-263 | Picks a rail with the smallest head, the first such rail, and -1 iff every rail is exhausted. |
| Sorting.KMergeCorrect | src/main/java/hu/akarnokd/rxjava2/parallel/ParallelFlowable.java:284-289 | Repeatedly taking the smallest head from sorted rails emits a sorted permutation of all their values. |
| SortedPipeline.SortedRailsContent | src/main/java/hu/akarnokd/rxjava2/parallel/ParallelFlowable.java:286-287 | After collecting and sorting, rail i carries exactly one list: rail i's values, sorted. |
| SortedPipeline.SortedOutputCorrect | src/main/java/hu/akarnokd/rxjava2/parallel/ParallelFlowable.java:274-290 | `sorted` emits every value of every rail, as often as it occurs, in non-decreasing order. |
| SortedPipeline.MergeReduceCorrect | src/main/java/hu/akarnokd/rxjava2/parallel/ParallelFlowable.java:317 | Reducing one-list rails by pairwise merging yields a value iff there is a rail. That value is sorted and holds all the lists' elements. |
| SortedPipeline.ArrivedSorted | src/main/java/hu/akarnokd/rxjava2/parallel/ParallelFlowable.java:312-317 | Whatever order the sorted rails finish in, there is one per input rail and each carries one sorted list. |
| SortedPipeline.ArrivedValues | src/main/java/hu/akarnokd/rxjava2/parallel/ParallelFlowable.java:312-317 | Whatever order the sorted rails finish in, their lists together hold exactly the input values. |
| SortedPipeline.SortedListOutputCorrect | src/main/java/hu/akarnokd/rxjava2/parallel/ParallelFlowable.java:304-320 | On N >= 1 rails, whatever order they finish in, `toSortedList` emits exactly one list, even when all rails are empty. The list is sorted and is a permutation of all the values. |
| SortedPipeline.SortedListMatchesSorted | src/main/java/hu/akarnokd/rxjava2/parallel/ParallelFlowable.java:284-320 | Under a total order, whatever order the rails finish in, `toSortedList` emits as one list exactly the sequence `sorted` emits. |
| SortedPipeline.SortedExample | src/main/java/hu/akarnokd/rxjava2/parallel/ParallelFlowable.java:284-320 | Rails [5,3,8], [1,9], [2] sort to [1,2,3,5,8,9] under `sorted`, and under `toSortedList` whatever order the rails finish in. |
| Ordering.SortedUnique | src/main/java/hu/akarnokd/rxjava2/parallel/ParallelFlowable.java:284-320 | Under a total order, a multiset has only one sorted arrangement. |
| Denotation.SortedDenotes | src/main/java/hu/akarnokd/rxjava2/parallel/ParallelFlowable.java:284-290 | When the capacity is legal, the join that `sorted` returns emits `SortedOutput` of the rails' values, which is sorted and a permutation of them. |
| Denotation.SortedSupplierThrows | src/main/java/hu/akarnokd/rxjava2/parallel/ParallelFlowable.java:285-286 | When the capacity is negative, the list supplier of `sorted` throws and the join emits nothing. |
| Denotation.ToSortedListDenotes | src/main/java/hu/akarnokd/rxjava2/parallel/ParallelFlowable.java:312-320 | Every run of the reduction that `toSortedList` returns, whatever order the rails finish in, emits one list that is sorted and a permutation of the rails' values. |
| Denotation.ToSortedListInRailOrder | src/main/java/hu/akarnokd/rxjava2/parallel/ParallelFlowable.java:312-320 | When the capacity is legal, the rails finishing in rail order is a possible run of the reduction that `toSortedList` returns. |
| Denotation.ToSortedListMatchesSorted | src/main/java/hu/akarnokd/rxjava2/parallel/ParallelFlowable.java:284-320 | Under a total order, every run of the reduction that `toSortedList` returns emits, as one list, what `sorted` emits. |
| Denotation.ReduceInRailOrder | src/main/java/hu/akarnokd/rxjava2/parallel/ParallelFlowable.java:211-214 | The rails finishing in rail order is a possible run of the reduction that `reduce(reducer)` returns, emitting the full reduction of the rails in rail order. |
| Denotation.ReduceEmitsNothing | src/main/java/hu/akarnokd/rxjava2/parallel/ParallelFlowable.java:203-214 | Every run of the reduction that `reduce(reducer)` returns emits nothing exactly when every rail is empty. |
| Denotation.ReduceDenotes | src/main/java/hu/akarnokd/rxjava2/parallel/ParallelFlowable.java:203-214 | For an associative and commutative reducer, every run of the reduction that `reduce(reducer)` returns, whatever order the rails finish in, emits the fold of all the rails' values in rail order. |

## Left out

- The operator implementations (`ParallelFromPublisher`, `ParallelRunOn`, `ParallelJoin`, `ParallelSortedJoin`, `ParallelReduceFull` and the others) are not part of this model. Their concurrency, request accounting and trampolining are represented only by the operator each method builds. `reduce`, `sorted` and `toSortedList` are instead given a denotational meaning over finite rails.
- How values are spread over the rails (round-robin from a source, one per publisher for `fromArray`) is not modelled. The rails' contents are an input.
- `Runtime.availableProcessors()` and `Flowable.bufferSize()` are parameters, because they are read from the runtime.
- `RxJavaPlugins.onAssembly` is the identity here. Plugin hooks are global mutable state outside the class.
- `collect` and the `doOn*` / `doAfter*` peek operators are not modelled. They check none of their callbacks and only build a `ParallelCollect` or `ParallelPeek`, which are not part of this model.
- `to` and `compose` are not modelled. `to` calls the converter and rethrows a non-fatal exception wrapped by `ExceptionHelper.wrapOrThrow`, which is not part of this model. `compose` returns whatever flow the composer returns, so it may change the number of rails.
- `EmptySubscription` is not part of this model. Validation.EmptyError takes its `error` to call `onSubscribe` with the empty subscription and then `onError`.
- Assembly.FromArray: a null publisher array, which throws `NullPointerException` when its length is read, is not modelled; `JavaArray` values are non-null.
- Validation.Validate: a null subscriber array, which throws `NullPointerException` when its length is read, and a null entry in it, which throws inside the loop, are not modelled; the array and its entries are non-null objects.
- Validation.Validate: that nothing is subscribed after a mismatch is a promise of each subclass's `subscribe`, which is not part of this model.
- SortedPipeline.SortedListOutput: `ParallelReduceFull` combines the rails' results in the order they finish, which depends on thread timing. That order is an input (`arrived`, a rearrangement of the rails), and the results are combined as a left fold in that order. How `ParallelReduceFull` pairs partial results is not part of this model; the left fold is one such pairing. A different finishing order can give a different list when the comparator has ties: concatenation is the merge under the preorder in which everything ties, and Rails.ArrivalOrderMatters shows two orders giving two lists. Under a total order it cannot (SortedPipeline.SortedListMatchesSorted).
- Assembly.Sorted: a negative list capacity makes `new ArrayList(capacity)` throw when a rail starts, not at assembly time. Assembly.RailCapacityNonNegative states exactly when that happens, and the denotation then emits nothing (Denotation.SortedSupplierThrows); the exception itself is not modelled.
- Assembly.Sorted: a null comparator is not rejected at assembly and is passed through unchanged. The sorter's `Collections.sort` then uses natural ordering; a failure, if any, comes from a `compare` call in the sort, the join or the merge. The model gives every comparator, null included, a meaning `le`, and a failing `compare` is not modelled.
- `SorterFunction`, `MergerBiFunction`, `ListAddBiConsumer` and `ParallelSortedJoin` are not part of this model. They are represented by an insertion sort, a stable two-list merge, list append and a k-way merge that takes the first smallest head. Only their specification, sorted and a permutation, is relied on.
- The comparator's consistency (a total preorder) is an assumption of the lemmas, as Java's `Comparator` contract requires of callers.
