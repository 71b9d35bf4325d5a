/** Assembly of parallel flows: what each factory and operator method of
    `ParallelFlowable` checks, and which operator object it builds from which
    arguments. Exceptions thrown at assembly time become `Failure` values; the
    built operator is a `Rails` value (a `ParallelFlowable`) or a `Joined`
    value (a sequential `Flowable` fed by the rails). */
module Assembly {
  import opened Wrappers
  import opened JavaInt

  /** Handles for objects the facade only passes on. */
  datatype PublisherRef = PublisherRef(id: nat)
  datatype SchedulerRef = SchedulerRef(id: nat)

  /** A callback given to an operator: one the caller supplies (mapper,
      reducer, comparator, supplier), or a helper that `sorted` and
      `toSortedList` build around the caller's comparator. */
  datatype Callback =
    | User(id: nat)
    | CreateArrayList(capacity: int32)      // supplies a new list of that initial capacity
    | ListAdd                               // adds a value to the rail's list
    | Sorter(comparator: Option<Callback>)  // sorts one rail's list
    | Merger(comparator: Option<Callback>)  // merges two sorted lists

  datatype ErrorMode = Immediate | Boundary | End

  /** Why an `IllegalArgumentException` was raised. */
  datatype Cause =
    | ParallelismNotPositive(parallelism: int32)
    | PrefetchNotPositive(prefetch: int32)
    | ZeroPublishers
    | ParallelismMismatch(parallelism: int32, subscribers: int)

  datatype Exception =
    | IllegalArgument(cause: Cause)
    | NullPointer(name: string)  // a required reference was null; `name` is the message
    | Arithmetic                 // integer division by zero

  /** A `ParallelFlowable`: the operator built and its arguments. */
  datatype Rails =
    | ParallelFromPublisher(source: PublisherRef, parallelism: int32, prefetch: int32)
    | ParallelFromArray(publishers: JavaArray<Option<PublisherRef>>)
    | ParallelRunOn(upstream: Rails, scheduler: SchedulerRef, prefetch: int32)
    | ParallelMap(upstream: Rails, mapper: Callback)
    | ParallelFilter(upstream: Rails, condition: Callback)
    | ParallelReduce(upstream: Rails, initialSupplier: Callback, reducer: Callback)
    | ParallelFlatMap(upstream: Rails, innerMapper: Option<Callback>, delayError: bool,
                      maxConcurrency: int32, prefetch: int32)
    | ParallelConcatMap(upstream: Rails, innerMapper: Option<Callback>, prefetch: int32,
                        errorMode: ErrorMode)
    | Subclass(declaredParallelism: int32)  // any other subclass: it reports its own parallelism

  /** A sequential `Flowable` that joins the rails back into one stream. */
  datatype Joined =
    | ParallelJoin(rails: Rails, prefetch: int32)
    | ParallelSortedJoin(rails: Rails, comparator: Option<Callback>)
    | ParallelReduceFull(rails: Rails, reducer: Callback)

  /** `parallelism()`: the number of rails. A source fixes it; every
      rail-preserving operator keeps its upstream's. */
  function Parallelism(r: Rails): int32 {
    match r
    case ParallelFromPublisher(_, parallelism, _) => parallelism
    case ParallelFromArray(publishers) => |publishers| as int32
    case ParallelRunOn(upstream, _, _) => Parallelism(upstream)
    case ParallelMap(upstream, _) => Parallelism(upstream)
    case ParallelFilter(upstream, _) => Parallelism(upstream)
    case ParallelReduce(upstream, _, _) => Parallelism(upstream)
    case ParallelFlatMap(upstream, _, _, _, _) => Parallelism(upstream)
    case ParallelConcatMap(upstream, _, _, _) => Parallelism(upstream)
    case Subclass(declaredParallelism) => declaredParallelism
  }

  /** Flows built by the factories and operators of this class alone, each
      with arguments that passed its guards. */
  ghost predicate Assembled(r: Rails) {
    match r
    case ParallelFromPublisher(_, parallelism, prefetch) => parallelism > 0 && prefetch > 0
    case ParallelFromArray(publishers) => |publishers| > 0
    case ParallelRunOn(upstream, _, prefetch) => prefetch > 0 && Assembled(upstream)
    case ParallelMap(upstream, _) => Assembled(upstream)
    case ParallelFilter(upstream, _) => Assembled(upstream)
    case ParallelReduce(upstream, _, _) => Assembled(upstream)
    case ParallelFlatMap(upstream, _, _, _, _) => Assembled(upstream)
    case ParallelConcatMap(upstream, _, _, _) => Assembled(upstream)
    case Subclass(_) => false
  }

  /** The guards make a flow with no rails, or a negative number of them,
      impossible to assemble. */
  lemma {:induction false} AssembledHasRails(r: Rails)
    requires Assembled(r)
    ensures Parallelism(r) > 0
  {
    match r
    case ParallelFromPublisher(_, _, _) =>
    case ParallelFromArray(_) =>
    case ParallelRunOn(upstream, _, _) => AssembledHasRails(upstream);
    case ParallelMap(upstream, _) => AssembledHasRails(upstream);
    case ParallelFilter(upstream, _) => AssembledHasRails(upstream);
    case ParallelReduce(upstream, _, _) => AssembledHasRails(upstream);
    case ParallelFlatMap(upstream, _, _, _, _) => AssembledHasRails(upstream);
    case ParallelConcatMap(upstream, _, _, _) => AssembledHasRails(upstream);
  }

  // ---------------------------------------------------------------- sources

  /** `from(source, parallelism, prefetch)`. */
  function From(source: Option<PublisherRef>, parallelism: int32, prefetch: int32): (r: Result<Rails, Exception>)
    ensures r.Success? <==> parallelism > 0 && prefetch > 0 && source.Some?
    ensures parallelism <= 0 ==> r == Failure(IllegalArgument(ParallelismNotPositive(parallelism)))
    ensures parallelism > 0 && prefetch <= 0 ==> r == Failure(IllegalArgument(PrefetchNotPositive(prefetch)))
    ensures parallelism > 0 && prefetch > 0 && source.None? ==> r == Failure(NullPointer("queueSupplier"))
    ensures r.Success? ==> Assembled(r.value) && Parallelism(r.value) == parallelism
  {
    if parallelism <= 0 then Failure(IllegalArgument(ParallelismNotPositive(parallelism)))
    else if prefetch <= 0 then Failure(IllegalArgument(PrefetchNotPositive(prefetch)))
    else if source.None? then Failure(NullPointer("queueSupplier"))
    else Success(ParallelFromPublisher(source.value, parallelism, prefetch))
  }

  /** `from(source, parallelism)`: prefetch is the library's buffer size. */
  function FromWithParallelism(source: Option<PublisherRef>, parallelism: int32, bufferSize: int32): (r: Result<Rails, Exception>)
    ensures r == From(source, parallelism, bufferSize)
  {
    From(source, parallelism, bufferSize)
  }

  /** `from(source)`: one rail per available processor, prefetch the
      library's buffer size. */
  function FromSource(source: Option<PublisherRef>, availableProcessors: int32, bufferSize: int32): (r: Result<Rails, Exception>)
    ensures r == From(source, availableProcessors, bufferSize)
  {
    From(source, availableProcessors, bufferSize)
  }

  /** `fromArray(publishers...)`: one rail per publisher; the elements are not
      checked for null. */
  function FromArray(publishers: JavaArray<Option<PublisherRef>>): (r: Result<Rails, Exception>)
    ensures r.Failure? <==> |publishers| == 0
    ensures r.Failure? ==> r.error == IllegalArgument(ZeroPublishers)
    ensures r.Success? ==> Assembled(r.value) && Parallelism(r.value) as int == |publishers|
  {
    if |publishers| == 0 then Failure(IllegalArgument(ZeroPublishers))
    else Success(ParallelFromArray(publishers))
  }

  // ------------------------------------------------- rail-preserving operators

  /** `runOn(scheduler, prefetch)`: prefetch is checked before the scheduler. */
  function RunOn(upstream: Rails, scheduler: Option<SchedulerRef>, prefetch: int32): (r: Result<Rails, Exception>)
    ensures r.Success? <==> prefetch > 0 && scheduler.Some?
    ensures prefetch <= 0 ==> r == Failure(IllegalArgument(PrefetchNotPositive(prefetch)))
    ensures prefetch > 0 && scheduler.None? ==> r == Failure(NullPointer("scheduler"))
    ensures r.Success? ==> Parallelism(r.value) == Parallelism(upstream)
    ensures r.Success? && Assembled(upstream) ==> Assembled(r.value)
  {
    if prefetch <= 0 then Failure(IllegalArgument(PrefetchNotPositive(prefetch)))
    else if scheduler.None? then Failure(NullPointer("scheduler"))
    else Success(ParallelRunOn(upstream, scheduler.value, prefetch))
  }

  /** `runOn(scheduler)`: prefetch is the library's buffer size. */
  function RunOnScheduler(upstream: Rails, scheduler: Option<SchedulerRef>, bufferSize: int32): (r: Result<Rails, Exception>)
    ensures r == RunOn(upstream, scheduler, bufferSize)
  {
    RunOn(upstream, scheduler, bufferSize)
  }

  /** `map(mapper)`. */
  function Map(upstream: Rails, mapper: Option<Callback>): (r: Result<Rails, Exception>)
    ensures r.Success? <==> mapper.Some?
    ensures r.Failure? ==> r.error == NullPointer("mapper")
    ensures r.Success? ==> Parallelism(r.value) == Parallelism(upstream)
    ensures r.Success? && Assembled(upstream) ==> Assembled(r.value)
  {
    if mapper.None? then Failure(NullPointer("mapper"))
    else Success(ParallelMap(upstream, mapper.value))
  }

  /** `filter(predicate)`; the Java parameter is named `predicate`. */
  function Filter(upstream: Rails, condition: Option<Callback>): (r: Result<Rails, Exception>)
    ensures r.Success? <==> condition.Some?
    ensures r.Failure? ==> r.error == NullPointer("predicate")
    ensures r.Success? ==> Parallelism(r.value) == Parallelism(upstream)
    ensures r.Success? && Assembled(upstream) ==> Assembled(r.value)
  {
    if condition.None? then Failure(NullPointer("predicate"))
    else Success(ParallelFilter(upstream, condition.value))
  }

  /** `reduce(initialSupplier, reducer)`: the supplier is checked first. */
  function ReduceWith(upstream: Rails, initialSupplier: Option<Callback>, reducer: Option<Callback>): (r: Result<Rails, Exception>)
    ensures r.Success? <==> initialSupplier.Some? && reducer.Some?
    ensures initialSupplier.None? ==> r == Failure(NullPointer("initialSupplier"))
    ensures initialSupplier.Some? && reducer.None? ==> r == Failure(NullPointer("reducer"))
    ensures r.Success? ==> Parallelism(r.value) == Parallelism(upstream)
    ensures r.Success? && Assembled(upstream) ==> Assembled(r.value)
  {
    if initialSupplier.None? then Failure(NullPointer("initialSupplier"))
    else if reducer.None? then Failure(NullPointer("reducer"))
    else Success(ParallelReduce(upstream, initialSupplier.value, reducer.value))
  }

  /** `flatMap(mapper, delayError, maxConcurrency, prefetch)`: nothing is
      checked at assembly time. */
  function FlatMap(upstream: Rails, mapper: Option<Callback>, delayError: bool,
                   maxConcurrency: int32, prefetch: int32): (r: Rails)
    ensures Parallelism(r) == Parallelism(upstream)
    ensures Assembled(upstream) ==> Assembled(r)
  {
    ParallelFlatMap(upstream, mapper, delayError, maxConcurrency, prefetch)
  }

  /** `flatMap(mapper)`: errors are not delayed and concurrency is unbounded. */
  function FlatMapDefault(upstream: Rails, mapper: Option<Callback>, bufferSize: int32): (r: Rails)
    ensures r.ParallelFlatMap? && r.upstream == upstream && r.innerMapper == mapper
    ensures !r.delayError && r.maxConcurrency as int == INT_MAX && r.prefetch == bufferSize
  {
    FlatMap(upstream, mapper, false, INT_MAX as int32, bufferSize)
  }

  /** `flatMap(mapper, delayError)`: concurrency is unbounded. */
  function FlatMapDelayError(upstream: Rails, mapper: Option<Callback>, delayError: bool, bufferSize: int32): (r: Rails)
    ensures r.ParallelFlatMap? && r.upstream == upstream && r.innerMapper == mapper
    ensures r.delayError == delayError && r.maxConcurrency as int == INT_MAX && r.prefetch == bufferSize
  {
    FlatMap(upstream, mapper, delayError, INT_MAX as int32, bufferSize)
  }

  /** `flatMap(mapper, delayError, maxConcurrency)`. */
  function FlatMapBounded(upstream: Rails, mapper: Option<Callback>, delayError: bool,
                          maxConcurrency: int32, bufferSize: int32): (r: Rails)
    ensures r.ParallelFlatMap? && r.upstream == upstream && r.innerMapper == mapper
    ensures r.delayError == delayError && r.maxConcurrency == maxConcurrency && r.prefetch == bufferSize
  {
    FlatMap(upstream, mapper, delayError, maxConcurrency, bufferSize)
  }

  /** How many inner publishers `concatMap` generates ahead by default. */
  const DEFAULT_CONCAT_PREFETCH: int32 := 2

  /** `concatMap(mapper, prefetch, errorMode)`: nothing is checked at
      assembly time. */
  function ConcatMap(upstream: Rails, mapper: Option<Callback>, prefetch: int32, errorMode: ErrorMode): (r: Rails)
    ensures Parallelism(r) == Parallelism(upstream)
    ensures Assembled(upstream) ==> Assembled(r)
  {
    ParallelConcatMap(upstream, mapper, prefetch, errorMode)
  }

  /** `concatMap(mapper)`: two publishers ahead, errors reported at once. */
  function ConcatMapDefault(upstream: Rails, mapper: Option<Callback>): (r: Rails)
    ensures r.ParallelConcatMap? && r.upstream == upstream && r.innerMapper == mapper
    ensures r.prefetch == 2 && r.errorMode == Immediate
  {
    ConcatMap(upstream, mapper, DEFAULT_CONCAT_PREFETCH, Immediate)
  }

  /** `concatMap(mapper, prefetch)`: errors reported at once. */
  function ConcatMapPrefetch(upstream: Rails, mapper: Option<Callback>, prefetch: int32): (r: Rails)
    ensures r.ParallelConcatMap? && r.upstream == upstream && r.innerMapper == mapper
    ensures r.prefetch == prefetch && r.errorMode == Immediate
  {
    ConcatMap(upstream, mapper, prefetch, Immediate)
  }

  /** `concatMap(mapper, errorMode)`: two publishers ahead. */
  function ConcatMapErrorMode(upstream: Rails, mapper: Option<Callback>, errorMode: ErrorMode): (r: Rails)
    ensures r.ParallelConcatMap? && r.upstream == upstream && r.innerMapper == mapper
    ensures r.prefetch == 2 && r.errorMode == errorMode
  {
    ConcatMap(upstream, mapper, DEFAULT_CONCAT_PREFETCH, errorMode)
  }

  // ------------------------------------------------------- joining the rails

  /** `sequential(prefetch)`. */
  function Sequential(upstream: Rails, prefetch: int32): (r: Result<Joined, Exception>)
    ensures r.Success? <==> prefetch > 0
    ensures r.Failure? ==> r.error == IllegalArgument(PrefetchNotPositive(prefetch))
    ensures r.Success? ==> r.value == ParallelJoin(upstream, prefetch)
  {
    if prefetch <= 0 then Failure(IllegalArgument(PrefetchNotPositive(prefetch)))
    else Success(ParallelJoin(upstream, prefetch))
  }

  /** `sequential()`: prefetch is the library's buffer size. */
  function SequentialDefault(upstream: Rails, bufferSize: int32): (r: Result<Joined, Exception>)
    ensures r == Sequential(upstream, bufferSize)
  {
    Sequential(upstream, bufferSize)
  }

  /** `reduce(reducer)`: reduces within and then across the rails. */
  function Reduce(upstream: Rails, reducer: Option<Callback>): (r: Result<Joined, Exception>)
    ensures r.Success? <==> reducer.Some?
    ensures r.Failure? ==> r.error == NullPointer("reducer")
    ensures r.Success? ==> r.value == ParallelReduceFull(upstream, reducer.value)
  {
    if reducer.None? then Failure(NullPointer("reducer"))
    else Success(ParallelReduceFull(upstream, reducer.value))
  }

  /** The capacity hint `sorted` and `toSortedList` use when none is given. */
  const DEFAULT_CAPACITY_HINT: int32 := 16

  /** Initial capacity of each rail's list: `capacityHint / parallelism + 1`
      in Java `int` arithmetic. */
  function RailCapacity(capacityHint: int32, parallelism: int32): int32
    requires parallelism != 0
  {
    Add(Quot(capacityHint, parallelism), 1)
  }

  /** For a positive parallelism the per-rail capacity is positive exactly
      when the hint exceeds `-parallelism`, except for the hint `INT_MAX` on a
      single rail, where `INT_MAX + 1` wraps to `INT_MIN`. */
  lemma RailCapacityPositive(capacityHint: int32, parallelism: int32)
    requires parallelism > 0
    ensures RailCapacity(capacityHint, parallelism) >= 1
        <==> capacityHint as int > -(parallelism as int)
             && !(capacityHint as int == INT_MAX && parallelism == 1)
  {
    if capacityHint >= 0 {
      CapacityOfNonNegativeHint(capacityHint, parallelism);
    } else {
      CapacityOfNegativeHint(capacityHint, parallelism);
    }
  }

  lemma CapacityOfNonNegativeHint(capacityHint: int32, parallelism: int32)
    requires parallelism > 0 && capacityHint >= 0
    ensures RailCapacity(capacityHint, parallelism) >= 1
        <==> !(capacityHint as int == INT_MAX && parallelism == 1)
  {
    NonNegativeQuotient(capacityHint, parallelism);
    AddOne(Quot(capacityHint, parallelism));
  }

  /** The Java quotient of a non-negative hint is non-negative and reaches
      `INT_MAX` only for `INT_MAX / 1`. */
  lemma NonNegativeQuotient(capacityHint: int32, parallelism: int32)
    requires parallelism > 0 && capacityHint >= 0
    ensures 0 <= Quot(capacityHint, parallelism) as int
    ensures Quot(capacityHint, parallelism) as int == INT_MAX
        <==> capacityHint as int == INT_MAX && parallelism == 1
  {
    var n: nat := capacityHint as int;
    var p: nat := parallelism as int;
    var q := Quot(capacityHint, parallelism);
    QuotientBelowMax(n, p, q as int);
  }

  /** Adding one in Java `int` arithmetic gives a positive result exactly
      when the operand is non-negative and below `INT_MAX`. */
  lemma AddOne(q: int32)
    ensures Add(q, 1) >= 1 <==> 0 <= q as int < INT_MAX
    ensures Add(q, 1) >= 0 <==> -1 <= q as int < INT_MAX
  {
  }

  lemma CapacityOfNegativeHint(capacityHint: int32, parallelism: int32)
    requires parallelism > 0 && capacityHint < 0
    ensures RailCapacity(capacityHint, parallelism) >= 1 <==> capacityHint as int > -(parallelism as int)
  {
    NegativeQuotient(capacityHint, parallelism);
    AddOne(Quot(capacityHint, parallelism));
  }

  /** The Java quotient of a negative hint is at most zero, and zero exactly
      when the hint is above `-parallelism`. */
  lemma NegativeQuotient(capacityHint: int32, parallelism: int32)
    requires parallelism > 0 && capacityHint < 0
    ensures Quot(capacityHint, parallelism) as int <= 0
    ensures Quot(capacityHint, parallelism) as int == 0 <==> capacityHint as int > -(parallelism as int)
  {
    var n: nat := -(capacityHint as int);
    var p: nat := parallelism as int;
    var q := Quot(capacityHint, parallelism);
    SmallQuotient(n, p, -(q as int));
  }

  /** For a positive parallelism the per-rail capacity is a legal
      `ArrayList` capacity (zero or more) exactly when the hint exceeds
      `-2 * parallelism`, except for the hint `INT_MAX` on a single rail. */
  lemma RailCapacityNonNegative(capacityHint: int32, parallelism: int32)
    requires parallelism > 0
    ensures RailCapacity(capacityHint, parallelism) >= 0
        <==> capacityHint as int > -2 * (parallelism as int)
             && !(capacityHint as int == INT_MAX && parallelism == 1)
  {
    var q := Quot(capacityHint, parallelism);
    AddOne(q);
    if capacityHint >= 0 {
      NonNegativeQuotient(capacityHint, parallelism);
    } else {
      QuotientAboveMinusOne(capacityHint, parallelism);
    }
  }

  /** The Java quotient of a negative hint is at least -1 exactly when the
      hint is above `-2 * parallelism`. */
  lemma QuotientAboveMinusOne(capacityHint: int32, parallelism: int32)
    requires parallelism > 0 && capacityHint < 0
    ensures Quot(capacityHint, parallelism) as int >= -1 <==> capacityHint as int > -2 * (parallelism as int)
  {
    var n: nat := -(capacityHint as int);
    var p: nat := parallelism as int;
    var q := Quot(capacityHint, parallelism);
    QuotientAtMostOne(n, p, -(q as int));
  }

  /** A quotient of naturals is at most one exactly when the dividend is
      below twice the divisor. */
  lemma QuotientAtMostOne(n: nat, d: nat, q: int)
    requires d > 0 && q == n / d
    ensures q <= 1 <==> n < 2 * d
  {
    QuotientBound(n, d);
    assert n == q * d + n % d;
    if q >= 2 {
      MulMonotone(d, 2, q);
      assert d * q == q * d;
    } else if q == 1 {
      assert q * d == d;
    } else {
      assert q * d == 0;
    }
  }

  /** A quotient of a non-negative `int` reaches `INT_MAX` only when dividing
      `INT_MAX` by 1. */
  lemma QuotientBelowMax(h: nat, p: nat, q: int)
    requires h <= INT_MAX && p > 0 && q == h / p
    ensures 0 <= q <= INT_MAX
    ensures q == INT_MAX <==> h == INT_MAX && p == 1
  {
    assert q * p <= h;
    MulAtLeast(q, p);
    if p >= 2 {
      MulMonotone(q, 2, p);
      assert q * 2 <= h;
    }
  }

  /** For a hint that does not overflow, the rails' lists together start out
      larger than the hint: each holds more than its even share. */
  lemma RailCapacityCoversHint(capacityHint: int32, parallelism: int32)
    requires parallelism > 0 && capacityHint >= 0
    requires !(capacityHint as int == INT_MAX && parallelism == 1)
    ensures RailCapacity(capacityHint, parallelism) as int == capacityHint as int / parallelism as int + 1
    ensures parallelism as int * RailCapacity(capacityHint, parallelism) as int > capacityHint as int
  {
    var h, p := capacityHint as int, parallelism as int;
    QuotientBelowMax(h, p, h / p);
    var q := h / p;
    assert h == q * p + h % p;
    assert p * (q + 1) == q * p + p;
  }

  lemma {:induction false} MulMonotone(q: nat, a: nat, b: nat)
    requires a <= b
    ensures q * a <= q * b
  {
    if a < b {
      MulMonotone(q, a, b - 1);
      assert q * b == q * (b - 1) + q;
    }
  }

  /** A quotient of naturals is zero exactly when the dividend is below the
      divisor. */
  lemma SmallQuotient(n: nat, d: nat, q: int)
    requires d > 0 && q == n / d
    ensures 0 <= q
    ensures q == 0 <==> n < d
  {
    QuotientBound(n, d);
    assert n == q * d + n % d;
    if q > 0 {
      MulAtLeast(d, q);
      assert d * q == q * d;
    }
  }

  /** `sorted(comparator, capacityHint)`: collect each rail into a list, sort
      each list, then merge the sorted rails. Neither the comparator nor the
      hint is checked; only a flow reporting zero rails fails, dividing by
      zero. */
  function Sorted(upstream: Rails, comparator: Option<Callback>, capacityHint: int32): (r: Result<Joined, Exception>)
    ensures r.Failure? <==> Parallelism(upstream) == 0
    ensures r.Failure? ==> r.error == Arithmetic
    ensures r.Success? ==> r.value == ParallelSortedJoin(
              ParallelMap(ParallelReduce(upstream,
                                         CreateArrayList(RailCapacity(capacityHint, Parallelism(upstream))),
                                         ListAdd),
                          Sorter(comparator)),
              comparator)
    ensures r.Success? ==> Parallelism(r.value.rails) == Parallelism(upstream)
  {
    var p := Parallelism(upstream);
    if p == 0 then Failure(Arithmetic)
    else
      // neither call can fail: both are given non-null callbacks
      var railReduced := ReduceWith(upstream, Some(CreateArrayList(RailCapacity(capacityHint, p))), Some(ListAdd)).value;
      var railSorted := Map(railReduced, Some(Sorter(comparator))).value;
      Success(ParallelSortedJoin(railSorted, comparator))
  }

  /** `sorted(comparator)`: the capacity hint is 16. */
  function SortedDefault(upstream: Rails, comparator: Option<Callback>): (r: Result<Joined, Exception>)
    ensures r == Sorted(upstream, comparator, DEFAULT_CAPACITY_HINT)
  {
    Sorted(upstream, comparator, DEFAULT_CAPACITY_HINT)
  }

  /** `toSortedList(comparator, capacityHint)`: as `sorted`, but the sorted
      rails are reduced across rails by merging pairs of lists. */
  function ToSortedList(upstream: Rails, comparator: Option<Callback>, capacityHint: int32): (r: Result<Joined, Exception>)
    ensures r.Failure? <==> Parallelism(upstream) == 0
    ensures r.Failure? ==> r.error == Arithmetic
    ensures r.Success? ==> r.value == ParallelReduceFull(
              ParallelMap(ParallelReduce(upstream,
                                         CreateArrayList(RailCapacity(capacityHint, Parallelism(upstream))),
                                         ListAdd),
                          Sorter(comparator)),
              Merger(comparator))
  {
    var p := Parallelism(upstream);
    if p == 0 then Failure(Arithmetic)
    else
      // neither call can fail: both are given non-null callbacks
      var railReduced := ReduceWith(upstream, Some(CreateArrayList(RailCapacity(capacityHint, p))), Some(ListAdd)).value;
      var railSorted := Map(railReduced, Some(Sorter(comparator))).value;
      Reduce(railSorted, Some(Merger(comparator)))
  }

  /** `toSortedList(comparator)`: the capacity hint is 16. */
  function ToSortedListDefault(upstream: Rails, comparator: Option<Callback>): (r: Result<Joined, Exception>)
    ensures r == ToSortedList(upstream, comparator, DEFAULT_CAPACITY_HINT)
  {
    ToSortedList(upstream, comparator, DEFAULT_CAPACITY_HINT)
  }

  /** On a flow assembled by this class, `sorted` and `toSortedList` with the
      default hint always assemble, and every rail starts with a list of
      capacity `16 / parallelism + 1`, at least 1. */
  lemma {:induction false} DefaultSortAssembles(upstream: Rails, comparator: Option<Callback>)
    requires Assembled(upstream)
    ensures SortedDefault(upstream, comparator).Success?
    ensures ToSortedListDefault(upstream, comparator).Success?
    ensures RailCapacity(DEFAULT_CAPACITY_HINT, Parallelism(upstream)) as int
            == 16 / Parallelism(upstream) as int + 1 >= 1
  {
    AssembledHasRails(upstream);
    RailCapacityCoversHint(DEFAULT_CAPACITY_HINT, Parallelism(upstream));
  }

  /** A single rail with the largest hint: the capacity wraps to `INT_MIN`. */
  lemma RailCapacityOverflows()
    ensures RailCapacity(INT_MAX as int32, 1) as int == INT_MIN
  {
  }
}
