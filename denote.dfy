/** What the operator terms that `reduce(reducer)`, `sorted` and
    `toSortedList` build emit.
    `input` holds the values each rail of `upstream` carries, and `le` is the
    order the comparator (and so every `Sorter` and `Merger` built around it)
    stands for. */
module Denotation {
  import opened Wrappers
  import opened JavaInt
  import opened Assembly
  import opened Ordering
  import R = Rails
  import S = Sorting
  import P = SortedPipeline

  /** The rails of lists a term on top of `upstream` carries: `reduce` with
      a list supplier and `ListAdd` collects each rail into one list, and
      `map` with a `Sorter` sorts each list. `None` when the term is not
      built from these, or when the supplier's capacity is negative, so that
      `new ArrayList(capacity)` throws. */
  function ListRails<T>(r: Rails, upstream: Rails, input: seq<seq<T>>, le: (T, T) -> bool): Option<seq<seq<seq<T>>>>
    decreases r
  {
    match r
    case ParallelReduce(u, supplier, reducer) =>
      if u == upstream && supplier.CreateArrayList? && supplier.capacity >= 0 && reducer.ListAdd? then
        Some(R.RailReduce(input, [], R.ListAdd))
      else None
    case ParallelMap(u, mapper) =>
      if mapper.Sorter? then
        match ListRails(u, upstream, input, le)
        case Some(lists) => Some(R.RailMap(lists, P.SortBy(le)))
        case None => None
      else None
    case _ => None
  }

  /** What a `ParallelSortedJoin` emits: the k-way merge of the one list
      each rail carries. */
  function SortedJoinEmits<T(!new)>(j: Joined, upstream: Rails, input: seq<seq<T>>, le: (T, T) -> bool): Option<seq<T>> {
    if j.ParallelSortedJoin? then
      match ListRails(j.rails, upstream, input, le)
      case Some(lists) =>
        if forall i | 0 <= i < |lists| :: |lists[i]| == 1 then Some(S.KMerge(le, P.RailValues(lists))) else None
      case None => None
    else None
  }

  /** What a `ParallelReduceFull` with a `Merger` may emit: the merge of the
      rails' lists in some order the rails can finish in. */
  ghost predicate ReduceFullMayEmit<T(!new)>(j: Joined, upstream: Rails, input: seq<seq<T>>, le: (T, T) -> bool,
                                            out: Option<seq<T>>) {
    j.ParallelReduceFull? && j.reducer.Merger?
    && ListRails(j.rails, upstream, input, le).Some?
    && exists arrived :: multiset(arrived) == multiset(ListRails(j.rails, upstream, input, le).value)
                         && out == P.SortedListOutput(le, arrived)
  }

  /** The rails of `reduce(createArrayList(capacity), ListAdd)` followed by
      `map(Sorter)` are the sorted rails, unless the capacity is negative. */
  lemma ListRailsOfSortStage<T>(upstream: Rails, capacity: int32, comparator: Option<Callback>,
                                input: seq<seq<T>>, le: (T, T) -> bool)
    ensures ListRails(ParallelMap(ParallelReduce(upstream, CreateArrayList(capacity), ListAdd), Sorter(comparator)),
                      upstream, input, le)
         == if capacity >= 0 then Some(P.SortedRails(le, input)) else None
  {
  }

  /** The lists of `sorted` and `toSortedList` are a legal `ArrayList`
      capacity: the `RailCapacityNonNegative` condition. */
  predicate CapacityLegal(capacityHint: int32, parallelism: int32) {
    capacityHint as int > -2 * (parallelism as int) && !(capacityHint as int == INT_MAX && parallelism == 1)
  }

  /** The term `sorted` builds emits `SortedOutput`: every input value, in
      order. */
  lemma SortedDenotes<T(!new)>(upstream: Rails, comparator: Option<Callback>, capacityHint: int32,
                               input: seq<seq<T>>, le: (T, T) -> bool)
    requires TotalPreorder(le)
    requires |input| == Parallelism(upstream) as int
    requires Sorted(upstream, comparator, capacityHint).Success?
    requires CapacityLegal(capacityHint, Parallelism(upstream))
    ensures SortedJoinEmits(Sorted(upstream, comparator, capacityHint).value, upstream, input, le)
         == Some(P.SortedOutput(le, input))
    ensures SortedBy(le, P.SortedOutput(le, input))
    ensures multiset(P.SortedOutput(le, input)) == multiset(R.Flatten(input))
  {
    var p := Parallelism(upstream);
    var capacity := RailCapacity(capacityHint, p);
    RailCapacityNonNegative(capacityHint, p);
    ListRailsOfSortStage(upstream, capacity, comparator, input, le);
    P.SortedRailsContent(le, input);
    P.SortedOutputCorrect(le, input);
  }

  /** A hint too far below zero makes the list supplier of `sorted` throw,
      so nothing is emitted. */
  lemma SortedSupplierThrows<T(!new)>(upstream: Rails, comparator: Option<Callback>, capacityHint: int32,
                                      input: seq<seq<T>>, le: (T, T) -> bool)
    requires Sorted(upstream, comparator, capacityHint).Success?
    requires Parallelism(upstream) > 0
    requires !CapacityLegal(capacityHint, Parallelism(upstream))
    ensures SortedJoinEmits(Sorted(upstream, comparator, capacityHint).value, upstream, input, le) == None
  {
    var p := Parallelism(upstream);
    var capacity := RailCapacity(capacityHint, p);
    RailCapacityNonNegative(capacityHint, p);
    ListRailsOfSortStage(upstream, capacity, comparator, input, le);
  }

  /** Whatever order the rails finish in, the term `toSortedList` builds
      emits one list holding every input value, in order. */
  lemma ToSortedListDenotes<T(!new)>(upstream: Rails, comparator: Option<Callback>, capacityHint: int32,
                                     input: seq<seq<T>>, le: (T, T) -> bool, out: Option<seq<T>>)
    requires TotalPreorder(le)
    requires |input| == Parallelism(upstream) as int
    requires ToSortedList(upstream, comparator, capacityHint).Success?
    requires ReduceFullMayEmit(ToSortedList(upstream, comparator, capacityHint).value, upstream, input, le, out)
    ensures out.Some?
    ensures SortedBy(le, out.value)
    ensures multiset(out.value) == multiset(R.Flatten(input))
  {
    ListRailsOfSortStage(upstream, RailCapacity(capacityHint, Parallelism(upstream)), comparator, input, le);
    var arrived :| multiset(arrived) == multiset(P.SortedRails(le, input)) && out == P.SortedListOutput(le, arrived);
    P.SortedListOutputCorrect(le, input, arrived);
  }

  /** The rails finishing in rail order is one possible run of the term
      `toSortedList` builds, when the capacity is legal. */
  lemma ToSortedListInRailOrder<T(!new)>(upstream: Rails, comparator: Option<Callback>, capacityHint: int32,
                                         input: seq<seq<T>>, le: (T, T) -> bool)
    requires ToSortedList(upstream, comparator, capacityHint).Success?
    requires Parallelism(upstream) > 0
    requires CapacityLegal(capacityHint, Parallelism(upstream))
    ensures ReduceFullMayEmit(ToSortedList(upstream, comparator, capacityHint).value, upstream, input, le,
                              P.SortedListOutput(le, P.SortedRails(le, input)))
  {
    var p := Parallelism(upstream);
    var capacity := RailCapacity(capacityHint, p);
    RailCapacityNonNegative(capacityHint, p);
    ListRailsOfSortStage(upstream, capacity, comparator, input, le);
  }

  /** Under a total order the finishing order does not matter: every run of
      `toSortedList` emits what `sorted` emits, as one list. */
  lemma ToSortedListMatchesSorted<T(!new)>(upstream: Rails, comparator: Option<Callback>, capacityHint: int32,
                                           input: seq<seq<T>>, le: (T, T) -> bool, out: Option<seq<T>>)
    requires TotalOrder(le)
    requires |input| == Parallelism(upstream) as int
    requires ToSortedList(upstream, comparator, capacityHint).Success?
    requires ReduceFullMayEmit(ToSortedList(upstream, comparator, capacityHint).value, upstream, input, le, out)
    ensures out == Some(P.SortedOutput(le, input))
  {
    ListRailsOfSortStage(upstream, RailCapacity(capacityHint, Parallelism(upstream)), comparator, input, le);
    var arrived :| multiset(arrived) == multiset(P.SortedRails(le, input)) && out == P.SortedListOutput(le, arrived);
    P.SortedListMatchesSorted(le, input, arrived);
  }

  /** What a `ParallelReduceFull` over `upstream` with a caller's reducer may
      emit, when `f` is the function that reducer computes: the full
      reduction of the rails taken in some order they can finish in. */
  ghost predicate ReduceMayEmit<T(!new)>(j: Joined, upstream: Rails, input: seq<seq<T>>, f: (T, T) -> T, out: Option<T>) {
    j.ParallelReduceFull? && j.rails == upstream && j.reducer.User?
    && exists arrived :: multiset(arrived) == multiset(input) && out == R.FullReduce(f, arrived)
  }

  /** The rails finishing in rail order is one possible run of the term
      `reduce(reducer)` builds. */
  lemma ReduceInRailOrder<T(!new)>(upstream: Rails, reducer: Option<Callback>, input: seq<seq<T>>, f: (T, T) -> T)
    requires Reduce(upstream, reducer).Success? && reducer.value.User?
    ensures ReduceMayEmit(Reduce(upstream, reducer).value, upstream, input, f, R.FullReduce(f, input))
  {
    assert multiset(input) == multiset(input) && R.FullReduce(f, input) == R.FullReduce(f, input);
  }

  /** Every run of the term `reduce(reducer)` builds emits nothing exactly
      when every rail is empty. */
  lemma ReduceEmitsNothing<T(!new)>(upstream: Rails, reducer: Option<Callback>, input: seq<seq<T>>, f: (T, T) -> T,
                              out: Option<T>)
    requires Reduce(upstream, reducer).Success?
    requires ReduceMayEmit(Reduce(upstream, reducer).value, upstream, input, f, out)
    ensures out == None <==> forall i | 0 <= i < |input| :: input[i] == []
  {
    var arrived :| multiset(arrived) == multiset(input) && out == R.FullReduce(f, arrived);
    R.FullReduceEmpty(f, arrived);
    if forall i | 0 <= i < |arrived| :: arrived[i] == [] {
      AllEmptyPermutation(arrived, input);
    }
    if forall i | 0 <= i < |input| :: input[i] == [] {
      AllEmptyPermutation(input, arrived);
    }
  }

  /** When every rail of `a` is empty, so is every rail of a rearrangement
      `b` of it. */
  lemma AllEmptyPermutation<T>(a: seq<seq<T>>, b: seq<seq<T>>)
    requires multiset(a) == multiset(b)
    requires forall i | 0 <= i < |a| :: a[i] == []
    ensures forall i | 0 <= i < |b| :: b[i] == []
  {
    forall i | 0 <= i < |b| ensures b[i] == [] {
      assert b[i] in multiset(a);
    }
  }

  /** For an associative and commutative reducer every run of the term
      `reduce(reducer)` builds emits the same value: the fold of all values
      in rail order. */
  lemma ReduceDenotes<T(!new)>(upstream: Rails, reducer: Option<Callback>, input: seq<seq<T>>, f: (T, T) -> T,
                               out: Option<T>)
    requires R.Associative(f) && R.Commutative(f)
    requires Reduce(upstream, reducer).Success?
    requires ReduceMayEmit(Reduce(upstream, reducer).value, upstream, input, f, out)
    ensures out == R.RailFold(f, R.Flatten(input))
  {
    var arrived :| multiset(arrived) == multiset(input) && out == R.FullReduce(f, arrived);
    R.FullReduceAnyOrder(f, input, arrived);
  }
}
