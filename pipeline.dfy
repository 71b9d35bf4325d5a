/** What `sorted` and `toSortedList` compute from N finite rails: each rail
    is collected into a list, each list is sorted, and the sorted lists are
    either merged k ways (`sorted`) or reduced across rails by pairwise
    merging (`toSortedList`). */
module SortedPipeline {
  import opened Wrappers
  import opened Ordering
  import opened Rails
  import opened Sorting

  /** The rails after `reduce(createArrayList, ListAdd)` and
      `map(SorterFunction)`: each rail carries one sorted list. */
  function SortedRails<T>(le: (T, T) -> bool, rails: seq<seq<T>>): seq<seq<seq<T>>> {
    RailMap(RailReduce(rails, [], ListAdd), SortBy(le))
  }

  /** The `SorterFunction` for a comparator, as a mapper. */
  function SortBy<T>(le: (T, T) -> bool): seq<T> -> seq<T> {
    (list: seq<T>) => Sort(le, list)
  }

  /** The single value each rail carries. */
  function RailValues<T>(rails: seq<seq<T>>): (r: seq<T>)
    requires forall i | 0 <= i < |rails| :: |rails[i]| == 1
    ensures |r| == |rails|
    ensures forall i | 0 <= i < |rails| :: r[i] == rails[i][0]
  {
    seq(|rails|, i requires 0 <= i < |rails| => rails[i][0])
  }

  /** `sorted(comparator)`: the k-way merge of the sorted rails. */
  function SortedOutput<T(!new)>(le: (T, T) -> bool, rails: seq<seq<T>>): seq<T> {
    KMerge(le, RailValues(SortedRails(le, rails)))
  }

  /** The `MergerBiFunction` for a comparator, as a reducer. */
  function MergeBy<T>(le: (T, T) -> bool): (seq<T>, seq<T>) -> seq<T> {
    (a: seq<T>, b: seq<T>) => Merge(le, a, b)
  }

  /** `toSortedList(comparator)`: the full reduction, with the two-list
      merge, of the sorted rails taken in the order they finish (`arrived`
      is a rearrangement of `SortedRails(le, rails)`). */
  function SortedListOutput<T>(le: (T, T) -> bool, arrived: seq<seq<seq<T>>>): Option<seq<T>> {
    FullReduce(MergeBy(le), arrived)
  }

  /** After collecting and sorting, rail i carries exactly one list: rail i's
      values, sorted. */
  lemma SortedRailsContent<T>(le: (T, T) -> bool, rails: seq<seq<T>>)
    ensures |SortedRails(le, rails)| == |rails|
    ensures forall i | 0 <= i < |rails| :: SortedRails(le, rails)[i] == [Sort(le, rails[i])]
  {
    forall i | 0 <= i < |rails| ensures SortedRails(le, rails)[i] == [Sort(le, rails[i])] {
      CollectKeepsRail(rails[i]);
    }
  }

  /** Rails that pairwise hold the same multisets flatten to the same
      multiset. */
  lemma {:induction false} FlattenSameMultisets<T>(a: seq<seq<T>>, b: seq<seq<T>>)
    requires |a| == |b|
    requires forall i | 0 <= i < |a| :: multiset(a[i]) == multiset(b[i])
    ensures multiset(Flatten(a)) == multiset(Flatten(b))
  {
    if a != [] {
      var n := |a|;
      FlattenSameMultisets(a[..n - 1], b[..n - 1]);
    }
  }

  /** The sorted lists the rails carry, with their sortedness and contents. */
  lemma SortedLists<T(!new)>(le: (T, T) -> bool, rails: seq<seq<T>>)
    requires TotalPreorder(le)
    ensures AllSorted(le, RailValues(SortedRails(le, rails)))
    ensures multiset(Flatten(RailValues(SortedRails(le, rails)))) == multiset(Flatten(rails))
  {
    SortedRailsContent(le, rails);
    var lists := RailValues(SortedRails(le, rails));
    forall i | 0 <= i < |rails|
      ensures SortedBy(le, lists[i]) && multiset(lists[i]) == multiset(rails[i])
    {
      SortCorrect(le, rails[i]);
    }
    FlattenSameMultisets(lists, rails);
  }

  /** `sorted` emits every value of every rail, each as often as the rails
      held it, in non-decreasing order. */
  lemma SortedOutputCorrect<T(!new)>(le: (T, T) -> bool, rails: seq<seq<T>>)
    requires TotalPreorder(le)
    ensures SortedBy(le, SortedOutput(le, rails))
    ensures multiset(SortedOutput(le, rails)) == multiset(Flatten(rails))
  {
    SortedLists(le, rails);
    KMergeCorrect(le, RailValues(SortedRails(le, rails)));
  }

  /** One merge step keeps the accumulated list sorted and adds the next
      rail's values to it. */
  lemma MergeStep<T(!new)>(le: (T, T) -> bool, acc: seq<T>, next: seq<T>)
    requires TotalPreorder(le) && SortedBy(le, acc) && SortedBy(le, next)
    ensures SortedBy(le, MergeBy(le)(acc, next))
    ensures multiset(MergeBy(le)(acc, next)) == multiset(acc) + multiset(next)
  {
    MergeSorted(le, acc, next);
    MergePermutes(le, acc, next);
  }

  /** The values of all rails but the last, and of the last. */
  lemma RailValuesSnoc<T>(rails: seq<seq<seq<T>>>)
    requires rails != [] && forall i | 0 <= i < |rails| :: |rails[i]| == 1
    ensures RailValues(rails[..|rails| - 1]) == RailValues(rails)[..|rails| - 1]
    ensures Flatten(RailValues(rails))
        == Flatten(RailValues(rails[..|rails| - 1])) + rails[|rails| - 1][0]
  {
    assert RailValues(rails[..|rails| - 1]) == RailValues(rails)[..|rails| - 1];
  }

  /** Reducing rails of one sorted list each by pairwise merging yields one
      sorted list holding all of them; nothing only when there are no rails. */
  lemma {:induction false} MergeReduceCorrect<T(!new)>(le: (T, T) -> bool, rails: seq<seq<seq<T>>>)
    requires TotalPreorder(le)
    requires forall i | 0 <= i < |rails| :: |rails[i]| == 1
    requires AllSorted(le, RailValues(rails))
    ensures FullReduce(MergeBy(le), rails).Some? <==> rails != []
    ensures rails != [] ==>
      var r := FullReduce(MergeBy(le), rails).value;
      SortedBy(le, r) && multiset(r) == multiset(Flatten(RailValues(rails)))
  {
    if rails != [] {
      var n := |rails|;
      var front := rails[..n - 1];
      RailValuesSnoc(rails);
      MergeReduceCorrect(le, front);
      var last := rails[n - 1][0];
      assert rails[n - 1] == [last];
      assert RailFold(MergeBy(le), rails[n - 1]) == Some(last) by {
        assert rails[n - 1][1..] == [];
      }
      if front != [] {
        MergeStep(le, FullReduce(MergeBy(le), front).value, last);
      }
    }
  }

  /** The single values of one-value rails are their flattening. */
  lemma {:induction false} RailValuesFlatten<T>(rails: seq<seq<T>>)
    requires forall i | 0 <= i < |rails| :: |rails[i]| == 1
    ensures RailValues(rails) == Flatten(rails)
  {
    if rails != [] {
      var n := |rails|;
      RailValuesFlatten(rails[..n - 1]);
      assert RailValues(rails) == RailValues(rails[..n - 1]) + rails[n - 1];
    }
  }

  /** Whatever order the sorted rails finish in, each carries one sorted
      list. */
  lemma ArrivedSorted<T(!new)>(le: (T, T) -> bool, rails: seq<seq<T>>, arrived: seq<seq<seq<T>>>)
    requires TotalPreorder(le)
    requires multiset(arrived) == multiset(SortedRails(le, rails))
    ensures |arrived| == |rails|
    ensures forall i | 0 <= i < |arrived| :: |arrived[i]| == 1
    ensures AllSorted(le, RailValues(arrived))
  {
    var sorted := SortedRails(le, rails);
    SortedRailsContent(le, rails);
    assert |arrived| == |multiset(arrived)| == |multiset(sorted)| == |rails|;
    forall i | 0 <= i < |arrived|
      ensures |arrived[i]| == 1 && SortedBy(le, arrived[i][0])
    {
      assert arrived[i] in multiset(sorted);
      var j :| 0 <= j < |sorted| && sorted[j] == arrived[i];
      SortCorrect(le, rails[j]);
    }
  }

  /** Whatever order the sorted rails finish in, together they hold every
      input value. */
  lemma ArrivedValues<T(!new)>(le: (T, T) -> bool, rails: seq<seq<T>>, arrived: seq<seq<seq<T>>>)
    requires TotalPreorder(le)
    requires multiset(arrived) == multiset(SortedRails(le, rails))
    requires forall i | 0 <= i < |arrived| :: |arrived[i]| == 1
    ensures multiset(Flatten(RailValues(arrived))) == multiset(Flatten(rails))
  {
    var sorted := SortedRails(le, rails);
    SortedLists(le, rails);
    RailValuesFlatten(arrived);
    RailValuesFlatten(sorted);
    FlattenPermutation(arrived, sorted);
    FlattenPermutation(Flatten(arrived), Flatten(sorted));
  }

  /** `toSortedList` on N >= 1 rails emits exactly one list, even when every
      rail is empty, whatever order the rails finish in; the list is sorted
      and holds every value of every rail. */
  lemma SortedListOutputCorrect<T(!new)>(le: (T, T) -> bool, rails: seq<seq<T>>, arrived: seq<seq<seq<T>>>)
    requires TotalPreorder(le)
    requires |rails| > 0
    requires multiset(arrived) == multiset(SortedRails(le, rails))
    ensures SortedListOutput(le, arrived).Some?
    ensures SortedBy(le, SortedListOutput(le, arrived).value)
    ensures multiset(SortedListOutput(le, arrived).value) == multiset(Flatten(rails))
  {
    ArrivedSorted(le, rails, arrived);
    ArrivedValues(le, rails, arrived);
    MergeReduceCorrect(le, arrived);
  }

  /** Under a comparator that is a total order, `toSortedList` emits as one
      list exactly what `sorted` emits, whatever order the rails finish in. */
  lemma SortedListMatchesSorted<T(!new)>(le: (T, T) -> bool, rails: seq<seq<T>>, arrived: seq<seq<seq<T>>>)
    requires TotalOrder(le)
    requires |rails| > 0
    requires multiset(arrived) == multiset(SortedRails(le, rails))
    ensures SortedListOutput(le, arrived) == Some(SortedOutput(le, rails))
  {
    SortedOutputCorrect(le, rails);
    SortedListOutputCorrect(le, rails, arrived);
    SortedUnique(le, SortedListOutput(le, arrived).value, SortedOutput(le, rails));
  }

  /** Numeric ascending order on integers. */
  function IntLe(a: int, b: int): bool {
    a <= b
  }

  lemma ExampleFlatten()
    ensures Flatten([[5, 3, 8], [1, 9], [2]]) == [5, 3, 8, 1, 9, 2]
  {
    var rails: seq<seq<int>> := [[5, 3, 8], [1, 9], [2]];
    assert rails[..2][..1][..0] == [];
    assert Flatten(rails[..2][..1]) == [5, 3, 8];
    assert rails[..2][..1] == rails[..1];
    assert Flatten(rails[..2]) == [5, 3, 8] + [1, 9];
    assert Flatten(rails) == [5, 3, 8, 1, 9] + [2];
  }

  lemma ExampleSorted()
    ensures SortedBy(IntLe, [1, 2, 3, 5, 8, 9])
  {
    var s := [1, 2, 3, 5, 8, 9];
    forall i, j | 0 <= i < j < |s| ensures IntLe(s[i], s[j]) {
    }
  }

  lemma ExamplePermutation()
    ensures multiset([5, 3, 8, 1, 9, 2]) == multiset([1, 2, 3, 5, 8, 9])
  {
    assert multiset([5, 3, 8, 1, 9, 2]) == multiset{5, 3, 8, 1, 9, 2};
    assert multiset{5, 3, 8, 1, 9, 2} == multiset{1, 2, 3, 5, 8, 9};
    assert multiset([1, 2, 3, 5, 8, 9]) == multiset{1, 2, 3, 5, 8, 9};
  }

  /** Rails [5, 3, 8], [1, 9] and [2] sort into [1, 2, 3, 5, 8, 9], whether
      merged k ways or collected into one list, whatever order the rails
      finish in. */
  lemma SortedExample(arrived: seq<seq<seq<int>>>)
    requires multiset(arrived) == multiset(SortedRails(IntLe, [[5, 3, 8], [1, 9], [2]]))
    ensures SortedOutput(IntLe, [[5, 3, 8], [1, 9], [2]]) == [1, 2, 3, 5, 8, 9]
    ensures SortedListOutput(IntLe, arrived) == Some([1, 2, 3, 5, 8, 9])
  {
    var rails: seq<seq<int>> := [[5, 3, 8], [1, 9], [2]];
    var expected := [1, 2, 3, 5, 8, 9];
    assert TotalOrder(IntLe);
    SortedOutputCorrect(IntLe, rails);
    SortedListMatchesSorted(IntLe, rails, arrived);
    ExampleFlatten();
    ExampleSorted();
    ExamplePermutation();
    SortedUnique(IntLe, SortedOutput(IntLe, rails), expected);
  }
}
