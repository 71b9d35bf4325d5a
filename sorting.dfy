/** Stand-ins for the helpers that `sorted` and `toSortedList` hand their
    comparator to: the per-rail sort (`SorterFunction`), the two-list merge
    (`MergerBiFunction`) and the k-way merge of `ParallelSortedJoin`. Each is
    a plain sequential definition, proved to yield a sorted permutation. */
module Sorting {
  import opened Ordering
  import opened Rails

  /** Inserts `x` before the first element it does not exceed. */
  function Insert<T>(le: (T, T) -> bool, x: T, s: seq<T>): seq<T> {
    if s == [] then [x]
    else if le(x, s[0]) then [x] + s
    else [s[0]] + Insert(le, x, s[1..])
  }

  lemma {:induction false} InsertPermutes<T>(le: (T, T) -> bool, x: T, s: seq<T>)
    ensures multiset(Insert(le, x, s)) == multiset(s) + multiset{x}
  {
    if s != [] && !le(x, s[0]) {
      InsertPermutes(le, x, s[1..]);
      assert s == [s[0]] + s[1..];
    }
  }

  lemma {:induction false} InsertSorted<T(!new)>(le: (T, T) -> bool, x: T, s: seq<T>)
    requires TotalPreorder(le)
    requires SortedBy(le, s)
    ensures SortedBy(le, Insert(le, x, s))
  {
    if s == [] {
    } else if le(x, s[0]) {
      forall y | y in s ensures le(x, y) {
        var j :| 0 <= j < |s| && s[j] == y;
        if j > 0 { assert le(s[0], s[j]); }
      }
      SortedCons(le, x, s);
    } else {
      var t := s[1..];
      assert SortedBy(le, t);
      InsertSorted(le, x, t);
      InsertPermutes(le, x, t);
      forall y | y in Insert(le, x, t) ensures le(s[0], y) {
        assert y in multiset(Insert(le, x, t));
        if y != x {
          assert y in multiset(t);
          var j :| 0 <= j < |t| && t[j] == y;
          assert s[j + 1] == y;
        }
      }
      SortedCons(le, s[0], Insert(le, x, t));
    }
  }

  /** `SorterFunction`: sorts one rail's list (insertion sort, stable). */
  function Sort<T>(le: (T, T) -> bool, s: seq<T>): seq<T> {
    if s == [] then [] else Insert(le, s[0], Sort(le, s[1..]))
  }

  /** Sorting yields a sorted permutation of the list. */
  lemma {:induction false} SortCorrect<T(!new)>(le: (T, T) -> bool, s: seq<T>)
    requires TotalPreorder(le)
    ensures SortedBy(le, Sort(le, s))
    ensures multiset(Sort(le, s)) == multiset(s)
  {
    if s != [] {
      SortCorrect(le, s[1..]);
      InsertSorted(le, s[0], Sort(le, s[1..]));
      InsertPermutes(le, s[0], Sort(le, s[1..]));
      assert s == [s[0]] + s[1..];
    }
  }

  /** `MergerBiFunction`: merges two sorted lists, taking from the left one
      on ties. */
  function Merge<T>(le: (T, T) -> bool, a: seq<T>, b: seq<T>): seq<T>
    decreases |a| + |b|
  {
    if a == [] then b
    else if b == [] then a
    else if le(a[0], b[0]) then [a[0]] + Merge(le, a[1..], b)
    else [b[0]] + Merge(le, a, b[1..])
  }

  lemma {:induction false} MergePermutes<T>(le: (T, T) -> bool, a: seq<T>, b: seq<T>)
    ensures multiset(Merge(le, a, b)) == multiset(a) + multiset(b)
    decreases |a| + |b|
  {
    if a != [] && b != [] {
      assert a == [a[0]] + a[1..] && b == [b[0]] + b[1..];
      if le(a[0], b[0]) {
        MergePermutes(le, a[1..], b);
      } else {
        MergePermutes(le, a, b[1..]);
      }
    }
  }

  /** A bound below every element of two lists is below their merge. */
  lemma BelowMerge<T>(le: (T, T) -> bool, h: T, a: seq<T>, b: seq<T>)
    requires forall y | y in a :: le(h, y)
    requires forall y | y in b :: le(h, y)
    ensures forall y | y in Merge(le, a, b) :: le(h, y)
  {
    MergePermutes(le, a, b);
    forall y | y in Merge(le, a, b) ensures le(h, y) {
      assert y in multiset(Merge(le, a, b));
    }
  }

  /** The smaller head of two sorted lists is below all of both lists. */
  lemma SmallerHeadBelow<T(!new)>(le: (T, T) -> bool, a: seq<T>, b: seq<T>)
    requires TotalPreorder(le) && SortedBy(le, a) && SortedBy(le, b)
    requires a != [] && b != [] && le(a[0], b[0])
    ensures forall y | y in a :: le(a[0], y)
    ensures forall y | y in b :: le(a[0], y)
  {
    forall y | y in a ensures le(a[0], y) { HeadIsLeast(le, a, y); }
    forall y | y in b ensures le(a[0], y) { HeadIsLeast(le, b, y); }
  }

  /** Merging two sorted lists yields a sorted list. */
  lemma {:induction false} MergeSorted<T(!new)>(le: (T, T) -> bool, a: seq<T>, b: seq<T>)
    requires TotalPreorder(le)
    requires SortedBy(le, a) && SortedBy(le, b)
    ensures SortedBy(le, Merge(le, a, b))
    decreases |a| + |b|
  {
    if a != [] && b != [] {
      if le(a[0], b[0]) {
        SortedTail(le, a);
        MergeSorted(le, a[1..], b);
        SmallerHeadBelow(le, a, b);
        BelowMerge(le, a[0], a[1..], b);
        SortedCons(le, a[0], Merge(le, a[1..], b));
      } else {
        assert le(b[0], a[0]);
        SortedTail(le, b);
        MergeSorted(le, a, b[1..]);
        SmallerHeadBelow(le, b, a);
        BelowMerge(le, b[0], a, b[1..]);
        SortedCons(le, b[0], Merge(le, a, b[1..]));
      }
    }
  }

  /** The index of the non-empty list whose head is least, the lowest such
      index on ties; -1 when every list is empty. */
  function MinHead<T(!new)>(le: (T, T) -> bool, lists: seq<seq<T>>): (k: int)
    ensures -1 <= k < |lists|
    ensures k == -1 <==> forall j | 0 <= j < |lists| :: lists[j] == []
    ensures k >= 0 ==> lists[k] != []
    ensures TotalPreorder(le) && k >= 0 ==>
      forall j | 0 <= j < |lists| && lists[j] != [] ::
        le(lists[k][0], lists[j][0]) && (j < k ==> !le(lists[j][0], lists[k][0]))
  {
    if lists == [] then -1
    else
      var n := |lists|;
      var k := MinHead(le, lists[..n - 1]);
      assert forall j | 0 <= j < n - 1 :: lists[..n - 1][j] == lists[j];
      if lists[n - 1] == [] then k
      else if k == -1 then n - 1
      else if le(lists[k][0], lists[n - 1][0]) then k
      else n - 1
  }

  /** `ParallelSortedJoin`: repeatedly emits the least head among the
      non-exhausted lists, the lowest list index winning ties. */
  function KMerge<T(!new)>(le: (T, T) -> bool, lists: seq<seq<T>>): seq<T>
    decreases |Flatten(lists)|
  {
    var k := MinHead(le, lists);
    if k == -1 then []
    else
      FlattenUpdateLength(lists, k, lists[k][1..]);
      [lists[k][0]] + KMerge(le, lists[k := lists[k][1..]])
  }

  ghost predicate AllSorted<T>(le: (T, T) -> bool, lists: seq<seq<T>>) {
    forall j | 0 <= j < |lists| :: SortedBy(le, lists[j])
  }

  /** `h` is below every element of every list. */
  ghost predicate BelowAll<T>(le: (T, T) -> bool, h: T, lists: seq<seq<T>>) {
    forall j, m | 0 <= j < |lists| && 0 <= m < |lists[j]| :: le(h, lists[j][m])
  }

  lemma {:induction false} BelowFlatten<T>(le: (T, T) -> bool, h: T, lists: seq<seq<T>>)
    requires BelowAll(le, h, lists)
    ensures forall y | y in Flatten(lists) :: le(h, y)
  {
    if lists != [] {
      var n := |lists|;
      assert BelowAll(le, h, lists[..n - 1]) by {
        assert forall j | 0 <= j < n - 1 :: lists[..n - 1][j] == lists[j];
      }
      BelowFlatten(le, h, lists[..n - 1]);
      forall y | y in Flatten(lists) ensures le(h, y) {
        if y !in Flatten(lists[..n - 1]) {
          assert y in lists[n - 1];
        }
      }
    }
  }

  /** The least head is below everything that remains once it is taken. */
  lemma MinHeadBelowRest<T(!new)>(le: (T, T) -> bool, lists: seq<seq<T>>, k: nat)
    requires TotalPreorder(le) && AllSorted(le, lists)
    requires k == MinHead(le, lists)
    ensures BelowAll(le, lists[k][0], lists[k := lists[k][1..]])
  {
    var h, next := lists[k][0], lists[k := lists[k][1..]];
    forall j, m | 0 <= j < |next| && 0 <= m < |next[j]| ensures le(h, next[j][m]) {
      if j == k {
        assert next[j][m] == lists[k][m + 1];
        assert SortedBy(le, lists[k]);
      } else {
        assert next[j] == lists[j] != [];
        assert le(h, lists[j][0]);
        if m > 0 { assert SortedBy(le, lists[j]); assert le(lists[j][0], lists[j][m]); }
      }
    }
  }

  /** The k-way merge of sorted lists is a sorted permutation of all their
      elements. */
  lemma {:induction false} KMergeCorrect<T(!new)>(le: (T, T) -> bool, lists: seq<seq<T>>)
    requires TotalPreorder(le)
    requires AllSorted(le, lists)
    ensures SortedBy(le, KMerge(le, lists))
    ensures multiset(KMerge(le, lists)) == multiset(Flatten(lists))
    decreases |Flatten(lists)|
  {
    var k := MinHead(le, lists);
    if k == -1 {
      FlattenEmpty(lists);
    } else {
      var h := lists[k][0];
      var next := lists[k := lists[k][1..]];
      FlattenUpdateLength(lists, k, lists[k][1..]);
      assert AllSorted(le, next) by {
        assert SortedBy(le, lists[k]);
      }
      KMergeCorrect(le, next);
      var rest := KMerge(le, next);
      assert KMerge(le, lists) == [h] + rest;
      KMergeMultiset(lists, k, rest);
      MinHeadBelowRest(le, lists, k);
      BelowFlatten(le, h, next);
      forall y | y in rest ensures le(h, y) {
        assert y in multiset(rest);
      }
      SortedCons(le, h, rest);
    }
  }

  lemma KMergeMultiset<T>(lists: seq<seq<T>>, k: nat, rest: seq<T>)
    requires k < |lists| && lists[k] != []
    requires multiset(rest) == multiset(Flatten(lists[k := lists[k][1..]]))
    ensures multiset([lists[k][0]] + rest) == multiset(Flatten(lists))
  {
    var h, tail := lists[k][0], lists[k][1..];
    FlattenUpdate(lists, k, tail);
    assert lists[k] == [h] + tail;
    assert multiset(lists[k]) == multiset{h} + multiset(tail);
    var a, b, c := multiset([h] + rest), multiset(Flatten(lists)), multiset(tail);
    assert a == multiset{h} + multiset(Flatten(lists[k := tail]));
    assert a + c == b + c;
    assert forall e :: a[e] == (a + c)[e] - c[e] == (b + c)[e] - c[e] == b[e];
  }
}
