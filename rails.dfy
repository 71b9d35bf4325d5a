/** Denotational view of a parallel flow: N finite rails, rail i being the
    sequence of values rail i delivers before it completes. This module gives
    the per-rail reduction and the cross-rail full reduction that
    `reduce(initialSupplier, reducer)` and `reduce(reducer)` assemble. */
module Rails {
  import opened Wrappers

  /** All rails one after the other, rail 0 first. */
  function Flatten<T>(rails: seq<seq<T>>): seq<T> {
    if rails == [] then [] else Flatten(rails[..|rails| - 1]) + rails[|rails| - 1]
  }

  /** Only empty rails flatten to nothing. */
  lemma {:induction false} FlattenEmpty<T>(rails: seq<seq<T>>)
    ensures Flatten(rails) == [] <==> forall i | 0 <= i < |rails| :: rails[i] == []
  {
    if rails != [] {
      var n := |rails|;
      var front := rails[..n - 1];
      FlattenEmpty(front);
      assert |Flatten(rails)| == |Flatten(front)| + |rails[n - 1]|;
      assert forall i | 0 <= i < n - 1 :: front[i] == rails[i];
    }
  }

  /** Replacing one rail's contents replaces exactly those elements in the
      flattened multiset. */
  lemma {:induction false} FlattenUpdate<T>(rails: seq<seq<T>>, k: nat, s: seq<T>)
    requires k < |rails|
    ensures multiset(Flatten(rails[k := s])) + multiset(rails[k]) == multiset(Flatten(rails)) + multiset(s)
  {
    var n := |rails|;
    var updated := rails[k := s];
    var front, updatedFront := Flatten(rails[..n - 1]), Flatten(updated[..n - 1]);
    assert Flatten(rails) == front + rails[n - 1];
    assert Flatten(updated) == updatedFront + updated[n - 1];
    if k == n - 1 {
      assert updated[..n - 1] == rails[..n - 1];
    } else {
      assert updated[..n - 1] == rails[..n - 1][k := s];
      FlattenUpdate(rails[..n - 1], k, s);
      assert multiset(updatedFront) + multiset(rails[k]) == multiset(front) + multiset(s);
      assert updated[n - 1] == rails[n - 1];
      var last := multiset(rails[n - 1]);
      calc {
        multiset(Flatten(updated)) + multiset(rails[k]);
        (multiset(updatedFront) + last) + multiset(rails[k]);
        (multiset(updatedFront) + multiset(rails[k])) + last;
        (multiset(front) + multiset(s)) + last;
        (multiset(front) + last) + multiset(s);
        multiset(Flatten(rails)) + multiset(s);
      }
    }
  }

  lemma FlattenUpdateLength<T>(rails: seq<seq<T>>, k: nat, s: seq<T>)
    requires k < |rails|
    ensures |Flatten(rails[k := s])| + |rails[k]| == |Flatten(rails)| + |s|
  {
    FlattenUpdate(rails, k, s);
    var a, b := multiset(Flatten(rails[k := s])), multiset(rails[k]);
    var c, d := multiset(Flatten(rails)), multiset(s);
    assert |a + b| == |a| + |b| && |c + d| == |c| + |d|;
  }

  /** Left fold: what a rail's reducer computes from a seed value. */
  function FoldLeft<A, T>(f: (A, T) -> A, acc: A, s: seq<T>): A {
    if s == [] then acc else f(FoldLeft(f, acc, s[..|s| - 1]), s[|s| - 1])
  }

  /** Folding a concatenation folds the second part from where the first
      part left off. */
  lemma {:induction false} FoldLeftAppend<A, T>(f: (A, T) -> A, acc: A, s: seq<T>, t: seq<T>)
    ensures FoldLeft(f, acc, s + t) == FoldLeft(f, FoldLeft(f, acc, s), t)
  {
    if t == [] {
      assert s + t == s;
    } else {
      var n := |t|;
      assert (s + t)[..|s + t| - 1] == s + t[..n - 1];
      FoldLeftAppend(f, acc, s, t[..n - 1]);
    }
  }

  /** `ListAddBiConsumer`: add the value to the rail's list. */
  function ListAdd<T>(list: seq<T>, x: T): seq<T> {
    list + [x]
  }

  /** Collecting a rail into a fresh list keeps all its values in their
      arrival order. */
  lemma {:induction false} CollectKeepsRail<T>(rail: seq<T>)
    ensures FoldLeft(ListAdd, [], rail) == rail
  {
    if rail != [] {
      CollectKeepsRail(rail[..|rail| - 1]);
      assert rail == rail[..|rail| - 1] + [rail[|rail| - 1]];
    }
  }

  /** `reduce(initialSupplier, reducer)`: every rail, empty or not, emits
      exactly one value, its fold from the initial value. */
  function RailReduce<T, R>(rails: seq<seq<T>>, initial: R, reducer: (R, T) -> R): (r: seq<seq<R>>)
    ensures |r| == |rails|
    ensures forall i | 0 <= i < |r| :: |r[i]| == 1
    ensures forall i | 0 <= i < |r| :: r[i] == [FoldLeft(reducer, initial, rails[i])]
  {
    seq(|rails|, i requires 0 <= i < |rails| => [FoldLeft(reducer, initial, rails[i])])
  }

  /** `map(mapper)`: every value of every rail is transformed in place. */
  function RailMap<T, R>(rails: seq<seq<T>>, mapper: T -> R): (r: seq<seq<R>>)
    ensures |r| == |rails|
    ensures forall i | 0 <= i < |r| :: |r[i]| == |rails[i]|
    ensures forall i, j | 0 <= i < |r| && 0 <= j < |r[i]| :: r[i][j] == mapper(rails[i][j])
  {
    seq(|rails|, i requires 0 <= i < |rails| =>
      seq(|rails[i]|, j requires 0 <= j < |rails[i]| => mapper(rails[i][j])))
  }

  ghost predicate Associative<T(!new)>(f: (T, T) -> T) {
    forall x, y, z :: f(f(x, y), z) == f(x, f(y, z))
  }

  /** First stage of `reduce(reducer)`: a rail seeds its accumulator with its
      first value and folds the rest into it; an empty rail yields nothing. */
  function RailFold<T>(f: (T, T) -> T, rail: seq<T>): Option<T> {
    if rail == [] then None else Some(FoldLeft(f, rail[0], rail[1..]))
  }

  /** Second stage: combine two partial results, a missing one being neutral. */
  function Combine<T>(f: (T, T) -> T, a: Option<T>, b: Option<T>): Option<T> {
    match (a, b)
    case (None, _) => b
    case (_, None) => a
    case (Some(x), Some(y)) => Some(f(x, y))
  }

  ghost predicate Commutative<T(!new)>(f: (T, T) -> T) {
    forall x, y :: f(x, y) == f(y, x)
  }

  /** `reduce(reducer)`: the per-rail results combined one after the other
      in the order the rails are given. `ParallelReduceFull` combines them
      in the order the rails finish, so a caller passes the rails in that
      order (see FullReduceAnyOrder). */
  function FullReduce<T>(f: (T, T) -> T, rails: seq<seq<T>>): Option<T> {
    if rails == [] then None
    else Combine(f, FullReduce(f, rails[..|rails| - 1]), RailFold(f, rails[|rails| - 1]))
  }

  /** The full reduction emits nothing exactly when every rail is empty. */
  lemma {:induction false} FullReduceEmpty<T>(f: (T, T) -> T, rails: seq<seq<T>>)
    ensures FullReduce(f, rails) == None <==> forall i | 0 <= i < |rails| :: rails[i] == []
  {
    if rails != [] {
      var n := |rails|;
      FullReduceEmpty(f, rails[..n - 1]);
      assert forall i | 0 <= i < n - 1 :: rails[..n - 1][i] == rails[i];
    }
  }

  lemma {:induction false} FoldLeftSeed<T(!new)>(f: (T, T) -> T, x: T, y: T, t: seq<T>)
    requires Associative(f)
    ensures FoldLeft(f, f(x, y), t) == f(x, FoldLeft(f, y, t))
  {
    if t != [] {
      FoldLeftSeed(f, x, y, t[..|t| - 1]);
    }
  }

  /** With an associative reducer, a rail's result over a concatenation is
      the combination of the results over the parts. */
  lemma RailFoldAppend<T(!new)>(f: (T, T) -> T, a: seq<T>, b: seq<T>)
    requires Associative(f)
    ensures RailFold(f, a + b) == Combine(f, RailFold(f, a), RailFold(f, b))
  {
    if a == [] {
      assert a + b == b;
    } else if b == [] {
      assert a + b == a;
    } else {
      assert (a + b)[1..] == a[1..] + b;
      FoldLeftAppend(f, a[0], a[1..], b);
      var x := FoldLeft(f, a[0], a[1..]);
      assert b == [b[0]] + b[1..];
      FoldLeftAppend(f, x, [b[0]], b[1..]);
      assert FoldLeft(f, x, [b[0]]) == f(x, b[0]) by {
        assert [b[0]][..0] == [];
      }
      FoldLeftSeed(f, x, b[0], b[1..]);
    }
  }

  /** With an associative reducer, however the values are spread over the
      rails, the full reduction equals reducing them all on one rail. */
  lemma {:induction false} FullReduceIsFold<T(!new)>(f: (T, T) -> T, rails: seq<seq<T>>)
    requires Associative(f)
    ensures FullReduce(f, rails) == RailFold(f, Flatten(rails))
  {
    if rails != [] {
      var n := |rails|;
      FullReduceIsFold(f, rails[..n - 1]);
      RailFoldAppend(f, Flatten(rails[..n - 1]), rails[n - 1]);
    }
  }

  /** Flattening distributes over concatenation of rail sequences. */
  lemma {:induction false} FlattenAppend<T>(p: seq<seq<T>>, q: seq<seq<T>>)
    ensures Flatten(p + q) == Flatten(p) + Flatten(q)
  {
    if q != [] {
      var n := |q|;
      assert (p + q)[..|p + q| - 1] == p + q[..n - 1];
      FlattenAppend(p, q[..n - 1]);
    } else {
      assert p + q == p;
    }
  }

  /** Dropping the entry at `k` drops one occurrence of it. */
  lemma RemoveAt<T>(s: seq<T>, k: nat)
    requires k < |s|
    ensures multiset(s[..k] + s[k + 1..]) == multiset(s) - multiset{s[k]}
  {
    assert s == s[..k] + [s[k]] + s[k + 1..];
    assert multiset(s) == multiset(s[..k]) + multiset{s[k]} + multiset(s[k + 1..]);
  }

  /** Rails taken in any other order flatten to the same multiset. */
  lemma {:induction false} FlattenPermutation<T>(a: seq<seq<T>>, b: seq<seq<T>>)
    requires multiset(a) == multiset(b)
    ensures multiset(Flatten(a)) == multiset(Flatten(b))
    decreases |a|
  {
    if a == [] {
      assert |multiset(b)| == 0;
    } else {
      var n := |a|;
      var x := a[n - 1];
      assert a == a[..n - 1] + [x];
      assert x in multiset(b);
      var k :| 0 <= k < |b| && b[k] == x;
      var b1, b2 := b[..k], b[k + 1..];
      assert b == b1 + ([x] + b2);
      RemoveAt(a, n - 1);
      RemoveAt(b, k);
      assert a[..n - 1] + a[n..] == a[..n - 1];
      FlattenPermutation(a[..n - 1], b1 + b2);
      FlattenAppend(b1, [x] + b2);
      FlattenAppend([x], b2);
      FlattenAppend(b1, b2);
      assert Flatten([x]) == x by {
        assert [x][..0] == [];
      }
    }
  }

  /** A single value's rail folds to that value. */
  lemma RailFoldSingle<T>(f: (T, T) -> T, x: T)
    ensures RailFold(f, [x]) == Some(x)
  {
    assert [x][1..] == [];
  }

  /** With an associative and commutative reducer, a partial result can be
      moved past another. */
  lemma CombineSwap<T(!new)>(f: (T, T) -> T, a: Option<T>, x: Option<T>, b: Option<T>)
    requires Associative(f) && Commutative(f)
    ensures Combine(f, Combine(f, a, x), b) == Combine(f, Combine(f, a, b), x)
  {
    if a.Some? && x.Some? && b.Some? {
      calc {
        f(f(a.value, x.value), b.value);
        f(a.value, f(x.value, b.value));
        { assert f(x.value, b.value) == f(b.value, x.value); }
        f(a.value, f(b.value, x.value));
        f(f(a.value, b.value), x.value);
      }
    }
  }

  /** With an associative and commutative reducer, the values' order does
      not matter. */
  lemma {:induction false} RailFoldPermutation<T(!new)>(f: (T, T) -> T, s: seq<T>, t: seq<T>)
    requires Associative(f) && Commutative(f)
    requires multiset(s) == multiset(t)
    ensures RailFold(f, s) == RailFold(f, t)
    decreases |s|
  {
    if s == [] {
      assert |multiset(t)| == 0;
    } else {
      var n := |s|;
      var x := s[n - 1];
      assert s == s[..n - 1] + [x];
      assert x in multiset(t);
      var k :| 0 <= k < |t| && t[k] == x;
      var t1, t2 := t[..k], t[k + 1..];
      assert t == (t1 + [x]) + t2;
      RemoveAt(s, n - 1);
      RemoveAt(t, k);
      assert s[..n - 1] + s[n..] == s[..n - 1];
      RailFoldPermutation(f, s[..n - 1], t1 + t2);
      RailFoldSingle(f, x);
      RailFoldAppend(f, s[..n - 1], [x]);
      RailFoldAppend(f, t1 + [x], t2);
      RailFoldAppend(f, t1, [x]);
      RailFoldAppend(f, t1, t2);
      CombineSwap(f, RailFold(f, t1), Some(x), RailFold(f, t2));
    }
  }

  /** With an associative and commutative reducer, whatever order the rails
      finish in, the full reduction equals reducing all values, in rail
      order, on one rail. */
  lemma FullReduceAnyOrder<T(!new)>(f: (T, T) -> T, rails: seq<seq<T>>, arrived: seq<seq<T>>)
    requires Associative(f) && Commutative(f)
    requires multiset(arrived) == multiset(rails)
    ensures FullReduce(f, arrived) == RailFold(f, Flatten(rails))
    ensures FullReduce(f, arrived) == FullReduce(f, rails)
  {
    FullReduceIsFold(f, arrived);
    FullReduceIsFold(f, rails);
    FlattenPermutation(arrived, rails);
    RailFoldPermutation(f, Flatten(arrived), Flatten(rails));
  }

  /** Concatenation of lists, a reducer that is associative but not
      commutative. */
  function Concat(a: seq<int>, b: seq<int>): seq<int> {
    a + b
  }

  /** Without commutativity the finishing order shows in the result: two
      rails finishing in either order give different reductions. */
  lemma ArrivalOrderMatters()
    ensures FullReduce(Concat, [[[1]], [[2]]]) == Some([1, 2])
    ensures FullReduce(Concat, [[[2]], [[1]]]) == Some([2, 1])
  {
    var a: seq<seq<seq<int>>> := [[[1]], [[2]]];
    var b: seq<seq<seq<int>>> := [[[2]], [[1]]];
    RailFoldSingle(Concat, [1]);
    RailFoldSingle(Concat, [2]);
    assert a[..1] == [[[1]]] && a[1] == [[2]];
    assert b[..1] == [[[2]]] && b[1] == [[1]];
    assert a[..1][..0] == [] && b[..1][..0] == [];
    assert FullReduce(Concat, a[..1]) == Some([1]);
    assert FullReduce(Concat, b[..1]) == Some([2]);
    assert Concat([1], [2]) == [1, 2] && Concat([2], [1]) == [2, 1];
  }
}
