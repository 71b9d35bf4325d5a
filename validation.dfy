/** The `validate` gate every joining operator runs before subscribing:
    the number of offered subscribers must equal the flow's parallelism. */
module Validation {
  import opened Wrappers
  import opened JavaInt
  import opened Assembly

  /** A signal a subscriber can receive from `validate`: `onSubscribe`
      with the empty subscription, and `onError`. */
  datatype Signal = OnSubscribe | OnError(error: Exception)

  /** A subscriber that records, in order, every signal delivered to it. */
  class Subscriber {
    var received: seq<Signal>

    constructor ()
      ensures received == []
    {
      received := [];
    }

    /** Delivers the subscription. */
    method OnSubscribe()
      modifies this
      ensures received == old(received) + [Signal.OnSubscribe]
    {
      received := received + [Signal.OnSubscribe];
    }

    /** Delivers an error signal. */
    method OnError(error: Exception)
      modifies this
      ensures received == old(received) + [Signal.OnError(error)]
    {
      received := received + [Signal.OnError(error)];
    }
  }

  /** The signals `EmptySubscription.error` sends: the empty subscription,
      then the error. */
  function ErrorSignals(error: Exception): seq<Signal> {
    [Signal.OnSubscribe, Signal.OnError(error)]
  }

  /** `EmptySubscription.error(error, s)`: subscribes `s` to the empty
      subscription and fails it at once. */
  method EmptyError(error: Exception, s: Subscriber)
    modifies s
    ensures s.received == old(s.received) + ErrorSignals(error)
  {
    s.OnSubscribe();
    s.OnError(error);
  }

  /** `n` copies of `xs`, one after the other. */
  function Repeat<T>(xs: seq<T>, n: nat): (r: seq<T>)
    ensures |r| == n * |xs|
    ensures n > 0 ==> r[..|xs|] == xs
  {
    if n == 0 then [] else Repeat(xs, n - 1) + xs
  }

  /** The error every offered subscriber gets on a mismatch. */
  function MismatchError(parallelism: int32, subscribers: int): Exception {
    IllegalArgument(ParallelismMismatch(parallelism, subscribers))
  }

  ghost predicate Distinct<T>(s: seq<T>) {
    forall i, j | 0 <= i < j < |s| :: s[i] != s[j]
  }

  /** `validate(subscribers)`: on a length mismatch every entry of the array
      is sent one mismatch error (an object listed twice gets two) and the
      result is false; otherwise nobody is signalled and the result is true.
      Objects outside the array are never touched. */
  method Validate(flow: Rails, subscribers: array<Subscriber>) returns (ok: bool)
    modifies set i | 0 <= i < subscribers.Length :: subscribers[i]
    ensures ok <==> subscribers.Length == Parallelism(flow) as int
    ensures ok ==> forall i | 0 <= i < subscribers.Length ::
      subscribers[i].received == old(subscribers[i].received)
    ensures !ok ==> forall i | 0 <= i < subscribers.Length ::
      subscribers[i].received == old(subscribers[i].received)
        + Repeat(ErrorSignals(MismatchError(Parallelism(flow), subscribers.Length)),
                 multiset(subscribers[..])[subscribers[i]])
  {
    var p := Parallelism(flow);
    if subscribers.Length != p as int {
      ErrorAll(subscribers, MismatchError(p, subscribers.Length));
      return false;
    }
    return true;
  }

  /** Sends `error` through the empty subscription to every entry of the
      array, in order; an object listed several times receives it once per
      entry. */
  method ErrorAll(subscribers: array<Subscriber>, error: Exception)
    modifies set i | 0 <= i < subscribers.Length :: subscribers[i]
    ensures forall i | 0 <= i < subscribers.Length ::
      subscribers[i].received == old(subscribers[i].received)
        + Repeat(ErrorSignals(error), multiset(subscribers[..])[subscribers[i]])
  {
    var subs := subscribers[..];
    ghost var initial := seq(|subs|, i requires 0 <= i < |subs| reads subs => subs[i].received);
    for k := 0 to |subs|
      invariant forall i | 0 <= i < |subs| ::
        subs[i].received == initial[i] + SentTo(subs, k, subs[i], error)
    {
      assert subs[k] == subscribers[k];
      ErrorEntry(subs, k, error, initial);
    }
    assert subs[..|subs|] == subs;
  }

  /** One turn of the loop in `ErrorAll`: entry `k` receives the error
      signals, so every entry holding that object has been sent them once
      more. */
  method ErrorEntry(subs: seq<Subscriber>, k: nat, error: Exception, ghost initial: seq<seq<Signal>>)
    requires k < |subs| == |initial|
    requires forall i | 0 <= i < |subs| ::
      subs[i].received == initial[i] + SentTo(subs, k, subs[i], error)
    modifies subs[k]
    ensures forall i | 0 <= i < |subs| ::
      subs[i].received == initial[i] + SentTo(subs, k + 1, subs[i], error)
  {
    EmptyError(error, subs[k]);
    forall i | 0 <= i < |subs|
      ensures subs[i].received == initial[i] + SentTo(subs, k + 1, subs[i], error)
    {
      SentToStep(subs, k, subs[i], error);
    }
  }

  /** What the first `k` entries of `subs` have sent to `x`. */
  ghost function SentTo<T>(subs: seq<T>, k: nat, x: T, error: Exception): seq<Signal>
    requires k <= |subs|
  {
    Repeat(ErrorSignals(error), multiset(subs[..k])[x])
  }

  /** Visiting entry `k` sends `x` the error signals once more exactly when
      the entry is `x`. */
  lemma SentToStep<T>(subs: seq<T>, k: nat, x: T, error: Exception)
    requires k < |subs|
    ensures SentTo(subs, k + 1, x, error)
         == SentTo(subs, k, x, error) + (if x == subs[k] then ErrorSignals(error) else [])
  {
    CountStep(subs, k, x);
  }

  /** Extending a prefix by one entry counts that entry once more. */
  lemma CountStep<T>(s: seq<T>, k: nat, x: T)
    requires k < |s|
    ensures multiset(s[..k + 1])[x] == multiset(s[..k])[x] + (if x == s[k] then 1 else 0)
  {
    assert s[..k + 1] == s[..k] + [s[k]];
  }

  /** In an array of distinct subscribers each entry occurs once, so on a
      mismatch `Validate` sends each exactly one subscription and one
      error. */
  lemma OneErrorPerDistinctSubscriber<T>(subscribers: seq<T>, i: nat, error: Exception)
    requires Distinct(subscribers) && i < |subscribers|
    ensures Repeat(ErrorSignals(error), multiset(subscribers)[subscribers[i]])
         == [Signal.OnSubscribe, Signal.OnError(error)]
  {
    DistinctOccursOnce(subscribers, i);
  }

  /** One fresh subscriber offered to a flow over two publishers: the call
      fails, and the subscriber sees the empty subscription and then the
      mismatch error naming parallelism 2 and 1 subscriber. */
  method MismatchExample() returns (ok: bool, signals: seq<Signal>)
    ensures !ok
    ensures signals == [Signal.OnSubscribe, Signal.OnError(IllegalArgument(ParallelismMismatch(2, 1)))]
  {
    var flow := ParallelFromArray([Some(PublisherRef(0)), Some(PublisherRef(1))]);
    var s := new Subscriber();
    var subscribers := new Subscriber[1](_ => s);
    ok := Validate(flow, subscribers);
    assert subscribers[..] == [s];
    OneErrorPerDistinctSubscriber(subscribers[..], 0, MismatchError(2, 1));
    signals := s.received;
  }

  /** Each entry of a sequence without repetitions occurs once. */
  lemma {:induction false} DistinctOccursOnce<T>(s: seq<T>, i: nat)
    requires Distinct(s) && i < |s|
    ensures multiset(s)[s[i]] == 1
  {
    var n := |s|;
    var front := s[..n - 1];
    assert s == front + [s[n - 1]];
    if i == n - 1 {
      assert s[i] !in front;
    } else {
      DistinctOccursOnce(front, i);
      assert front[i] == s[i] != s[n - 1];
    }
  }
}
