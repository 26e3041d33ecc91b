/** Goroutines and the channel they report to: who finishes when is up to the scheduler. */
module Channels {
  import opened Types
  import opened Chunks

  // ---------------------------------------------------------------- scheduling

  /** The position of the next goroutine to finish; an oracle that names none means the first. */
  function Pick(pick: nat -> nat, t: nat, m: nat): (j: nat)
    requires m > 0
    ensures j < m
  {
    if pick(t) < m then pick(t) else 0
  }

  function Without(xs: seq<nat>, j: nat): seq<nat>
    requires j < |xs|
  {
    xs[..j] + xs[j + 1..]
  }

  /**
   The order in which the pending goroutines finish: whenever somebody can finish, the oracle picks who.
   EveryOrder shows that no order is left out.
   */
  function Schedule(pick: nat -> nat, t: nat, pending: seq<nat>): seq<nat>
    decreases |pending|
  {
    if pending == [] then []
    else
      var j := Pick(pick, t, |pending|);
      [pending[j]] + Schedule(pick, t + 1, Without(pending, j))
  }

  function Upto(n: nat): seq<nat> {
    seq(n, i => i)
  }

  lemma {:induction false} SchedulePermutes(pick: nat -> nat, t: nat, pending: seq<nat>)
    ensures multiset(Schedule(pick, t, pending)) == multiset(pending)
    decreases |pending|
  {
    if pending != [] {
      var j := Pick(pick, t, |pending|);
      SchedulePermutes(pick, t + 1, Without(pending, j));
      assert pending == pending[..j] + [pending[j]] + pending[j + 1..];
    }
  }

  lemma {:induction false} SameFuture(p: nat -> nat, q: nat -> nat, t: nat, pending: seq<nat>)
    requires forall k: nat | k >= t :: p(k) == q(k)
    ensures Schedule(p, t, pending) == Schedule(q, t, pending)
    decreases |pending|
  {
    if pending != [] {
      SameFuture(p, q, t + 1, Without(pending, Pick(p, t, |pending|)));
    }
  }

  /** Taking the same element off two arrangements of a bag leaves two arrangements of a bag. */
  lemma TakeOff(order: seq<nat>, pending: seq<nat>) returns (j: nat)
    requires order != [] && multiset(order) == multiset(pending)
    ensures j < |pending| && pending[j] == order[0]
    ensures multiset(order[1..]) == multiset(Without(pending, j))
  {
    assert order[0] in multiset(order);
    j :| j < |pending| && pending[j] == order[0];
    assert order == [order[0]] + order[1..];
    assert pending == pending[..j] + [pending[j]] + pending[j + 1..];
    assert multiset(order[1..]) == multiset(order) - multiset{order[0]};
    assert multiset(Without(pending, j)) == multiset(pending) - multiset{order[0]};
  }

  /** Every order in which the pending goroutines can finish is the schedule of some oracle. */
  lemma {:induction false} EveryOrder(order: seq<nat>, t: nat, pending: seq<nat>) returns (pick: nat -> nat)
    requires multiset(order) == multiset(pending)
    ensures Schedule(pick, t, pending) == order
    decreases |order|
  {
    assert |order| == |multiset(order)| == |multiset(pending)| == |pending|;
    pick := _ => 0;
    if order != [] {
      var j := TakeOff(order, pending);
      var rest := EveryOrder(order[1..], t + 1, Without(pending, j));
      pick := k => if k == t then j else rest(k);
      SameFuture(pick, rest, t + 1, Without(pending, j));
    }
  }

  /** As long as goroutines are pending, the oracle picks the next one to finish. */
  method CompletionOrder(pick: nat -> nat, t: nat, m: nat) returns (order: seq<nat>)
    ensures order == Schedule(pick, t, Upto(m))
  {
    hide Schedule;
    var pending, now := Upto(m), t;
    order := [];
    while pending != []
      invariant order + Schedule(pick, now, pending) == Schedule(pick, t, Upto(m))
      decreases |pending|
    {
      var j := Pick(pick, now, |pending|);
      ScheduleStep(pick, now, pending, order);
      order := order + [pending[j]];
      pending, now := Without(pending, j), now + 1;
    }
    ScheduleDone(pick, now);
  }

  lemma ScheduleDone(pick: nat -> nat, t: nat)
    ensures Schedule(pick, t, []) == []
  {
  }

  lemma ScheduleStep(pick: nat -> nat, t: nat, pending: seq<nat>, order: seq<nat>)
    requires pending != []
    ensures var j := Pick(pick, t, |pending|);
            order + Schedule(pick, t, pending) ==
            (order + [pending[j]]) + Schedule(pick, t + 1, Without(pending, j))
  {
  }

  lemma SeqAssoc<T>(a: seq<T>, b: seq<T>, c: seq<T>)
    ensures a + (b + c) == (a + b) + c
  {
  }

  // ---------------------------------------------------------------- what arrives

  function Nth<T>(replies: seq<Reply<seq<T>>>, i: nat): Reply<seq<T>> {
    if i < |replies| then replies[i] else Err(Panicked)
  }

  /** The replies in the order in which the goroutines finish. */
  function Arrivals<T>(replies: seq<Reply<seq<T>>>, order: seq<nat>): seq<Reply<seq<T>>> {
    if order == [] then [] else [Nth(replies, order[0])] + Arrivals(replies, order[1..])
  }

  predicate AnyFailed<T>(rs: seq<Reply<seq<T>>>) {
    exists i :: 0 <= i < |rs| && rs[i].Err?
  }

  /** The successful results, appended in the given order. */
  function Drained<T>(rs: seq<Reply<seq<T>>>): seq<T> {
    if rs == [] then [] else (if rs[0].Ok? then rs[0].value else []) + Drained(rs[1..])
  }

  lemma {:induction false} DrainedConcat<T>(a: seq<Reply<seq<T>>>, b: seq<Reply<seq<T>>>)
    ensures Drained(a + b) == Drained(a) + Drained(b)
  {
    if a == [] {
      assert a + b == b;
    } else {
      DrainedConcat(a[1..], b);
      assert (a + b)[1..] == a[1..] + b;
    }
  }

  lemma FailedConcat<T>(a: seq<Reply<seq<T>>>, b: seq<Reply<seq<T>>>)
    ensures AnyFailed(a + b) <==> AnyFailed(a) || AnyFailed(b)
  {
    if AnyFailed(a) {
      var i :| 0 <= i < |a| && a[i].Err?;
      assert (a + b)[i].Err?;
    }
    if AnyFailed(b) {
      var i :| 0 <= i < |b| && b[i].Err?;
      assert (a + b)[|a| + i].Err?;
    }
  }

  lemma {:induction false} ArrivalsConcat<T>(replies: seq<Reply<seq<T>>>, a: seq<nat>, b: seq<nat>)
    ensures Arrivals(replies, a + b) == Arrivals(replies, a) + Arrivals(replies, b)
  {
    if a == [] {
      assert a + b == b;
    } else {
      assert (a + b)[1..] == a[1..] + b;
      ArrivalsConcat(replies, a[1..], b);
    }
  }

  lemma MoveToFront<T>(ra: seq<Reply<seq<T>>>, rx: seq<Reply<seq<T>>>, rb: seq<Reply<seq<T>>>)
    ensures multiset(Drained(ra + (rx + rb))) == multiset(Drained(rx)) + multiset(Drained(ra + rb))
    ensures AnyFailed(ra + (rx + rb)) <==> AnyFailed(rx) || AnyFailed(ra + rb)
  {
    DrainedConcat(ra, rx + rb);
    DrainedConcat(rx, rb);
    DrainedConcat(ra, rb);
    FailedConcat(ra, rx + rb);
    FailedConcat(rx, rb);
    FailedConcat(ra, rb);
  }

  lemma ArrivalsSplit<T>(replies: seq<Reply<seq<T>>>, pending: seq<nat>, j: nat)
    requires j < |pending|
    ensures var ra, rx := Arrivals(replies, pending[..j]), Arrivals(replies, [pending[j]]);
            var rb := Arrivals(replies, pending[j + 1..]);
            && Arrivals(replies, pending) == ra + (rx + rb)
            && Arrivals(replies, Without(pending, j)) == ra + rb
  {
    var a, x, b := pending[..j], [pending[j]], pending[j + 1..];
    assert pending == a + (x + b);
    ArrivalsConcat(replies, a, x + b);
    ArrivalsConcat(replies, x, b);
    ArrivalsConcat(replies, a, b);
  }

  lemma {:induction false} ScheduledArrivals<T>(replies: seq<Reply<seq<T>>>, pick: nat -> nat, t: nat, pending: seq<nat>)
    ensures var inOrder, arrived := Arrivals(replies, pending), Arrivals(replies, Schedule(pick, t, pending));
            multiset(Drained(arrived)) == multiset(Drained(inOrder)) &&
            (AnyFailed(arrived) <==> AnyFailed(inOrder))
    decreases |pending|
  {
    if pending != [] {
      var j := Pick(pick, t, |pending|);
      var rest := Without(pending, j);
      ArrivalsSplit(replies, pending, j);
      var rx := Arrivals(replies, [pending[j]]);
      MoveToFront(Arrivals(replies, pending[..j]), rx, Arrivals(replies, pending[j + 1..]));
      ScheduledArrivals(replies, pick, t + 1, rest);
      var order := Schedule(pick, t + 1, rest);
      assert Schedule(pick, t, pending) == [pending[j]] + order;
      ArrivalsConcat(replies, [pending[j]], order);
      DrainedConcat(rx, Arrivals(replies, order));
      FailedConcat(rx, Arrivals(replies, order));
    }
  }

  lemma {:induction false} ArrivalsInOrder<T>(replies: seq<Reply<seq<T>>>, order: seq<nat>, lo: nat)
    requires lo <= |replies| && order == seq(|replies| - lo, i => lo + i)
    ensures Arrivals(replies, order) == replies[lo..]
    decreases |order|
  {
    if order != [] {
      assert order[1..] == seq(|replies| - (lo + 1), i => lo + 1 + i);
      ArrivalsInOrder(replies, order[1..], lo + 1);
    }
  }

  /**
   Whatever the order in which the goroutines finish, it changes neither what is collected, as a multiset, nor whether
   anything failed.
   */
  lemma ArrivalOrderIrrelevant<T>(replies: seq<Reply<seq<T>>>, order: seq<nat>)
    requires multiset(order) == multiset(Upto(|replies|))
    ensures multiset(Drained(Arrivals(replies, order))) == multiset(Drained(replies))
    ensures AnyFailed(Arrivals(replies, order)) <==> AnyFailed(replies)
  {
    var pick := EveryOrder(order, 0, Upto(|replies|));
    ScheduleIrrelevant(replies, pick, 0);
  }

  /** The same for the order an oracle picks. */
  lemma ScheduleIrrelevant<T>(replies: seq<Reply<seq<T>>>, pick: nat -> nat, t: nat)
    ensures var arrived := Arrivals(replies, Schedule(pick, t, Upto(|replies|)));
            && multiset(Drained(arrived)) == multiset(Drained(replies))
            && (AnyFailed(arrived) <==> AnyFailed(replies))
  {
    ScheduledArrivals(replies, pick, t, Upto(|replies|));
    assert Upto(|replies|) == seq(|replies| - 0, i => 0 + i);
    ArrivalsInOrder(replies, Upto(|replies|), 0);
    assert replies[0..] == replies;
  }

  /** The goroutines finish one by one, each putting its result or its error on a channel. */
  method Collect<T>(replies: seq<Reply<seq<T>>>, order: seq<nat>) returns (results: seq<seq<T>>, errors: nat)
    ensures Flatten(results) == Drained(Arrivals(replies, order))
    ensures errors > 0 <==> AnyFailed(Arrivals(replies, order))
  {
    results, errors := [], 0;
    for k := 0 to |order|
      invariant Flatten(results) == Drained(Arrivals(replies, order[..k]))
      invariant errors > 0 <==> AnyFailed(Arrivals(replies, order[..k]))
    {
      var reply := Nth(replies, order[k]);
      NextArrival(replies, order, k);
      if reply.Err? {
        errors := errors + 1;
      } else {
        FlattenSnoc(results, reply.value);
        results := results + [reply.value];
      }
    }
    assert order[..|order|] == order;
  }

  lemma NextArrival<T>(replies: seq<Reply<seq<T>>>, order: seq<nat>, k: nat)
    requires k < |order|
    ensures var reply := Nth(replies, order[k]);
            var sofar, after := Arrivals(replies, order[..k]), Arrivals(replies, order[..k + 1]);
            && Drained(after) == Drained(sofar) + (if reply.Ok? then reply.value else [])
            && (AnyFailed(after) <==> AnyFailed(sofar) || reply.Err?)
  {
    var reply := Nth(replies, order[k]);
    assert order[..k + 1] == order[..k] + [order[k]];
    ArrivalsConcat(replies, order[..k], [order[k]]);
    assert Arrivals(replies, [order[k]]) == [reply];
    DrainedConcat(Arrivals(replies, order[..k]), [reply]);
    FailedConcat(Arrivals(replies, order[..k]), [reply]);
    assert [reply][0] == reply;
  }
}
