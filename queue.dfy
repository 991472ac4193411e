/**
 * xxx::queue<T>: a FIFO of events with a one-way termination flag. The
 * mutex and condition variable are not modelled: a dequeue that would
 * block (empty and not terminated) is excluded by its precondition.
 */
module EventQueue {
  import opened Wrappers

  /** queue::terminated_error. */
  datatype QueueError = Terminated

  /** The state of a queue: the pending events (queue_) and finished_. */
  datatype QueueState<T> = QueueState(items: seq<T>, finished: bool)

  /** A queue that has been terminated holds no events. */
  predicate Consistent<T>(q: QueueState<T>) {
    q.finished ==> q.items == []
  }

  /** The state of a new queue. */
  function Fresh<T>(): QueueState<T> {
    QueueState([], false)
  }

  /** enqueue(t): terminated_error once finished, otherwise t joins the back. */
  function EnqueueSpec<T>(q: QueueState<T>, t: T): (Result<(), QueueError>, QueueState<T>) {
    if q.finished then (Failure(Terminated), q)
    else (Success(()), q.(items := q.items + [t]))
  }

  /**
   * dequeue(t), once it no longer waits: terminated_error once finished,
   * otherwise the front event, removed.
   */
  function DequeueSpec<T>(q: QueueState<T>): (Result<T, QueueError>, QueueState<T>)
    requires q.items != [] || q.finished
  {
    if q.finished then (Failure(Terminated), q)
    else (Success(q.items[0]), q.(items := q.items[1..]))
  }

  /** terminate(): finished, and nothing pending. */
  function TerminateSpec<T>(q: QueueState<T>): QueueState<T> {
    QueueState([], true)
  }

  /** Every operation keeps a consistent queue consistent. */
  lemma OperationsKeepConsistency<T>(q: QueueState<T>, t: T)
    requires Consistent(q)
    ensures Consistent(EnqueueSpec(q, t).1)
    ensures q.items != [] || q.finished ==> Consistent(DequeueSpec(q).1)
    ensures Consistent(TerminateSpec(q))
  {
  }

  /** Once finished, always finished: no operation resets the flag. */
  lemma FinishedIsFinal<T>(q: QueueState<T>, t: T)
    requires q.finished
    ensures EnqueueSpec(q, t) == (Failure(Terminated), q)
    ensures DequeueSpec(q) == (Failure(Terminated), q)
    ensures TerminateSpec(q).finished
  {
  }

  /** Terminating twice is terminating once. */
  lemma TerminateIdempotent<T>(q: QueueState<T>)
    ensures TerminateSpec(TerminateSpec(q)) == TerminateSpec(q)
    ensures TerminateSpec(q).finished && TerminateSpec(q).items == []
  {
  }

  /** Enqueue each of xs in turn. */
  function EnqueueAll<T>(q: QueueState<T>, xs: seq<T>): QueueState<T>
    decreases |xs|
  {
    if xs == [] then q else EnqueueAll(EnqueueSpec(q, xs[0]).1, xs[1..])
  }

  /** Dequeue n times from a queue that is not finished, collecting the events. */
  function Drain<T>(q: QueueState<T>, n: nat): seq<T>
    requires !q.finished && n <= |q.items|
    decreases n
  {
    if n == 0 then []
    else
      var (r, q') := DequeueSpec(q);
      [r.value] + Drain(q', n - 1)
  }

  /** Enqueueing into a running queue appends, in order. */
  lemma {:induction false} EnqueueAllAppends<T>(q: QueueState<T>, xs: seq<T>)
    requires !q.finished
    ensures EnqueueAll(q, xs) == q.(items := q.items + xs)
    decreases |xs|
  {
    if xs != [] {
      var q' := EnqueueSpec(q, xs[0]).1;
      EnqueueAllAppends(q', xs[1..]);
      assert q.items + [xs[0]] + xs[1..] == q.items + xs;
    }
  }

  /** Dequeueing n times yields the first n events, front first. */
  lemma {:induction false} DrainTakesFront<T>(q: QueueState<T>, n: nat)
    requires !q.finished && n <= |q.items|
    ensures Drain(q, n) == q.items[..n]
    decreases n
  {
    if n > 0 {
      var q' := DequeueSpec(q).1;
      DrainTakesFront(q', n - 1);
      assert q.items[..n] == [q.items[0]] + q.items[1..][..n - 1];
    }
  }

  /** FIFO: the events of a new queue come out in the order they went in. */
  lemma Fifo<T>(xs: seq<T>)
    ensures var q := EnqueueAll(Fresh(), xs); !q.finished && |q.items| == |xs| && Drain(q, |xs|) == xs
  {
    EnqueueAllAppends(Fresh(), xs);
    DrainTakesFront(EnqueueAll(Fresh(), xs), |xs|);
    assert xs[..|xs|] == xs;
  }

  /** queue<T>. */
  class Queue<T> {
    var items: seq<T>
    var finished: bool

    function State(): QueueState<T>
      reads this
    {
      QueueState(items, finished)
    }

    /** queue(): empty and not terminated. */
    constructor ()
      ensures State() == Fresh()
    {
      items := [];
      finished := false;
    }

    /** enqueue(t). */
    method Enqueue(t: T) returns (r: Result<(), QueueError>)
      modifies this
      ensures (r, State()) == EnqueueSpec(old(State()), t)
    {
      if finished {
        return Failure(Terminated);
      }
      items := items + [t];
      return Success(());
    }

    /** dequeue(t): the event is returned instead of assigned through t. */
    method Dequeue() returns (r: Result<T, QueueError>)
      requires items != [] || finished
      modifies this
      ensures (r, State()) == DequeueSpec(old(State()))
    {
      if finished {
        return Failure(Terminated);
      }
      r := Success(items[0]);
      items := items[1..];
    }

    /** terminate(). */
    method Terminate()
      modifies this
      ensures State() == TerminateSpec(old(State()))
    {
      finished := true;
      items := [];
    }

    /** ~queue(): terminates. */
    method Dispose()
      modifies this
      ensures State() == TerminateSpec(old(State()))
    {
      Terminate();
    }

    /** empty(): whether no event is pending. */
    method Empty() returns (b: bool)
      ensures b <==> State().items == []
    {
      return |items| == 0;
    }

    /** terminated(): whether terminate has run. */
    method IsTerminated() returns (b: bool)
      ensures b == State().finished
    {
      return finished;
    }
  }
}
