/** The synchronized queue: what each critical section does to the guarded fields. */
module SyncQueue {

  datatype Status = Success | Closed

  /** Which condition variables a critical section wakes when it is left. */
  datatype Notice = Nobody | OneSleeper | AllSleepers

  /** The fields that the mutex guards. */
  datatype Guarded<T> = Guarded(queue: seq<T>, waiting: nat, level: nat, closed: bool)

  const DEFAULT_LEVEL: nat := 500

  function Fresh<T>(): Guarded<T> {
    Guarded([], 0, DEFAULT_LEVEL, false)
  }

  /** The condition pull_front waits for. */
  predicate Ready<T>(q: Guarded<T>) {
    q.queue != [] || q.closed
  }

  /** The condition wait_for_worker_completion waits for. */
  predicate Complete<T>(q: Guarded<T>) {
    (q.waiting == q.level && q.queue == []) || q.closed
  }

  function Entered<T>(q: Guarded<T>): Guarded<T> {
    q.(waiting := q.waiting + 1)
  }

  function Left<T>(q: Guarded<T>): Guarded<T>
    requires Ready(q) && q.waiting > 0
  {
    q.(waiting := q.waiting - 1, queue := if q.queue == [] then [] else q.queue[1..])
  }

  function Appended<T>(q: Guarded<T>, xs: seq<T>): Guarded<T> {
    if q.closed then q else q.(queue := q.queue + xs)
  }

  function Levelled<T>(q: Guarded<T>, workers: nat): Guarded<T> {
    if workers > 0 then q.(level := workers) else q
  }

  /**
    * sync_queue as a class. A wait on a condition variable releases the mutex, so a
    * call that waits is two methods: up to the first wait, and from a wake-up on.
    */
  class Queue<T> {
    var underlyingQueue: seq<T>
    var numWaitingThreads: nat
    var notificationLevel: nat
    var closed: bool

    ghost function State(): Guarded<T>
      reads this
    {
      Guarded(underlyingQueue, numWaitingThreads, notificationLevel, closed)
    }

    constructor ()
      ensures State() == Fresh()
    {
      underlyingQueue := [];
      numWaitingThreads := 0;
      notificationLevel := DEFAULT_LEVEL;
      closed := false;
    }

    method Close() returns (notice: Notice)
      modifies this
      ensures State() == old(State()).(closed := true)
      ensures notice == AllSleepers
    {
      closed := true;
      notice := AllSleepers;
    }

    /** push_back of one value, by copy or by move. */
    method PushBack(x: T) returns (status: Status, notice: Notice)
      modifies this
      ensures State() == Appended(old(State()), [x])
      ensures status == if old(closed) then Closed else Success
      ensures notice == if old(closed) then Nobody else OneSleeper
    {
      if closed {
        return Closed, Nobody;
      }
      underlyingQueue := underlyingQueue + [x];
      return Success, OneSleeper;
    }

    /** push_back of a whole container. */
    method PushBackAll(xs: seq<T>) returns (status: Status, notice: Notice)
      modifies this
      ensures State() == Appended(old(State()), xs)
      ensures status == if old(closed) then Closed else Success
      ensures notice == if old(closed) then Nobody else AllSleepers
    {
      if closed {
        return Closed, Nobody;
      }
      underlyingQueue := underlyingQueue + xs;
      return Success, AllSleepers;
    }

    /** pull_front up to its wait: a sleeper counts as waiting, and the last one reports it. */
    method PullEnter() returns (ready: bool, completionNotice: Notice)
      modifies this
      ensures State() == Entered(old(State()))
      ensures ready == Ready(State())
      ensures ready <==> closed || underlyingQueue != []
      ensures completionNotice == if numWaitingThreads == notificationLevel then AllSleepers else Nobody
    {
      numWaitingThreads := numWaitingThreads + 1;
      completionNotice := Nobody;
      if numWaitingThreads == notificationLevel {
        completionNotice := AllSleepers;
      }
      ready := |underlyingQueue| != 0 || closed;
    }

    /** The rest of pull_front, once the condition holds under the lock. */
    method PullLeave() returns (status: Status, x: seq<T>)
      requires Ready(State()) && numWaitingThreads > 0
      modifies this
      ensures State() == Left(old(State()))
      ensures status == if old(underlyingQueue) == [] then Closed else Success
      ensures x == if status == Closed then [] else [old(underlyingQueue)[0]]
      ensures status == Success ==> old(underlyingQueue) == x + underlyingQueue
    {
      numWaitingThreads := numWaitingThreads - 1;
      if |underlyingQueue| == 0 && closed {
        return Closed, [];
      }
      x := [underlyingQueue[0]];
      underlyingQueue := underlyingQueue[1..];
      status := Success;
    }

    /** wait_for_worker_completion up to its wait. */
    method AwaitEnter(workers: nat) returns (complete: bool, completionNotice: Notice)
      modifies this
      ensures State() == Levelled(old(State()), workers)
      ensures complete == Complete(State())
      ensures closed ==> complete
      ensures workers > 0 && !closed ==> (complete <==> numWaitingThreads == workers && underlyingQueue == [])
      ensures completionNotice == AllSleepers
    {
      if workers > 0 {
        notificationLevel := workers;
      }
      completionNotice := AllSleepers;
      complete := (numWaitingThreads == notificationLevel && |underlyingQueue| == 0) || closed;
    }

    /** The rest of wait_for_worker_completion. */
    method AwaitLeave() returns (status: Status)
      requires Complete(State())
      ensures status == if closed then Closed else Success
      ensures status == Success ==> underlyingQueue == [] && numWaitingThreads == notificationLevel
    {
      status := if closed then Closed else Success;
    }
  }
}
