/**
  * The methods of the queue are steps of its protocol: what one of them does to the fields, and whom it then
  * notifies, is what the protocol lets the calling thread do.
  */
module QueueSteps {
  import opened SyncQueue
  import opened QueueProtocol

  /** What a thread has still to do when it leaves a critical section. */
  function Owes(notice: Notice): Pc {
    match notice
    case Nobody => Running
    case OneSleeper => OwesOne
    case AllSleepers => OwesAll
  }

  /** The threads once the waiters for completion have been notified, or not: that is done under the mutex. */
  function Told(pcs: seq<Pc>, notice: Notice): seq<Pc> {
    if notice == AllSleepers then WakeCompletion(pcs) else pcs
  }

  method PushStep<T(==)>(q: Queue<T>, ghost s: System<T>, t: nat, x: T)
    returns (status: Status, ghost s': System<T>)
    requires q.State() == s.q && t < |s.pcs| && s.pcs[t] == Running
    modifies q
    ensures s'.q == q.State() && Step(s, t, if status == Success then Push(x) else Refused, s')
  {
    var notice;
    status, notice := q.PushBack(x);
    s' := System(q.State(), s.pcs[t := Owes(notice)]);
  }

  method PushAllStep<T(==)>(q: Queue<T>, ghost s: System<T>, t: nat, xs: seq<T>)
    returns (status: Status, ghost s': System<T>)
    requires q.State() == s.q && t < |s.pcs| && s.pcs[t] == Running
    modifies q
    ensures s'.q == q.State() && Step(s, t, if status == Success then PushAll(xs) else Refused, s')
  {
    var notice;
    status, notice := q.PushBackAll(xs);
    s' := System(q.State(), s.pcs[t := Owes(notice)]);
  }

  method CloseStep<T(==)>(q: Queue<T>, ghost s: System<T>, t: nat) returns (ghost s': System<T>)
    requires q.State() == s.q && t < |s.pcs| && s.pcs[t] == Running
    modifies q
    ensures s'.q == q.State() && Step(s, t, Close, s')
  {
    var notice := q.Close();
    s' := System(q.State(), s.pcs[t := Owes(notice)]);
  }

  /** pull_front, from its start or from a wake-up on, up to its wait or its return. */
  method PullStep<T(==)>(q: Queue<T>, ghost s: System<T>, t: nat, woken: bool)
    returns (blocks: bool, status: Status, x: seq<T>, ghost s': System<T>)
    requires q.State() == s.q && t < |s.pcs| && s.pcs[t] == (if woken then Woken else Running)
    requires woken ==> s.q.waiting > 0
    modifies q
    ensures !blocks && status == Success ==> |x| == 1
    ensures s'.q == q.State()
    ensures Step(s, t, if blocks then PullBlocks else if status == Success then Pull(x[0]) else PullClosed, s')
  {
    var ready, notice := |q.underlyingQueue| != 0 || q.closed, Nobody;
    if !woken {
      ready, notice := q.PullEnter();
    }
    blocks, status, x := !ready, Closed, [];
    if ready {
      status, x := q.PullLeave();
    }
    s' := System(q.State(), Told(s.pcs, notice)[t := if blocks then Asleep else Running]);
  }

  /** wait_for_worker_completion, from its start or from a wake-up on, up to its wait or its return. */
  method AwaitStep<T(==)>(q: Queue<T>, ghost s: System<T>, t: nat, workers: nat, woken: bool)
    returns (blocks: bool, status: Status, ghost s': System<T>)
    requires q.State() == s.q && t < |s.pcs| && s.pcs[t] == (if woken then WokenByWorkers else Running)
    modifies q
    ensures s'.q == q.State()
    ensures Step(s, t, if blocks then AwaitBlocks(workers) else AwaitReturns(workers, status), s')
  {
    var complete, notice :=
      (q.numWaitingThreads == q.notificationLevel && |q.underlyingQueue| == 0) || q.closed, Nobody;
    if !woken {
      complete, notice := q.AwaitEnter(workers);
    }
    blocks, status := !complete, Closed;
    if complete {
      status := q.AwaitLeave();
    }
    s' := System(q.State(), Told(s.pcs, notice)[t := if blocks then AwaitingWorkers else Running]);
  }
}
