/**
  * Threads sharing one synchronized queue. Every step is one critical section or one notify: the
  * queue drops its mutex before it notifies, so a thread owes the notify until a later step.
  */
module QueueProtocol {
  import opened SyncQueue

  /** Where a thread stands with respect to the queue's two condition variables. */
  datatype Pc =
    | Running
    | OwesOne                 // has yet to call notify_one()
    | OwesAll                 // has yet to call notify_all()
    | Asleep                  // in pull_front's wait
    | Woken                   // notified there, and has yet to take the mutex again
    | AwaitingWorkers         // in wait_for_worker_completion's wait
    | WokenByWorkers          // notified there, and has yet to take the mutex again

  datatype System<T> = System(q: Guarded<T>, pcs: seq<Pc>)

  /** What a step does to the queue, seen by the thread that takes it. */
  datatype Event<T> =
    | Push(x: T)
    | PushAll(xs: seq<T>)
    | Refused
    | Close
    | NotifyOne(sleeper: nat)
    | NotifyNobody
    | NotifyAll
    | Pull(item: T)
    | PullClosed
    | PullBlocks
    | AwaitBlocks(workers: nat)
    | AwaitReturns(workers: nat, status: Status)
    | Spurious

  /** How many threads are in state p. */
  function Count(pcs: seq<Pc>, p: Pc): nat {
    if pcs == [] then 0 else (if pcs[0] == p then 1 else 0) + Count(pcs[1..], p)
  }

  /** Every thread in state from goes to state to: what notify_all does. */
  function Wake(pcs: seq<Pc>, from: Pc, to: Pc): (r: seq<Pc>)
    ensures |r| == |pcs|
    ensures forall i :: 0 <= i < |pcs| ==> r[i] == if pcs[i] == from then to else pcs[i]
  {
    if pcs == [] then []
    else [if pcs[0] == from then to else pcs[0]] + Wake(pcs[1..], from, to)
  }

  function WakeCompletion(pcs: seq<Pc>): seq<Pc> {
    Wake(pcs, AwaitingWorkers, WokenByWorkers)
  }

  /** The fields once a pulling thread is counted: a woken one already is. */
  function Counted<T>(q: Guarded<T>, pc: Pc): Guarded<T> {
    if pc == Woken then q else Entered(q)
  }

  /** The threads once a pulling thread is counted: the one that reaches the level wakes the master. */
  function Announced<T>(s: System<T>, pc: Pc): seq<Pc> {
    if pc != Woken && s.q.waiting + 1 == s.q.level then WakeCompletion(s.pcs) else s.pcs
  }

  /** The fields as wait_for_worker_completion(workers) sees them when it tests its condition. */
  function Awaited<T>(q: Guarded<T>, pc: Pc, workers: nat): Guarded<T> {
    if pc == WokenByWorkers then q else Levelled(q, workers)
  }

  function AwaitAnnounced(pcs: seq<Pc>, pc: Pc): seq<Pc> {
    if pc == WokenByWorkers then pcs else WakeCompletion(pcs)
  }

  /** Thread t takes the step e. */
  predicate Step<T(==)>(s: System<T>, t: nat, e: Event<T>, s': System<T>)
  {
    t < |s.pcs| &&
    var pc := s.pcs[t];
    match e
    case Push(x) =>
      pc == Running && !s.q.closed &&
      s' == System(Appended(s.q, [x]), s.pcs[t := OwesOne])
    case PushAll(xs) =>
      pc == Running && !s.q.closed &&
      s' == System(Appended(s.q, xs), s.pcs[t := OwesAll])
    case Refused =>
      pc == Running && s.q.closed && s' == s
    case Close =>
      pc == Running &&
      s' == System(s.q.(closed := true), s.pcs[t := OwesAll])
    case NotifyOne(sleeper) =>
      pc == OwesOne && sleeper < |s.pcs| && s.pcs[sleeper] == Asleep &&
      s' == System(s.q, s.pcs[t := Running][sleeper := Woken])
    case NotifyNobody =>
      pc == OwesOne && Count(s.pcs, Asleep) == 0 &&
      s' == System(s.q, s.pcs[t := Running])
    case NotifyAll =>
      pc == OwesAll &&
      s' == System(s.q, Wake(s.pcs[t := Running], Asleep, Woken))
    case Pull(item) =>
      (pc == Running || pc == Woken) && s.q.queue != [] && s.q.queue[0] == item &&
      (pc == Woken ==> s.q.waiting > 0) &&
      s' == System(Left(Counted(s.q, pc)), Announced(s, pc)[t := Running])
    case PullClosed =>
      (pc == Running || pc == Woken) && s.q.queue == [] && s.q.closed &&
      (pc == Woken ==> s.q.waiting > 0) &&
      s' == System(Left(Counted(s.q, pc)), Announced(s, pc)[t := Running])
    case PullBlocks =>
      (pc == Running || pc == Woken) && !Ready(s.q) &&
      s' == System(Counted(s.q, pc), Announced(s, pc)[t := Asleep])
    case AwaitBlocks(workers) =>
      (pc == Running || pc == WokenByWorkers) && !Complete(Awaited(s.q, pc, workers)) &&
      s' == System(Awaited(s.q, pc, workers), AwaitAnnounced(s.pcs, pc)[t := AwaitingWorkers])
    case AwaitReturns(workers, status) =>
      (pc == Running || pc == WokenByWorkers) && Complete(Awaited(s.q, pc, workers)) &&
      status == (if s.q.closed then Closed else Success) &&
      s' == System(Awaited(s.q, pc, workers), AwaitAnnounced(s.pcs, pc)[t := Running])
    case Spurious =>
      (pc == Asleep || pc == AwaitingWorkers) &&
      s' == s.(pcs := s.pcs[t := if pc == Asleep then Woken else WokenByWorkers])
  }

  /** numWaitingThreads counts the threads inside pull_front's wait. */
  ghost predicate CountsSleepers<T>(s: System<T>) {
    s.q.waiting == Count(s.pcs, Asleep) + Count(s.pcs, Woken)
  }

  /**
    * No wake-up is lost: either nobody sleeps unnotified, or a notify_all is on its way, or there
    * are at least as many wake-ups under way as items queued.
    */
  ghost predicate NoLostWakeUp<T>(s: System<T>) {
    Count(s.pcs, Asleep) == 0
    || Count(s.pcs, OwesAll) > 0
    || (!s.q.closed && |s.q.queue| <= Count(s.pcs, Woken) + Count(s.pcs, OwesOne))
  }

  ghost predicate Inv<T>(s: System<T>) {
    CountsSleepers(s) && NoLostWakeUp(s)
  }

  ghost predicate Initial<T>(s: System<T>) {
    s.q == Fresh() && forall i :: 0 <= i < |s.pcs| ==> s.pcs[i] == Running
  }

  // ---------------------------------------------------------------- counting

  /** notify_all moves the whole population of one state to another. */
  lemma {:induction false} WakeCounts(pcs: seq<Pc>, from: Pc, to: Pc, p: Pc)
    requires from != to
    ensures Count(Wake(pcs, from, to), p) ==
            if p == from then 0
            else if p == to then Count(pcs, to) + Count(pcs, from)
            else Count(pcs, p)
  {
    if pcs != [] {
      WakeCounts(pcs[1..], from, to, p);
      var w := Wake(pcs, from, to);
      assert w[1..] == Wake(pcs[1..], from, to);
    }
  }

  /** One thread changes state. */
  lemma {:induction false} MoveCounts(pcs: seq<Pc>, t: nat, to: Pc, p: Pc)
    requires t < |pcs|
    ensures Count(pcs[t := to], p) + (if pcs[t] == p then 1 else 0) == Count(pcs, p) + (if to == p then 1 else 0)
    ensures pcs[t] == p ==> Count(pcs, p) > 0
  {
    if t == 0 {
      assert pcs[0 := to][1..] == pcs[1..];
    } else {
      MoveCounts(pcs[1..], t - 1, to, p);
      assert pcs[t := to][1..] == pcs[1..][t - 1 := to];
    }
  }

  /** A state with a positive count has somebody in it. */
  lemma {:induction false} CountPositive(pcs: seq<Pc>, p: Pc) returns (t: nat)
    requires Count(pcs, p) > 0
    ensures t < |pcs| && pcs[t] == p
  {
    if pcs[0] == p {
      t := 0;
    } else {
      t := CountPositive(pcs[1..], p);
      t := t + 1;
    }
  }

  lemma {:induction false} CountNone(pcs: seq<Pc>, p: Pc)
    requires forall i :: 0 <= i < |pcs| ==> pcs[i] != p
    ensures Count(pcs, p) == 0
  {
    if pcs != [] {
      CountNone(pcs[1..], p);
    }
  }

  lemma InitialInv<T>(s: System<T>)
    requires Initial(s)
    ensures Inv(s)
  {
    CountNone(s.pcs, Asleep);
    CountNone(s.pcs, Woken);
  }

  /** The four populations the invariant speaks of. */
  datatype Census = Census(asleep: nat, woken: nat, one: nat, all: nat)

  function CensusOf(pcs: seq<Pc>): Census {
    Census(Count(pcs, Asleep), Count(pcs, Woken), Count(pcs, OwesOne), Count(pcs, OwesAll))
  }

  function With(c: Census, p: Pc): Census {
    match p
    case Asleep => c.(asleep := c.asleep + 1)
    case Woken => c.(woken := c.woken + 1)
    case OwesOne => c.(one := c.one + 1)
    case OwesAll => c.(all := c.all + 1)
    case _ => c
  }

  lemma MoveCensus(pcs: seq<Pc>, t: nat, to: Pc)
    requires t < |pcs|
    ensures With(CensusOf(pcs[t := to]), pcs[t]) == With(CensusOf(pcs), to)
  {
    MoveCounts(pcs, t, to, Asleep);
    MoveCounts(pcs, t, to, Woken);
    MoveCounts(pcs, t, to, OwesOne);
    MoveCounts(pcs, t, to, OwesAll);
    hide Count;
  }

  lemma WakeCompletionCensus(pcs: seq<Pc>)
    ensures CensusOf(WakeCompletion(pcs)) == CensusOf(pcs)
  {
    WakeCounts(pcs, AwaitingWorkers, WokenByWorkers, Asleep);
    WakeCounts(pcs, AwaitingWorkers, WokenByWorkers, Woken);
    WakeCounts(pcs, AwaitingWorkers, WokenByWorkers, OwesOne);
    WakeCounts(pcs, AwaitingWorkers, WokenByWorkers, OwesAll);
    hide Count, Wake;
  }

  lemma WakeCensus(pcs: seq<Pc>)
    ensures CensusOf(WakeCompletion(pcs)) == CensusOf(pcs)
    ensures CensusOf(Wake(pcs, Asleep, Woken)) ==
            CensusOf(pcs).(asleep := 0, woken := CensusOf(pcs).woken + CensusOf(pcs).asleep)
  {
    WakeCompletionCensus(pcs);
    WakeCounts(pcs, Asleep, Woken, Asleep);
    WakeCounts(pcs, Asleep, Woken, Woken);
    WakeCounts(pcs, Asleep, Woken, OwesOne);
    WakeCounts(pcs, Asleep, Woken, OwesAll);
    hide Count, Wake;
  }

  // ---------------------------------------------------------------- what a step does to the threads

  /** What the steps of other threads can do to a thread: wake it. */
  predicate Undisturbed(before: Pc, after: Pc) {
    after == before || (before == Asleep && after == Woken) || (before == AwaitingWorkers && after == WokenByWorkers)
  }

  /** Where a step takes the thread that takes it. */
  predicate Moves<T>(e: Event<T>, before: Pc, after: Pc) {
    match e
    case Push(_) => before == Running && after == OwesOne
    case PushAll(_) => before == Running && after == OwesAll
    case Refused => before == Running && after == Running
    case Close => before == Running && after == OwesAll
    case NotifyOne(_) => before == OwesOne && after == Running
    case NotifyNobody => before == OwesOne && after == Running
    case NotifyAll => before == OwesAll && after == Running
    case Pull(_) => (before == Running || before == Woken) && after == Running
    case PullClosed => (before == Running || before == Woken) && after == Running
    case PullBlocks => (before == Running || before == Woken) && after == Asleep
    case AwaitBlocks(_) => (before == Running || before == WokenByWorkers) && after == AwaitingWorkers
    case AwaitReturns(_, _) => (before == Running || before == WokenByWorkers) && after == Running
    case Spurious => (before == Asleep && after == Woken) || (before == AwaitingWorkers && after == WokenByWorkers)
  }

  lemma StepMoves<T>(s: System<T>, t: nat, e: Event<T>, s': System<T>)
    requires Step(s, t, e, s')
    ensures |s'.pcs| == |s.pcs| && t < |s.pcs|
    ensures Moves(e, s.pcs[t], s'.pcs[t])
    ensures forall i :: 0 <= i < |s.pcs| && i != t ==> Undisturbed(s.pcs[i], s'.pcs[i])
  {
    hide Count;
  }

  /** What a step does to the guarded fields. */
  lemma StepGuards<T>(s: System<T>, t: nat, e: Event<T>, s': System<T>)
    requires Step(s, t, e, s')
    ensures t < |s.pcs|
    ensures s'.q.closed == (s.q.closed || e.Close?)
    ensures !e.AwaitBlocks? && !e.AwaitReturns? ==> s'.q.level == s.q.level
    ensures s'.q.queue == match e
                          case Push(x) => s.q.queue + [x]
                          case PushAll(xs) => s.q.queue + xs
                          case Pull(_) => s.q.queue[1..]
                          case _ => s.q.queue
    ensures e.Pull? ==> s.q.queue != [] && s.q.queue[0] == e.item
    ensures e.PullClosed? ==> s.q.queue == [] && s.q.closed
    ensures e.PullBlocks? ==> s.q.queue == [] && !s.q.closed
    ensures e.Push? || e.PushAll? ==> !s.q.closed
    ensures e.Refused? ==> s.q.closed
    ensures e.AwaitBlocks? ==> s'.q == Awaited(s.q, s.pcs[t], e.workers) && !Complete(s'.q)
    ensures e.AwaitReturns? ==> s'.q == Awaited(s.q, s.pcs[t], e.workers) && Complete(s'.q)
    ensures e.AwaitReturns? ==> e.status == if s.q.closed then Closed else Success
  {
    hide Count, Wake;
  }

  // ---------------------------------------------------------------- the invariant

  lemma NotifyKeepsInv<T>(s: System<T>, t: nat, e: Event<T>, s': System<T>)
    requires Inv(s) && Step(s, t, e, s')
    requires e.NotifyOne? || e.NotifyNobody? || e.NotifyAll?
    ensures Inv(s')
  {
    hide Count, Wake;
    MoveCensus(s.pcs, t, Running);
    if e.NotifyOne? {
      MoveCensus(s.pcs[t := Running], e.sleeper, Woken);
    } else if e.NotifyAll? {
      WakeCensus(s.pcs[t := Running]);
    }
  }

  lemma PullKeepsInv<T>(s: System<T>, t: nat, e: Event<T>, s': System<T>)
    requires Inv(s) && Step(s, t, e, s')
    requires e.Pull? || e.PullClosed? || e.PullBlocks?
    ensures Inv(s')
  {
    hide Count, Wake;
    WakeCompletionCensus(s.pcs);
    MoveCensus(Announced(s, s.pcs[t]), t, if e.PullBlocks? then Asleep else Running);
  }

  lemma AwaitKeepsInv<T>(s: System<T>, t: nat, e: Event<T>, s': System<T>)
    requires Inv(s) && Step(s, t, e, s')
    requires e.AwaitBlocks? || e.AwaitReturns?
    ensures Inv(s')
  {
    hide Count, Wake;
    WakeCompletionCensus(s.pcs);
    MoveCensus(AwaitAnnounced(s.pcs, s.pcs[t]), t, if e.AwaitBlocks? then AwaitingWorkers else Running);
  }

  lemma OtherKeepsInv<T>(s: System<T>, t: nat, e: Event<T>, s': System<T>)
    requires Inv(s) && Step(s, t, e, s')
    requires e.Push? || e.PushAll? || e.Refused? || e.Close? || e.Spurious?
    ensures Inv(s')
  {
    hide Count, Wake;
    MoveCensus(s.pcs, t, s'.pcs[t]);
  }

  /** Every step keeps the count of sleepers and loses no wake-up, whatever the threads use the queue for. */
  lemma StepKeepsInv<T>(s: System<T>, t: nat, e: Event<T>, s': System<T>)
    requires Inv(s) && Step(s, t, e, s')
    ensures Inv(s')
  {
    hide Inv, Step;
    match e
    case NotifyOne(_) => NotifyKeepsInv(s, t, e, s');
    case NotifyNobody => NotifyKeepsInv(s, t, e, s');
    case NotifyAll => NotifyKeepsInv(s, t, e, s');
    case Pull(_) => PullKeepsInv(s, t, e, s');
    case PullClosed => PullKeepsInv(s, t, e, s');
    case PullBlocks => PullKeepsInv(s, t, e, s');
    case AwaitBlocks(_) => AwaitKeepsInv(s, t, e, s');
    case AwaitReturns(_, _) => AwaitKeepsInv(s, t, e, s');
    case _ => OtherKeepsInv(s, t, e, s');
  }

  // ---------------------------------------------------------------- steps that are possible

  /** A thread that owes a notify_one can perform it. */
  lemma NotifyPossible<T>(s: System<T>, t: nat) returns (e: Event<T>, s': System<T>)
    requires t < |s.pcs| && s.pcs[t] == OwesOne
    ensures Step(s, t, e, s') && (e.NotifyOne? || e.NotifyNobody?)
  {
    if Count(s.pcs, Asleep) == 0 {
      e, s' := NotifyNobody, System(s.q, s.pcs[t := Running]);
    } else {
      var sleeper := CountPositive(s.pcs, Asleep);
      e, s' := NotifyOne(sleeper), System(s.q, s.pcs[t := Running][sleeper := Woken]);
    }
  }

  /** A thread at pull_front that is not asleep can go on. */
  lemma PullPossible<T>(s: System<T>, t: nat) returns (e: Event<T>, s': System<T>)
    requires t < |s.pcs| && (s.pcs[t] == Running || s.pcs[t] == Woken) && Inv(s)
    ensures Step(s, t, e, s') && (e.Pull? || e.PullClosed? || e.PullBlocks?)
  {
    var pc := s.pcs[t];
    MoveCounts(s.pcs, t, Running, Woken);
    hide Count, Wake;
    if s.q.queue != [] {
      e, s' := Pull(s.q.queue[0]), System(Left(Counted(s.q, pc)), Announced(s, pc)[t := Running]);
    } else if s.q.closed {
      e, s' := PullClosed, System(Left(Counted(s.q, pc)), Announced(s, pc)[t := Running]);
    } else {
      e, s' := PullBlocks, System(Counted(s.q, pc), Announced(s, pc)[t := Asleep]);
    }
  }
}
