/**
  * The parallel tree walk as a state machine: any number of workers feed the directory queue they
  * also pull from, and the thread that called Scandir waits for them, closes the queue and joins them.
  */
module TreeWalk {
  import opened SyncQueue
  import opened QueueProtocol
  import opened Traversal

  /** A path from the command line, once its type is known. */
  datatype Start = StartFile(file: Path) | StartDirectory(item: Item) | StartOther

  datatype Job = Job(c: Config, starts: seq<Start>, jobs: nat)

  /** Where a worker is in ReaddirLoop. */
  datatype Worker =
    | NotStarted
    | Looping                                                            // at pull_front
    | Scanning(at: Item, next: nat, found: seq<Path>)                    // reading the entries
    | Admitting(at: Item, next: nat, found: seq<Path>, child: Item)      // about to push a subdirectory
    | Exited

  /** Where the master is in Scandir. */
  datatype Master =
    | Seeding(next: nat)
    | Starting(next: nat)
    | Waiting
    | Completed                                                          // wait_for_worker_completion returned
    | Joining                                                            // has closed the queue
    | Finished

  /** pulled logs every directory pulled, and is read by no step. */
  datatype State = State(
    dirs: System<Item>,
    workers: seq<Worker>,
    master: Master,
    visited: set<Key>,
    out: seq<Path>,
    pulled: seq<Item>)

  /** A step uses the directory queue, or touches only the thread's own state, the visited set and the output. */
  datatype Move = Use(e: Event<Item>) | Local

  ghost predicate WellFormed(j: Job) {
    && Consistent(j.c)
    && forall i :: 0 <= i < |j.starts| && j.starts[i].StartDirectory? ==> j.starts[i].item.dir < |j.c.tree|
  }

  ghost predicate Initially(j: Job, s: State) {
    && Initial(s.dirs) && |s.dirs.pcs| == j.jobs + 1
    && |s.workers| == j.jobs && (forall i :: 0 <= i < j.jobs ==> s.workers[i] == NotStarted)
    && s.master == Seeding(0) && s.visited == {} && s.out == [] && s.pulled == []
  }

  /** The state after worker t uses the queue. */
  predicate WorkerUse(j: Job, s: State, t: nat, e: Event<Item>, s': State)
    requires t < |s.workers|
  {
    Step(s.dirs, t, e, s'.dirs) &&
    match s.workers[t]
    case Looping =>
      (match e
       case Pull(x) =>
         s' == s.(dirs := s'.dirs, workers := s.workers[t := Scanning(x, 0, [])], pulled := s.pulled + [x])
       case PullClosed => s' == s.(dirs := s'.dirs, workers := s.workers[t := Exited])
       case PullBlocks => s' == s.(dirs := s'.dirs)
       case Spurious => s' == s.(dirs := s'.dirs)
       case _ => false)
    case Admitting(at, next, found, child) =>
      (e == Push(child) || e == Refused) &&
      s' == s.(dirs := s'.dirs, workers := s.workers[t := Scanning(at, next, found)])
    case Scanning(_, _, _) =>
      (e.NotifyOne? || e.NotifyNobody?) && s' == s.(dirs := s'.dirs)
    case _ => false
  }

  /** The state after worker t reads one more entry, or finds that there are no more. */
  predicate WorkerLocal(j: Job, s: State, t: nat, s': State)
    requires t < |s.workers|
  {
    t < |s.dirs.pcs| && s.dirs.pcs[t] == Running && s.workers[t].Scanning? &&
    var Scanning(at, next, found) := s.workers[t];
    at.dir < |j.c.tree| && next <= |j.c.tree[at.dir]| &&
    if next == |j.c.tree[at.dir]| then
      s' == s.(workers := s.workers[t := Looping], out := s.out + found)
    else
      var e := j.c.tree[at.dir][next];
      ConsistentEntry(j.c, e) &&
      match Classify(j.c, at, e)
      case Ignore => s' == s.(workers := s.workers[t := Scanning(at, next + 1, found)])
      case Found(file) => s' == s.(workers := s.workers[t := Scanning(at, next + 1, found + [file])])
      case Descend(child) =>
        if j.c.follow && child.id in s.visited then
          s' == s.(workers := s.workers[t := Scanning(at, next + 1, found)])
        else
          s' == s.(workers := s.workers[t := Admitting(at, next + 1, found, child)],
                   visited := if j.c.follow then s.visited + {child.id} else s.visited)
  }

  /** The state after the master uses the queue. */
  predicate MasterUse(j: Job, s: State, e: Event<Item>, s': State) {
    Step(s.dirs, j.jobs, e, s'.dirs) &&
    match s.master
    case Seeding(k) =>
      if e.Push? then
        k < |j.starts| && j.starts[k] == StartDirectory(e.x) && s' == s.(dirs := s'.dirs, master := Seeding(k + 1))
      else
        (e.NotifyOne? || e.NotifyNobody?) && s' == s.(dirs := s'.dirs)
    case Waiting =>
      (match e
       case AwaitBlocks(n) => n == j.jobs && s' == s.(dirs := s'.dirs)
       case AwaitReturns(n, _) => n == j.jobs && s' == s.(dirs := s'.dirs, master := Completed)
       case Spurious => s' == s.(dirs := s'.dirs)
       case _ => false)
    case Completed => e == Close && s' == s.(dirs := s'.dirs, master := Joining)
    case Joining => e == NotifyAll && s' == s.(dirs := s'.dirs)
    case _ => false
  }

  predicate MasterLocal(j: Job, s: State, s': State) {
    j.jobs < |s.dirs.pcs| && s.dirs.pcs[j.jobs] == Running &&
    match s.master
    case Seeding(k) =>
      if k < |j.starts| then
        !j.starts[k].StartDirectory? &&
        s' == s.(master := Seeding(k + 1), out := if j.starts[k].StartFile? then s.out + [j.starts[k].file] else s.out)
      else
        s' == s.(master := Starting(0))
    case Starting(k) =>
      if k < |s.workers| then s' == s.(workers := s.workers[k := Looping], master := Starting(k + 1))
      else s' == s.(master := Waiting)
    case Joining => (forall i :: 0 <= i < |s.workers| ==> s.workers[i] == Exited) && s' == s.(master := Finished)
    case _ => false
  }

  /** Thread t takes the step m; the master is thread j.jobs. */
  predicate Next(j: Job, s: State, t: nat, m: Move, s': State) {
    if t < |s.workers| then
      match m
      case Use(e) => WorkerUse(j, s, t, e, s')
      case Local => WorkerLocal(j, s, t, s')
    else
      t == j.jobs &&
      match m
      case Use(e) => MasterUse(j, s, e, s')
      case Local => MasterLocal(j, s, s')
  }

  // ---------------------------------------------------------------- termination detection

  predicate WorkerFits(w: Worker, pc: Pc) {
    match w
    case Looping => pc == Running || pc == Asleep || pc == Woken
    case Scanning(_, _, _) => pc == Running || pc == OwesOne
    case _ => pc == Running
  }

  predicate MasterFits(m: Master, pc: Pc) {
    match m
    case Seeding(_) => pc == Running || pc == OwesOne
    case Waiting => pc == Running || pc == AwaitingWorkers || pc == WokenByWorkers
    case Joining => pc == Running || pc == OwesAll
    case _ => pc == Running
  }

  /** Every thread's place in its loop agrees with its place in the queue's protocol. */
  ghost predicate Fits(j: Job, s: State) {
    && |s.workers| == j.jobs && |s.dirs.pcs| == j.jobs + 1
    && MasterFits(s.master, s.dirs.pcs[j.jobs])
    && forall i :: 0 <= i < j.jobs ==> WorkerFits(s.workers[i], s.dirs.pcs[i])
  }

  predicate Begun(m: Master, i: nat) {
    match m
    case Seeding(_) => false
    case Starting(k) => i < k
    case _ => true
  }

  predicate Over(m: Master) {
    m == Completed || m == Joining || m == Finished
  }

  predicate HasClosed(m: Master) {
    m == Joining || m == Finished
  }

  /** The worker holds no directory and will never again push one. */
  predicate Retired(s: State, i: nat)
    requires i < |s.workers| && i < |s.dirs.pcs|
  {
    (s.workers[i] == Looping && (s.dirs.pcs[i] == Asleep || s.dirs.pcs[i] == Woken))
    || (s.workers[i] == Exited && s.dirs.q.closed)
  }

  /** Nothing is queued and no worker will ever queue anything. */
  ghost predicate Quiet(j: Job, s: State)
    requires |s.workers| == j.jobs && |s.dirs.pcs| == j.jobs + 1
  {
    s.dirs.q.queue == [] && forall i :: 0 <= i < j.jobs ==> Retired(s, i)
  }

  /** wait_for_worker_completion's condition, for the number of workers it was given. */
  predicate Done(j: Job, s: State) {
    s.dirs.q.waiting == j.jobs && s.dirs.q.queue == []
  }

  ghost predicate Phases(j: Job, s: State) {
    && Fits(j, s)
    && (forall i :: 0 <= i < j.jobs ==> (s.workers[i] != NotStarted <==> Begun(s.master, i)))
    && s.dirs.q.closed == HasClosed(s.master)
    && ((s.master == Waiting && s.dirs.pcs[j.jobs] != Running) || Over(s.master) ==> s.dirs.q.level == j.jobs)
    && (Over(s.master) ==> Quiet(j, s))
    && (s.dirs.pcs[j.jobs] == AwaitingWorkers ==> !Done(j, s))
    && (s.master.Starting? ==> s.master.next <= j.jobs)
    && (forall i :: 0 <= i < j.jobs && s.workers[i] == Exited ==> s.dirs.q.closed)
  }

  ghost predicate Inv(j: Job, s: State) {
    j.jobs > 0 && QueueProtocol.Inv(s.dirs) && Phases(j, s)
  }

  /** At most as many sleepers as threads that can sleep. */
  lemma {:induction false} SleepersAmong(pcs: seq<Pc>, i: nat, k: nat)
    requires i < |pcs| && k < |pcs|
    requires pcs[i] != Asleep && pcs[i] != Woken && pcs[k] != Asleep && pcs[k] != Woken
    ensures Count(pcs, Asleep) + Count(pcs, Woken) + (if i == k then 1 else 2) <= |pcs|
  {
    if i == 0 && k == 0 {
      SleepersAtMost(pcs[1..]);
    } else if i == 0 {
      SleepersAmong(pcs[1..], k - 1, k - 1);
    } else if k == 0 {
      SleepersAmong(pcs[1..], i - 1, i - 1);
    } else {
      SleepersAmong(pcs[1..], i - 1, k - 1);
    }
  }

  lemma {:induction false} SleepersAtMost(pcs: seq<Pc>)
    ensures Count(pcs, Asleep) + Count(pcs, Woken) <= |pcs|
  {
    if pcs != [] {
      SleepersAtMost(pcs[1..]);
    }
  }

  lemma InitiallyInv(j: Job, s: State)
    requires j.jobs > 0 && Initially(j, s)
    ensures Inv(j, s)
  {
    InitialInv(s.dirs);
  }

  /** While the master sleeps or is about to decide, a running worker keeps the condition false. */
  lemma RunningWorkerCounts(j: Job, s: State, t: nat)
    requires QueueProtocol.Inv(s.dirs) && Fits(j, s) && t < j.jobs
    requires s.dirs.pcs[t] != Asleep && s.dirs.pcs[t] != Woken
    requires s.master == Waiting
    ensures s.dirs.q.waiting < j.jobs
  {
    SleepersAmong(s.dirs.pcs, t, j.jobs);
  }

  /** Once the master has been told that all is done, a worker can only wake up, sleep on or leave. */
  lemma QuietWorkerUse(j: Job, s: State, t: nat, e: Event<Item>, s': State)
    requires Fits(j, s) && t < j.jobs && WorkerUse(j, s, t, e, s')
    requires Quiet(j, s)
    ensures |s'.dirs.pcs| == j.jobs + 1 && |s'.workers| == j.jobs && Quiet(j, s')
  {
    StepMoves(s.dirs, t, e, s'.dirs);
    StepGuards(s.dirs, t, e, s'.dirs);
    hide Step;
    assert Retired(s, t);
    forall i | 0 <= i < j.jobs ensures Retired(s', i) {
      assert Retired(s, i);
    }
  }

  /** Being woken agrees with whatever a thread is doing when it sleeps. */
  lemma FitsUndisturbed(j: Job, s: State, t: nat, s': State)
    requires Fits(j, s) && t < j.jobs
    requires |s'.dirs.pcs| == j.jobs + 1 && |s'.workers| == j.jobs && s'.master == s.master
    requires forall i :: 0 <= i < |s.dirs.pcs| && i != t ==> Undisturbed(s.dirs.pcs[i], s'.dirs.pcs[i])
    requires s'.workers == s.workers[t := s'.workers[t]] && WorkerFits(s'.workers[t], s'.dirs.pcs[t])
    ensures Fits(j, s')
  {
    forall i | 0 <= i < j.jobs ensures WorkerFits(s'.workers[i], s'.dirs.pcs[i]) {
      assert WorkerFits(s.workers[i], s.dirs.pcs[i]);
    }
  }

  lemma WorkerUseKeepsFits(j: Job, s: State, t: nat, e: Event<Item>, s': State)
    requires Fits(j, s) && t < j.jobs && WorkerUse(j, s, t, e, s')
    ensures Fits(j, s')
    ensures forall i :: 0 <= i < j.jobs ==> (s'.workers[i] == NotStarted <==> s.workers[i] == NotStarted)
  {
    StepMoves(s.dirs, t, e, s'.dirs);
    hide Step, MasterFits, Undisturbed;
    assert WorkerFits(s.workers[t], s.dirs.pcs[t]);
    assert WorkerFits(s'.workers[t], s'.dirs.pcs[t]);
    FitsUndisturbed(j, s, t, s');
  }

  /** A worker that makes the master's condition true wakes the master. */
  lemma WorkerUseTellsMaster(j: Job, s: State, t: nat, e: Event<Item>, s': State)
    requires Inv(j, s) && t < j.jobs && WorkerUse(j, s, t, e, s')
    requires s'.dirs.pcs[j.jobs] == AwaitingWorkers
    ensures !Done(j, s')
  {
    StepKeepsInv(s.dirs, t, e, s'.dirs);
    WorkerUseKeepsFits(j, s, t, e, s');
    hide Count, CountsSleepers, NoLostWakeUp;
    StepMoves(s.dirs, t, e, s'.dirs);
    if s'.dirs.pcs[t] == Running {
      RunningWorkerCounts(j, s', t);
    }
  }

  lemma WorkerUseKeepsPhases(j: Job, s: State, t: nat, e: Event<Item>, s': State)
    requires Inv(j, s) && t < j.jobs && WorkerUse(j, s, t, e, s')
    ensures Phases(j, s')
  {
    hide Step, Quiet, Done, WorkerFits, MasterFits, QueueProtocol.Inv;
    WorkerUseKeepsFits(j, s, t, e, s');
    StepMoves(s.dirs, t, e, s'.dirs);
    StepGuards(s.dirs, t, e, s'.dirs);
    if Over(s.master) {
      QuietWorkerUse(j, s, t, e, s');
    }
    if s'.dirs.pcs[j.jobs] == AwaitingWorkers {
      WorkerUseTellsMaster(j, s, t, e, s');
    }
  }

  /** A worker that reads a directory keeps the walk from being quiet. */
  lemma QuietMeansNoDirectory(j: Job, s: State, t: nat)
    requires Fits(j, s) && Quiet(j, s) && t < j.jobs
    ensures !s.workers[t].Scanning? && !s.workers[t].Admitting?
  {
    assert Retired(s, t);
  }

  lemma WorkerLocalKeepsPhases(j: Job, s: State, t: nat, s': State)
    requires Inv(j, s) && t < j.jobs && WorkerLocal(j, s, t, s')
    ensures Phases(j, s')
  {
    hide Count, Classify, ConsistentEntry, MasterFits, QueueProtocol.Inv;
    if Over(s.master) {
      QuietMeansNoDirectory(j, s, t);
    }
  }

  /** When the master's condition holds, every worker is waiting for a directory. */
  lemma DoneMeansQuiet(j: Job, s: State)
    requires QueueProtocol.Inv(s.dirs) && Fits(j, s) && s.master == Waiting && Done(j, s)
    ensures Quiet(j, s)
  {
    forall i | 0 <= i < j.jobs ensures Retired(s, i) {
      if s.dirs.pcs[i] != Asleep && s.dirs.pcs[i] != Woken {
        RunningWorkerCounts(j, s, i);
      }
    }
  }

  lemma MasterUseKeepsQuiet(j: Job, s: State, e: Event<Item>, s': State)
    requires Inv(j, s) && MasterUse(j, s, e, s') && Over(s'.master)
    ensures |s'.dirs.pcs| == j.jobs + 1 && |s'.workers| == j.jobs && Quiet(j, s')
  {
    StepMoves(s.dirs, j.jobs, e, s'.dirs);
    StepGuards(s.dirs, j.jobs, e, s'.dirs);
    if e.AwaitReturns? {
      DoneMeansQuiet(j, s);
    }
    hide Step, QueueProtocol.Inv;
    forall i | 0 <= i < j.jobs ensures Retired(s', i) {
      assert Retired(s, i);
    }
  }

  lemma MasterUseKeepsFits(j: Job, s: State, e: Event<Item>, s': State)
    requires Fits(j, s) && MasterUse(j, s, e, s')
    ensures Fits(j, s') && s'.workers == s.workers
  {
    StepMoves(s.dirs, j.jobs, e, s'.dirs);
    hide Step;
    WorkersUndisturbed(s.workers, s.dirs.pcs, s'.dirs.pcs);
    hide WorkerFits, Undisturbed;
  }

  lemma WorkersUndisturbed(workers: seq<Worker>, pcs: seq<Pc>, pcs': seq<Pc>)
    requires |workers| <= |pcs| == |pcs'|
    requires forall i :: 0 <= i < |workers| ==> WorkerFits(workers[i], pcs[i])
    requires forall i :: 0 <= i < |workers| ==> Undisturbed(pcs[i], pcs'[i])
    ensures forall i :: 0 <= i < |workers| ==> WorkerFits(workers[i], pcs'[i])
  {
  }

  lemma MasterUseKeepsPhases(j: Job, s: State, e: Event<Item>, s': State)
    requires Inv(j, s) && MasterUse(j, s, e, s')
    ensures Phases(j, s')
  {
    hide Step, Quiet, WorkerFits, QueueProtocol.Inv;
    MasterUseKeepsFits(j, s, e, s');
    StepMoves(s.dirs, j.jobs, e, s'.dirs);
    StepGuards(s.dirs, j.jobs, e, s'.dirs);
    if Over(s'.master) {
      MasterUseKeepsQuiet(j, s, e, s');
    }
  }

  lemma MasterLocalKeepsPhases(j: Job, s: State, s': State)
    requires Inv(j, s) && MasterLocal(j, s, s')
    ensures Phases(j, s')
  {
    hide Count;
  }

  /** A step is a worker's or the master's. */
  lemma WhoMoves(j: Job, s: State, t: nat, m: Move, s': State)
    requires Inv(j, s) && Next(j, s, t, m, s')
    ensures |s.workers| == j.jobs && t <= j.jobs
  {
  }

  lemma NextKeepsInv(j: Job, s: State, t: nat, m: Move, s': State)
    requires Inv(j, s) && Next(j, s, t, m, s')
    ensures Inv(j, s')
  {
    match m
    case Use(e) =>
      StepKeepsInv(s.dirs, t, e, s'.dirs);
      if t < j.jobs {
        WorkerUseKeepsPhases(j, s, t, e, s');
      } else {
        MasterUseKeepsPhases(j, s, e, s');
      }
    case Local =>
      hide Phases;
      if t < |s.workers| {
        WorkerLocalKeepsPhases(j, s, t, s');
      } else {
        MasterLocalKeepsPhases(j, s, s');
      }
  }
}
