/**
  * What the parallel walk delivers. Without following links it reports what the sequential walk
  * reports; following links it admits every identifier once, and reads every directory it should.
  */
module WalkResults {
  import opened SyncQueue
  import opened QueueProtocol
  import opened Traversal
  import opened TreeWalk
  import opened WalkRuns
  import opened Sums

  // ---------------------------------------------------------------- positions stay in range

  predicate ItemInRange(c: Config, x: Item) {
    x.dir < |c.tree|
  }

  predicate WorkerInRange(c: Config, w: Worker) {
    match w
    case Scanning(at, next, _) => at.dir < |c.tree| && next <= |c.tree[at.dir]|
    case Admitting(at, next, _, child) => at.dir < |c.tree| && next <= |c.tree[at.dir]| && child.dir < |c.tree|
    case _ => true
  }

  ghost predicate InRange(j: Job, s: State) {
    && WellFormed(j)
    && (forall i :: 0 <= i < |s.dirs.q.queue| ==> ItemInRange(j.c, s.dirs.q.queue[i]))
    && (forall i :: 0 <= i < |s.workers| ==> WorkerInRange(j.c, s.workers[i]))
    && (forall i :: 0 <= i < |s.pulled| ==> ItemInRange(j.c, s.pulled[i]))
    && (s.master.Seeding? ==> s.master.next <= |j.starts|)
  }

  lemma ChildInRange(c: Config, at: Item, i: nat)
    requires Consistent(c) && at.dir < |c.tree| && i < |c.tree[at.dir]|
    ensures ConsistentEntry(c, c.tree[at.dir][i])
    ensures Classify(c, at, c.tree[at.dir][i]).Descend? ==> Classify(c, at, c.tree[at.dir][i]).child.dir < |c.tree|
  {
    assert ConsistentEntry(c, c.tree[at.dir][i]);
  }

  lemma NextKeepsInRange(j: Job, s: State, t: nat, m: Move, s': State)
    requires InRange(j, s) && Next(j, s, t, m, s')
    ensures InRange(j, s')
  {
    hide Classify, ConsistentEntry, Count, Wake, Step;
    match m
    case Use(e) =>
      StepGuards(s.dirs, t, e, s'.dirs);
      if t < |s.workers| {
        assert WorkerInRange(j.c, s.workers[t]);
      }
    case Local =>
      if t < |s.workers| {
        assert WorkerInRange(j.c, s.workers[t]);
        var Scanning(at, next, _) := s.workers[t];
        if next < |j.c.tree[at.dir]| {
          ChildInRange(j.c, at, next);
        }
      }
  }

  // ---------------------------------------------------------------- without following links

  /** How often a sequence holds p. */
  ghost function Often<T>(s: seq<T>, p: T): nat {
    multiset(s)[p]
  }

  lemma OftenConcat<T>(a: seq<T>, b: seq<T>, p: T)
    ensures Often(a + b, p) == Often(a, p) + Often(b, p)
  {
  }

  lemma OftenAppend<T>(a: seq<T>, x: T, p: T)
    ensures Often(a + [x], p) == Often(a, p) + (if x == p then 1 else 0)
  {
  }

  /** How often the path p is among the files below a directory still to be read. */
  ghost function Below(c: Config, height: seq<nat>, p: Path): Item -> nat
    requires Physical(c, height)
  {
    (x: Item) => if ItemInRange(c, x) then Walk(c, height, x)[p] else 0
  }

  /** How often p is among the files a worker has found and those it will find below its directory. */
  ghost function Held(c: Config, height: seq<nat>, p: Path): Worker -> nat
    requires Physical(c, height)
  {
    (w: Worker) => if !WorkerInRange(c, w) then 0 else match w
      case Scanning(at, next, found) => Often(found, p) + WalkFrom(c, height, at, next)[p]
      case Admitting(at, next, found, child) =>
        Often(found, p) + WalkFrom(c, height, at, next)[p] + Walk(c, height, child)[p]
      case _ => 0
  }

  /** The files the command-line paths from position k on stand for: what a sequential walk reports. */
  ghost function StartFiles(j: Job, height: seq<nat>, k: nat): multiset<Path>
    requires WellFormed(j) && Physical(j.c, height) && k <= |j.starts|
    decreases |j.starts| - k
  {
    if k == |j.starts| then multiset{}
    else (match j.starts[k]
          case StartFile(file) => multiset{file}
          case StartDirectory(item) => Walk(j.c, height, item)
          case StartOther => multiset{}) + StartFiles(j, height, k + 1)
  }

  ghost function Unseeded(j: Job, height: seq<nat>, m: Master): multiset<Path>
    requires WellFormed(j) && Physical(j.c, height)
  {
    if m.Seeding? && m.next <= |j.starts| then StartFiles(j, height, m.next) else multiset{}
  }

  /** How often p has been reported or is still to be reported. */
  ghost function Account(j: Job, height: seq<nat>, p: Path, s: State): nat
    requires WellFormed(j) && Physical(j.c, height)
  {
    Often(s.out, p) + Sum(s.dirs.q.queue, Below(j.c, height, p)) + Sum(s.workers, Held(j.c, height, p))
    + Unseeded(j, height, s.master)[p]
  }

  /** A directory weighs the same in the queue and in a worker's hands. */
  lemma HandOver(c: Config, height: seq<nat>, p: Path, w: Worker, x: Item)
    requires Physical(c, height) && WorkerInRange(c, w) && ItemInRange(c, x)
    ensures Held(c, height, p)(Looping) == 0
    ensures Held(c, height, p)(Scanning(x, 0, [])) == Below(c, height, p)(x)
    ensures w.Admitting? ==>
              Held(c, height, p)(w) ==
              Held(c, height, p)(Scanning(w.at, w.next, w.found)) + Below(c, height, p)(w.child)
  {
    WalkStartsAtTop(c, height, x);
    hide Physical, Walk, WalkFrom;
  }

  /** A worker's use of the queue moves work between it and the queue, and loses none. */
  lemma WorkerUseConserves(j: Job, height: seq<nat>, p: Path, s: State, t: nat, e: Event<Item>, s': State)
    requires InRange(j, s) && Physical(j.c, height) && t < |s.workers|
    requires WorkerUse(j, s, t, e, s') && e != Refused
    ensures Account(j, height, p, s') == Account(j, height, p, s)
  {
    hide Step, Physical, Consistent, Walk, WalkFrom, StartFiles, Often, Unseeded, Held, Below, Sum;
    StepGuards(s.dirs, t, e, s'.dirs);
    assert WorkerInRange(j.c, s.workers[t]);
    if e.Pull? {
      HandOver(j.c, height, p, s.workers[t], e.item);
    } else if e.Push? {
      SumAppend(s.dirs.q.queue, e.x, Below(j.c, height, p));
      HandOver(j.c, height, p, s.workers[t], e.x);
    } else if e.PullClosed? {
      IdleHoldsNothing(j.c, height, p);
    }
    if s'.workers != s.workers {
      SumUpdate(s.workers, t, s'.workers[t], Held(j.c, height, p));
    }
    if e.Pull? {
      SumOfTail(s.dirs.q.queue, Below(j.c, height, p));
    }
  }

  lemma IdleHoldsNothing(c: Config, height: seq<nat>, p: Path)
    requires Physical(c, height)
    ensures Held(c, height, p)(Looping) == Held(c, height, p)(Exited) == Held(c, height, p)(NotStarted) == 0
  {
  }

  /** Reading an entry moves what it stands for from the rest of the directory to the worker's hands. */
  lemma EntryConserves(c: Config, height: seq<nat>, p: Path, at: Item, i: nat, found: seq<Path>)
    requires Physical(c, height) && at.dir < |c.tree| && i < |c.tree[at.dir]| && ConsistentEntry(c, c.tree[at.dir][i])
    ensures var w := match Classify(c, at, c.tree[at.dir][i])
                     case Ignore => Scanning(at, i + 1, found)
                     case Found(file) => Scanning(at, i + 1, found + [file])
                     case Descend(child) => Admitting(at, i + 1, found, child);
            WorkerInRange(c, w) && Held(c, height, p)(w) == Held(c, height, p)(Scanning(at, i, found))
  {
    hide Physical, Consistent, Acyclic, ConsistentEntry, Walk, WalkFrom, Classify, Often;
    WalkOneStep(c, height, at, i, p);
    DescendsLower(c, height, at, i);
    if Classify(c, at, c.tree[at.dir][i]).Found? {
      OftenAppend(found, Classify(c, at, c.tree[at.dir][i]).file, p);
    }
  }

  lemma NotFollowing(c: Config, height: seq<nat>)
    requires Physical(c, height)
    ensures !c.follow
  {
  }

  lemma WorkerLocalConserves(j: Job, height: seq<nat>, p: Path, s: State, t: nat, s': State)
    requires InRange(j, s) && Physical(j.c, height) && t < |s.workers|
    requires WorkerLocal(j, s, t, s')
    ensures Account(j, height, p, s') == Account(j, height, p, s)
  {
    hide Consistent, ConsistentEntry, Acyclic, Physical, Walk, WalkFrom;
    hide StartFiles, Sum, Often, Unseeded, Classify, Held;
    var Scanning(at, next, found) := s.workers[t];
    SumUpdate(s.workers, t, s'.workers[t], Held(j.c, height, p));
    if next < |j.c.tree[at.dir]| {
      NotFollowing(j.c, height);
      EntryConserves(j.c, height, p, at, next, found);
    } else {
      EndConserves(j.c, height, p, at, found, s.out);
    }
  }

  /** Handing over the files found leaves nothing behind. */
  lemma EndConserves(c: Config, height: seq<nat>, p: Path, at: Item, found: seq<Path>, out: seq<Path>)
    requires Physical(c, height) && at.dir < |c.tree|
    ensures Held(c, height, p)(Looping) + Often(out + found, p) ==
            Held(c, height, p)(Scanning(at, |c.tree[at.dir]|, found)) + Often(out, p)
  {
    OftenConcat(out, found, p);
    hide Often, Physical;
  }

  /** Seeding turns a command-line path into output or into a queued directory. */
  lemma SeedConserves(j: Job, height: seq<nat>, p: Path, k: nat)
    requires WellFormed(j) && Physical(j.c, height) && k < |j.starts|
    ensures Unseeded(j, height, Seeding(k))[p] == Unseeded(j, height, Seeding(k + 1))[p] +
            match j.starts[k]
            case StartFile(file) => Often([file], p)
            case StartDirectory(item) => Below(j.c, height, p)(item)
            case StartOther => 0
  {
    hide Walk, Physical;
  }

  lemma MasterUseConserves(j: Job, height: seq<nat>, p: Path, s: State, e: Event<Item>, s': State)
    requires InRange(j, s) && Physical(j.c, height) && MasterUse(j, s, e, s')
    ensures Account(j, height, p, s') == Account(j, height, p, s)
  {
    hide Step, Physical, Consistent, Walk, WalkFrom, StartFiles;
    hide Often, Below, Held, Unseeded, Sum, WorkerInRange, ItemInRange;
    StepGuards(s.dirs, j.jobs, e, s'.dirs);
    if e.Push? {
      SeedConserves(j, height, p, s.master.next);
      SumAppend(s.dirs.q.queue, e.x, Below(j.c, height, p));
    } else if !s.master.Seeding? {
      AllSeeded(j, height, s.master);
      AllSeeded(j, height, s'.master);
    }
  }

  lemma AllSeeded(j: Job, height: seq<nat>, m: Master)
    requires WellFormed(j) && Physical(j.c, height) && !m.Seeding?
    ensures Unseeded(j, height, m) == multiset{}
  {
  }

  lemma MasterLocalConserves(j: Job, height: seq<nat>, p: Path, s: State, s': State)
    requires InRange(j, s) && Physical(j.c, height) && MasterLocal(j, s, s')
    requires s.master.Starting? && s.master.next < |s.workers| ==> s.workers[s.master.next] == NotStarted
    ensures Account(j, height, p, s') == Account(j, height, p, s)
  {
    if s.master.Seeding? && s.master.next < |j.starts| {
      SeedConserves(j, height, p, s.master.next);
      if s'.out != s.out {
        OftenConcat(s.out, [j.starts[s.master.next].file], p);
      }
    } else if s.master.Starting? && s.master.next < |s.workers| {
      SumUpdate(s.workers, s.master.next, Looping, Held(j.c, height, p));
    }
    hide Physical, Consistent, Walk, WalkFrom, Sum, Often;
  }

  /** No step of any thread loses, repeats or invents a file. */
  lemma NextConserves(j: Job, height: seq<nat>, p: Path, s: State, t: nat, m: Move, s': State)
    requires InRange(j, s) && Physical(j.c, height) && TreeWalk.Inv(j, s) && Next(j, s, t, m, s')
    ensures Account(j, height, p, s') == Account(j, height, p, s)
  {
    hide Account, InRange, Physical, QueueProtocol.Inv, Consistent;
    hide WorkerUse, WorkerLocal, MasterUse, MasterLocal, Step;
    match m
    case Use(e) =>
      if t < |s.workers| {
        WorkerNeverRefused(j, s, t, e, s');
        WorkerUseConserves(j, height, p, s, t, e, s');
      } else {
        MasterUseConserves(j, height, p, s, e, s');
      }
    case Local =>
      if t < |s.workers| {
        WorkerLocalConserves(j, height, p, s, t, s');
      } else {
        MasterLocalConserves(j, height, p, s, s');
      }
  }

  lemma WorkerNeverRefused(j: Job, s: State, t: nat, e: Event<Item>, s': State)
    requires TreeWalk.Inv(j, s) && t < |s.workers| && WorkerUse(j, s, t, e, s')
    ensures e != Refused
  {
    hide Count, Wake;
    if e == Refused && Over(s.master) {
      QuietMeansNoDirectory(j, s, t);
    }
  }

  lemma InitiallyConserves(j: Job, height: seq<nat>, p: Path, s: State)
    requires WellFormed(j) && Physical(j.c, height) && Initially(j, s)
    ensures InRange(j, s)
    ensures Account(j, height, p, s) == StartFiles(j, height, 0)[p]
  {
    SumOfNothing(s.workers, Held(j.c, height, p));
    hide StartFiles, Walk, Physical;
  }

  lemma {:induction false} RunConserves(j: Job, height: seq<nat>, p: Path, states: seq<State>, turns: seq<Turn>, k: nat)
    requires j.jobs > 0 && WellFormed(j) && Physical(j.c, height) && IsRun(j, states, turns) && k < |states|
    ensures InRange(j, states[k])
    ensures Account(j, height, p, states[k]) == StartFiles(j, height, 0)[p]
  {
    hide *;
    RunStart(j, states, turns);
    if k == 0 {
      InitiallyConserves(j, height, p, states[0]);
    } else {
      RunConserves(j, height, p, states, turns, k - 1);
      RunKeepsInv(j, states, turns, k - 1);
      RunStep(j, states, turns, k - 1);
      NextKeepsInRange(j, states[k - 1], turns[k - 1].thread, turns[k - 1].move, states[k]);
      NextConserves(j, height, p, states[k - 1], turns[k - 1].thread, turns[k - 1].move, states[k]);
    }
  }

  /**
    * Without following links, any number of workers in any interleaving report exactly the files
    * the sequential recursive walk reports, each as often.
    */
  lemma ParallelWalkIsSequentialWalk(j: Job, height: seq<nat>, states: seq<State>, turns: seq<Turn>, k: nat)
    requires j.jobs > 0 && WellFormed(j) && Physical(j.c, height) && IsRun(j, states, turns) && k < |states|
    requires Over(states[k].master)
    ensures multiset(states[k].out) == StartFiles(j, height, 0)
  {
    var s := states[k];
    CompletionIsFinal(j, states, turns, k, k);
    forall p: Path ensures multiset(s.out)[p] == StartFiles(j, height, 0)[p] {
      RunConserves(j, height, p, states, turns, k);
      NothingLeftToReport(j, height, p, s);
    }
  }

  lemma NothingLeftToReport(j: Job, height: seq<nat>, p: Path, s: State)
    requires WellFormed(j) && Physical(j.c, height) && NothingLeft(s) && Over(s.master)
    ensures Account(j, height, p, s) == multiset(s.out)[p]
  {
    SumOfNothing(s.workers, Held(j.c, height, p));
  }
}
