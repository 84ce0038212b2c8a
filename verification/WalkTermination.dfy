/** Every step of the walk that is not a spurious wake-up uses up some of a finite amount of work. */
module WalkTermination {
  import opened SyncQueue
  import opened QueueProtocol
  import opened Traversal
  import opened TreeWalk
  import opened WalkRuns
  import opened Sums
  import opened QueueWork
  import opened WalkResults
  import opened FollowResults

  /** Either links are followed, or the directories form no cycle. */
  ghost predicate Finite(j: Job, height: seq<nat>) {
    WellFormed(j) && (j.c.follow || Physical(j.c, height))
  }

  /** The work of the entries from position i on; what following links adds is charged to the identifiers. */
  ghost function EntriesCost(j: Job, height: seq<nat>, at: Item, i: nat): nat
    requires Finite(j, height) && at.dir < |j.c.tree| && i <= |j.c.tree[at.dir]|
    decreases if j.c.follow then 0 else height[at.dir], |j.c.tree[at.dir]| - i
  {
    if i == |j.c.tree[at.dir]| then 0
    else 1 + EntriesCost(j, height, at, i + 1) + ChildCost(j, height, at, i)
  }

  ghost function ChildCost(j: Job, height: seq<nat>, at: Item, i: nat): nat
    requires Finite(j, height) && at.dir < |j.c.tree| && i < |j.c.tree[at.dir]|
    decreases if j.c.follow then 0 else height[at.dir], |j.c.tree[at.dir]| - i, 0
  {
    if j.c.follow then 0
    else
      DescendsLower(j.c, height, at, i);
      match Classify(j.c, at, j.c.tree[at.dir][i])
      case Descend(child) => EntriesCost(j, height, child, 0) + 8
      case _ => 0
  }

  /** A queued directory. */
  ghost function ItemCost(j: Job, height: seq<nat>): Item -> nat
    requires Finite(j, height)
  {
    (x: Item) => if ItemInRange(j.c, x) then EntriesCost(j, height, x, 0) + 4 else 0
  }

  /** A worker: what it has yet to do before it is back at pull_front, and leaving from there. */
  ghost function WorkerCost(j: Job, height: seq<nat>): Worker -> nat
    requires Finite(j, height)
  {
    (w: Worker) => match w
      case NotStarted => 5
      case Looping => 4
      case Scanning(at, next, _) => if WorkerInRange(j.c, w) then 5 + EntriesCost(j, height, at, next) else 0
      case Admitting(at, next, _, child) =>
        if WorkerInRange(j.c, w) then 5 + EntriesCost(j, height, at, next) + EntriesCost(j, height, child, 0) + 8 else 0
      case Exited => 0
  }

  /** A thread's place in the queue's protocol. */
  function PcCost(jobs: nat): Pc -> nat {
    (pc: Pc) => match pc
      case Running => 3
      case OwesOne => 6
      case OwesAll => jobs + 4
      case Asleep => 0
      case Woken => 1
      case AwaitingWorkers => 0
      case WokenByWorkers => 1
  }

  ghost function StartCost(j: Job, height: seq<nat>, k: nat): nat
    requires Finite(j, height) && k <= |j.starts|
    decreases |j.starts| - k
  {
    if k == |j.starts| then 0
    else (if j.starts[k].StartDirectory? then ItemCost(j, height)(j.starts[k].item) + 4 else 1)
         + StartCost(j, height, k + 1)
  }

  ghost function MasterCost(j: Job, height: seq<nat>, m: Master): nat
    requires Finite(j, height)
  {
    match m
    case Seeding(k) => j.jobs + 8 + (if k <= |j.starts| then StartCost(j, height, k) else 0)
    case Starting(_) => j.jobs + 7
    case Waiting => j.jobs + 6
    case Completed => j.jobs + 3
    case Joining => 1
    case Finished => 0
  }

  /** More than the cost of any one directory when links are followed. */
  ghost function DirectoryBound(j: Job): nat {
    Sum(j.c.tree, (entries: seq<Dirent>) => |entries|) + 9
  }

  function Product(n: nat, each: nat): nat {
    n * each
  }

  /** The directories that identifiers not yet met may still bring. */
  ghost function UnmetCost(j: Job, visited: set<Key>): nat {
    if j.c.follow then Product(|Identifiers(j) - visited|, DirectoryBound(j)) else 0
  }

  ghost function Work(j: Job, height: seq<nat>, s: State): nat
    requires Finite(j, height)
  {
    Sum(s.dirs.q.queue, ItemCost(j, height)) + Sum(s.workers, WorkerCost(j, height)) + Sum(s.dirs.pcs, PcCost(j.jobs))
    + MasterCost(j, height, s.master) + UnmetCost(j, s.visited)
  }

  // ---------------------------------------------------------------- the threads' places

  /** Counting a puller wakes at most the master. */
  lemma AnnounceCost(j: Job, s: State, pc: Pc)
    requires Fits(j, s)
    ensures Sum(Announced(s.dirs, pc), PcCost(j.jobs)) <=
            Sum(s.dirs.pcs, PcCost(j.jobs)) + (if pc == Woken then 0 else 1)
    ensures Sum(AwaitAnnounced(s.dirs.pcs, pc), PcCost(j.jobs)) <= Sum(s.dirs.pcs, PcCost(j.jobs)) + 1
  {
    hide Wake, Count, Sum, Fits;
    SumWake(s.dirs.pcs, AwaitingWorkers, WokenByWorkers, PcCost(j.jobs));
    OneAwaits(j, s);
  }

  lemma OneAwaits(j: Job, s: State)
    requires Fits(j, s)
    ensures Count(s.dirs.pcs, AwaitingWorkers) <= 1
  {
    hide Count;
    forall i | 0 <= i < |s.dirs.pcs| && i != j.jobs ensures s.dirs.pcs[i] != AwaitingWorkers {
      assert WorkerFits(s.workers[i], s.dirs.pcs[i]);
    }
    CountAtMostOne(s.dirs.pcs, AwaitingWorkers, j.jobs);
  }

  /** What a step does to the threads' share of the work. */
  function PcGain<T>(e: Event<T>, pc: Pc): int {
    match e
    case Push(_) => 3
    case NotifyOne(_) => -2
    case NotifyNobody => -3
    case NotifyAll => -1
    case Pull(_) => if pc == Woken then 2 else 1
    case PullClosed => if pc == Woken then 2 else 1
    case PullBlocks => -1
    case Spurious => 1
    case _ => 0
  }

  lemma WorkerPcs(j: Job, s: State, t: nat, e: Event<Item>, d: System<Item>)
    requires Fits(j, s) && t < j.jobs && Step(s.dirs, t, e, d)
    requires e.Push? || e.NotifyOne? || e.NotifyNobody? || e.Pull? || e.PullClosed? || e.PullBlocks? || e.Spurious?
    ensures Sum(d.pcs, PcCost(j.jobs)) <= Sum(s.dirs.pcs, PcCost(j.jobs)) + PcGain(e, s.dirs.pcs[t])
  {
    hide Count, Wake, Sum, Fits;
    var f := PcCost(j.jobs);
    var pc := s.dirs.pcs[t];
    match e
    case Push(_) => SumUpdate(s.dirs.pcs, t, OwesOne, f);
    case NotifyOne(sleeper) =>
      SumUpdate(s.dirs.pcs, t, Running, f);
      SumUpdate(s.dirs.pcs[t := Running], sleeper, Woken, f);
    case NotifyNobody => SumUpdate(s.dirs.pcs, t, Running, f);
    case PullBlocks =>
      AnnounceCost(j, s, pc);
      SumUpdate(Announced(s.dirs, pc), t, Asleep, f);
    case Spurious => SumUpdate(s.dirs.pcs, t, d.pcs[t], f);
    case _ =>
      AnnounceCost(j, s, pc);
      SumUpdate(Announced(s.dirs, pc), t, Running, f);
  }

  lemma MasterPcs(j: Job, s: State, e: Event<Item>, s': State)
    requires Fits(j, s) && MasterUse(j, s, e, s')
    ensures Sum(s'.dirs.pcs, PcCost(j.jobs)) <= Sum(s.dirs.pcs, PcCost(j.jobs)) +
            match e
            case AwaitBlocks(_) => -1
            case AwaitReturns(_, _) => 2
            case Close => j.jobs + 1
            case _ => PcGain(e, s.dirs.pcs[j.jobs])
  {
    hide Count, Wake, Sum;
    var f, t := PcCost(j.jobs), j.jobs;
    var pc := s.dirs.pcs[t];
    if e.NotifyOne? {
      SumUpdate(s.dirs.pcs, t, Running, f);
      SumUpdate(s.dirs.pcs[t := Running], e.sleeper, Woken, f);
    } else if e.NotifyAll? {
      SumUpdate(s.dirs.pcs, t, Running, f);
      SumWake(s.dirs.pcs[t := Running], Asleep, Woken, f);
      SleepersAmong(s.dirs.pcs[t := Running], t, t);
    } else if e.AwaitBlocks? {
      AwaitPcs(j, s, AwaitingWorkers);
    } else if e.AwaitReturns? {
      AwaitPcs(j, s, Running);
    } else {
      SumUpdate(s.dirs.pcs, t, s'.dirs.pcs[t], f);
    }
  }

  /** The master is the only thread that waits for the workers. */
  lemma AwaitPcs(j: Job, s: State, to: Pc)
    requires Fits(j, s) && (s.dirs.pcs[j.jobs] == Running || s.dirs.pcs[j.jobs] == WokenByWorkers)
    ensures Sum(AwaitAnnounced(s.dirs.pcs, s.dirs.pcs[j.jobs])[j.jobs := to], PcCost(j.jobs))
            + PcCost(j.jobs)(s.dirs.pcs[j.jobs]) ==
            Sum(s.dirs.pcs, PcCost(j.jobs)) + PcCost(j.jobs)(to)
  {
    forall i | 0 <= i < |s.dirs.pcs| ensures s.dirs.pcs[i] != AwaitingWorkers {
      assert i < j.jobs ==> WorkerFits(s.workers[i], s.dirs.pcs[i]);
    }
    assert AwaitAnnounced(s.dirs.pcs, s.dirs.pcs[j.jobs]) == s.dirs.pcs;
    SumUpdate(s.dirs.pcs, j.jobs, to, PcCost(j.jobs));
    hide Wake, Sum;
  }

  // ---------------------------------------------------------------- the work each step uses up

  lemma WorkerUseWorks(j: Job, height: seq<nat>, s: State, t: nat, e: Event<Item>, s': State)
    requires Finite(j, height) && InRange(j, s) && TreeWalk.Inv(j, s) && t < |s.workers| && WorkerUse(j, s, t, e, s')
    ensures if e == Spurious then Work(j, height, s') <= Work(j, height, s) + 1
            else Work(j, height, s') < Work(j, height, s)
  {
    hide Step, Sum, Finite, Count, EntriesCost, StartCost, UnmetCost, QueueProtocol.Inv, PcCost;
    WorkerNeverRefused(j, s, t, e, s');
    StepGuards(s.dirs, t, e, s'.dirs);
    WorkerPcs(j, s, t, e, s'.dirs);
    StepMoves(s.dirs, t, e, s'.dirs);
    assert WorkerInRange(j.c, s.workers[t]);
    if s'.workers != s.workers {
      SumUpdate(s.workers, t, s'.workers[t], WorkerCost(j, height));
    }
    if e.Push? {
      SumAppend(s.dirs.q.queue, e.x, ItemCost(j, height));
    } else if e.Pull? {
      SumOfTail(s.dirs.q.queue, ItemCost(j, height));
    }
  }

  lemma {:induction false} EntriesCostFollowing(j: Job, height: seq<nat>, at: Item, i: nat)
    requires Finite(j, height) && j.c.follow && at.dir < |j.c.tree| && i <= |j.c.tree[at.dir]|
    ensures EntriesCost(j, height, at, i) == |j.c.tree[at.dir]| - i
    decreases |j.c.tree[at.dir]| - i
  {
    if i < |j.c.tree[at.dir]| {
      EntriesCostFollowing(j, height, at, i + 1);
    }
  }

  lemma DirectoryCostsLess(j: Job, height: seq<nat>, x: Item)
    requires Finite(j, height) && j.c.follow && x.dir < |j.c.tree|
    ensures EntriesCost(j, height, x, 0) + 8 < DirectoryBound(j)
  {
    EntriesCostFollowing(j, height, x, 0);
    SumAtLeast(j.c.tree, x.dir, (entries: seq<Dirent>) => |entries|);
  }

  /** A new identifier brings the cost of one more directory into the open. */
  lemma NewIdentifierCost(j: Job, visited: set<Key>, k: Key)
    requires j.c.follow && k in Identifiers(j) && k !in visited
    ensures UnmetCost(j, visited + {k}) + DirectoryBound(j) == UnmetCost(j, visited)
  {
    hide Identifiers, DirectoryBound;
    var rest := Identifiers(j) - visited;
    assert Identifiers(j) - (visited + {k}) == rest - {k};
    ProductLess(|rest|, DirectoryBound(j));
  }

  lemma ProductLess(n: nat, each: nat)
    requires n > 0
    ensures Product(n, each) == Product(n - 1, each) + each
  {
  }

  /** One entry less to read. */
  lemma EntryWorks(j: Job, height: seq<nat>, at: Item, i: nat)
    requires Finite(j, height) && at.dir < |j.c.tree| && i < |j.c.tree[at.dir]|
    ensures EntriesCost(j, height, at, i) == 1 + EntriesCost(j, height, at, i + 1) + ChildCost(j, height, at, i)
  {
  }

  lemma ChildCostIs(j: Job, height: seq<nat>, at: Item, i: nat)
    requires Finite(j, height) && at.dir < |j.c.tree| && i < |j.c.tree[at.dir]|
    ensures ConsistentEntry(j.c, j.c.tree[at.dir][i])
    ensures var a := Classify(j.c, at, j.c.tree[at.dir][i]);
            a.Descend? ==>
              a.child.dir < |j.c.tree| &&
              (!j.c.follow ==> ChildCost(j, height, at, i) == EntriesCost(j, height, a.child, 0) + 8)
  {
    ChildInRange(j.c, at, i);
  }

  lemma WorkerLocalWorks(j: Job, height: seq<nat>, s: State, t: nat, s': State)
    requires Finite(j, height) && InRange(j, s) && Satisfied(HasKnownId(j), Known(j), s) && t < |s.workers|
    requires WorkerLocal(j, s, t, s')
    ensures Work(j, height, s') < Work(j, height, s)
  {
    hide Sum, Finite, EntriesCost, ChildCost, StartCost, UnmetCost, PcCost, Classify, Consistent, ConsistentEntry;
    hide ItemCost, Identifiers, HasKnownId, DirectoryBound, Satisfied;
    var Scanning(at, next, found) := s.workers[t];
    assert WorkerInRange(j.c, s.workers[t]);
    SumUpdate(s.workers, t, s'.workers[t], WorkerCost(j, height));
    if next < |j.c.tree[at.dir]| {
      EntryWorks(j, height, at, next);
      ChildCostIs(j, height, at, next);
      var a := Classify(j.c, at, j.c.tree[at.dir][next]);
      if a.Descend? && j.c.follow && a.child.id !in s.visited {
        MetIsKnown(j, s, t);
        NewIdentifierCost(j, s.visited, a.child.id);
        DirectoryCostsLess(j, height, a.child);
      }
    }
  }

  lemma MetIsKnown(j: Job, s: State, t: nat)
    requires InRange(j, s) && Satisfied(HasKnownId(j), Known(j), s) && t < |s.workers| && s.workers[t].Scanning?
    requires s.workers[t].next < |j.c.tree[s.workers[t].at.dir]|
    ensures ConsistentEntry(j.c, j.c.tree[s.workers[t].at.dir][s.workers[t].next])
    ensures var a := Classify(j.c, s.workers[t].at, j.c.tree[s.workers[t].at.dir][s.workers[t].next]);
            a.Descend? ==> a.child.id in Identifiers(j)
  {
    hide Identifiers, Classify;
    assert WorkerSatisfies(HasKnownId(j), s.workers[t]);
    ChildInRange(j.c, s.workers[t].at, s.workers[t].next);
    ChildIdentifierKnown(j, s.workers[t].at, s.workers[t].next);
  }

  lemma MasterUseWorks(j: Job, height: seq<nat>, s: State, e: Event<Item>, s': State)
    requires Finite(j, height) && InRange(j, s) && TreeWalk.Inv(j, s) && MasterUse(j, s, e, s')
    ensures if e == Spurious then Work(j, height, s') <= Work(j, height, s) + 1
            else Work(j, height, s') < Work(j, height, s)
  {
    hide Step, Sum, Finite, Count, EntriesCost, UnmetCost, QueueProtocol.Inv, PcCost, WorkerCost, ItemCost;
    StepGuards(s.dirs, j.jobs, e, s'.dirs);
    MasterPcs(j, s, e, s');
    if e.Push? {
      SumAppend(s.dirs.q.queue, e.x, ItemCost(j, height));
    }
  }

  lemma MasterLocalWorks(j: Job, height: seq<nat>, s: State, s': State)
    requires Finite(j, height) && InRange(j, s) && TreeWalk.Inv(j, s) && MasterLocal(j, s, s')
    ensures Work(j, height, s') < Work(j, height, s)
  {
    hide Sum, Finite, EntriesCost, UnmetCost, QueueProtocol.Inv, PcCost, ItemCost;
    if s.master.Starting? && s.master.next < |s.workers| {
      assert s.workers[s.master.next] == NotStarted;
      SumUpdate(s.workers, s.master.next, Looping, WorkerCost(j, height));
    }
  }

  /** A spurious wake-up costs one unit of work at most, and every other step uses up at least one. */
  lemma EveryStepWorks(j: Job, height: seq<nat>, s: State, t: nat, m: Move, s': State)
    requires Finite(j, height) && InRange(j, s) && TreeWalk.Inv(j, s) && Satisfied(HasKnownId(j), Known(j), s)
    requires Next(j, s, t, m, s')
    ensures if m == Use(Spurious) then Work(j, height, s') <= Work(j, height, s) + 1
            else Work(j, height, s') < Work(j, height, s)
  {
    hide InRange, TreeWalk.Inv, Satisfied, Work, Finite, WorkerUse, WorkerLocal, MasterUse, MasterLocal;
    WhoMoves(j, s, t, m, s');
    match m
    case Use(e) =>
      if t < j.jobs {
        WorkerUseWorks(j, height, s, t, e, s');
      } else {
        MasterUseWorks(j, height, s, e, s');
      }
    case Local =>
      if t < j.jobs {
        WorkerLocalWorks(j, height, s, t, s');
      } else {
        MasterLocalWorks(j, height, s, s');
      }
  }

  /** The spurious wake-ups among the first n steps. */
  function SpuriousIn(turns: seq<Turn>, n: nat): nat
    requires n <= |turns|
  {
    if n == 0 then 0 else SpuriousIn(turns, n - 1) + (if turns[n - 1].move == Use(Spurious) then 1 else 0)
  }

  /**
    * A run is no longer than the work there is at the start, but for two steps for each spurious
    * wake-up: on a cyclic graph too, and whatever the scheduler does.
    */
  lemma {:induction false} RunsAreBounded(j: Job, height: seq<nat>, states: seq<State>, turns: seq<Turn>, n: nat)
    requires j.jobs > 0 && Finite(j, height) && IsRun(j, states, turns) && n <= |turns|
    ensures n + Work(j, height, states[n]) <= Work(j, height, states[0]) + 2 * SpuriousIn(turns, n)
  {
    hide Next, Work, IsRun, Finite, TreeWalk.Inv, InRange, Satisfied, Initially, Identifiers, HasKnownId, Known;
    RunStart(j, states, turns);
    if n > 0 {
      RunsAreBounded(j, height, states, turns, n - 1);
      RunKeepsInv(j, states, turns, n - 1);
      FiniteIsWellFormed(j, height);
      IdentifiersAreClosed(j);
      KnownIdsAreKnown(j);
      RunSatisfies(j, HasKnownId(j), Known(j), states, turns, n - 1);
      RunStep(j, states, turns, n - 1);
      EveryStepWorks(j, height, states[n - 1], turns[n - 1].thread, turns[n - 1].move, states[n]);
    }
  }

  lemma FiniteIsWellFormed(j: Job, height: seq<nat>)
    requires Finite(j, height)
    ensures WellFormed(j)
  {
  }

  lemma KnownIdsAreKnown(j: Job)
    ensures forall x :: HasKnownId(j)(x) ==> Known(j)(x.id)
  {
  }
}
