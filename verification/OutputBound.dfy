/** How many files a walk can put out, links and cycles included. */
module OutputBound {
  import opened SyncQueue
  import opened QueueProtocol
  import opened Traversal
  import opened TreeWalk
  import opened WalkRuns
  import opened Sums
  import opened WalkResults
  import opened FollowResults

  ghost function EntryCount(c: Config): Item -> nat {
    (x: Item) => if ItemInRange(c, x) then |c.tree[x.dir]| else 0
  }

  /** The files a worker has found and the entries it has yet to read. */
  ghost function HeldCount(c: Config): Worker -> nat {
    (w: Worker) => if !WorkerInRange(c, w) then 0 else match w
      case Scanning(at, next, found) => |found| + |c.tree[at.dir]| - next
      case Admitting(at, next, found, _) => |found| + |c.tree[at.dir]| - next
      case _ => 0
  }

  /** How many of the first n command-line paths are files. */
  function StartFileCount(j: Job, n: nat): nat
    requires n <= |j.starts|
  {
    if n == 0 then 0 else StartFileCount(j, n - 1) + (if j.starts[n - 1].StartFile? then 1 else 0)
  }

  /** No more files are put out or held than the directories pulled and the command line have entries. */
  ghost predicate WithinEntries(j: Job, s: State) {
    |s.out| + Sum(s.workers, HeldCount(j.c)) <=
    Sum(s.pulled, EntryCount(j.c)) + StartFileCount(j, Seeded(j, s.master))
  }

  lemma WorkerUseWithin(j: Job, s: State, t: nat, e: Event<Item>, s': State)
    requires InRange(j, s) && t < |s.workers| && WorkerUse(j, s, t, e, s') && WithinEntries(j, s)
    ensures WithinEntries(j, s')
  {
    hide Step, Sum, Consistent, WellFormed;
    StepGuards(s.dirs, t, e, s'.dirs);
    assert WorkerInRange(j.c, s.workers[t]);
    if s'.workers != s.workers {
      SumUpdate(s.workers, t, s'.workers[t], HeldCount(j.c));
    }
    if e.Pull? {
      SumAppend(s.pulled, e.item, EntryCount(j.c));
    }
  }

  lemma WorkerLocalWithin(j: Job, s: State, t: nat, s': State)
    requires InRange(j, s) && t < |s.workers| && WorkerLocal(j, s, t, s') && WithinEntries(j, s)
    ensures WithinEntries(j, s')
  {
    hide Sum, Consistent, ConsistentEntry, Classify;
    var Scanning(at, next, found) := s.workers[t];
    SumUpdate(s.workers, t, s'.workers[t], HeldCount(j.c));
    if next < |j.c.tree[at.dir]| {
      ChildInRange(j.c, at, next);
    }
  }

  lemma MasterWithin(j: Job, s: State, m: Move, s': State)
    requires TreeWalk.Inv(j, s) && InRange(j, s) && Next(j, s, j.jobs, m, s') && WithinEntries(j, s)
    ensures WithinEntries(j, s')
  {
    hide Sum, Step, QueueProtocol.Inv, Consistent;
    if m.Local? && s.master.Starting? && s.master.next < |s.workers| {
      assert s.workers[s.master.next] == NotStarted;
      SumUpdate(s.workers, s.master.next, Looping, HeldCount(j.c));
    }
  }

  lemma NextWithin(j: Job, s: State, t: nat, m: Move, s': State)
    requires TreeWalk.Inv(j, s) && InRange(j, s) && WithinEntries(j, s) && Next(j, s, t, m, s')
    ensures WithinEntries(j, s')
  {
    hide WithinEntries, InRange, TreeWalk.Inv, WorkerUse, WorkerLocal, MasterUse, MasterLocal;
    WhoMoves(j, s, t, m, s');
    if t == j.jobs {
      MasterWithin(j, s, m, s');
    } else if m.Use? {
      WorkerUseWithin(j, s, t, m.e, s');
    } else {
      WorkerLocalWithin(j, s, t, s');
    }
  }

  lemma InitiallyWithin(j: Job, s: State)
    requires WellFormed(j) && Initially(j, s)
    ensures InRange(j, s) && WithinEntries(j, s)
  {
    SumOfNothing(s.workers, HeldCount(j.c));
  }

  lemma {:induction false} RunWithin(j: Job, states: seq<State>, turns: seq<Turn>, n: nat)
    requires j.jobs > 0 && WellFormed(j) && IsRun(j, states, turns) && n < |states|
    ensures InRange(j, states[n]) && WithinEntries(j, states[n])
  {
    hide *;
    RunStart(j, states, turns);
    if n == 0 {
      InitiallyWithin(j, states[0]);
    } else {
      RunWithin(j, states, turns, n - 1);
      RunKeepsInv(j, states, turns, n - 1);
      RunStep(j, states, turns, n - 1);
      NextKeepsInRange(j, states[n - 1], turns[n - 1].thread, turns[n - 1].move, states[n]);
      NextWithin(j, states[n - 1], turns[n - 1].thread, turns[n - 1].move, states[n]);
    }
  }

  /** The length of the longest directory. */
  function Longest(tree: seq<seq<Dirent>>): (r: nat)
    ensures forall d :: 0 <= d < |tree| ==> |tree[d]| <= r
  {
    if tree == [] then 0
    else
      var rest := Longest(tree[1..]);
      assert forall d :: 0 < d < |tree| ==> tree[d] == tree[1..][d - 1];
      if |tree[0]| > rest then |tree[0]| else rest
  }

  lemma {:induction false} SumOfBounded<T>(s: seq<T>, f: T -> nat, each: nat)
    requires forall i :: 0 <= i < |s| ==> f(s[i]) <= each
    ensures Sum(s, f) <= |s| * each
  {
    if s == [] {
    } else {
      SumOfBounded(s[1..], f, each);
      assert |s| * each == (|s| - 1) * each + each;
    }
  }

  /** Files named on the command line, and the longest directory for every one that can ever be pulled. */
  ghost function FollowingLimit(j: Job): nat {
    StartFileCount(j, |j.starts|)
    + (StartWeight(j, Everything, |j.starts|) + |Identifiers(j)|) * Longest(j.c.tree)
  }

  lemma {:induction false} StartFileCountGrows(j: Job, a: nat, b: nat)
    requires a <= b <= |j.starts|
    ensures StartFileCount(j, a) <= StartFileCount(j, b)
    decreases b
  {
    if a < b {
      StartFileCountGrows(j, a, b - 1);
    }
  }

  lemma TimesGrows(a: nat, b: nat, c: nat)
    requires a <= b
    ensures a * c <= b * c
  {
    assert b * c == a * c + (b - a) * c;
  }

  /** Following links, at every moment of every run the files put out are no more than that. */
  lemma FollowingOutputIsBounded(j: Job, states: seq<State>, turns: seq<Turn>, n: nat)
    requires j.jobs > 0 && WellFormed(j) && j.c.follow && IsRun(j, states, turns) && n < |states|
    ensures |states[n].out| <= FollowingLimit(j)
  {
    hide IsRun, WellFormed, Identifiers;
    var s := states[n];
    RunWithin(j, states, turns, n);
    FollowingIsBounded(j, states, turns, n);
    SumOfBounded(s.pulled, EntryCount(j.c), Longest(j.c.tree));
    TimesGrows(|s.pulled|, StartWeight(j, Everything, |j.starts|) + |Identifiers(j)|, Longest(j.c.tree));
    StartFileCountGrows(j, Seeded(j, s.master), |j.starts|);
  }
}
