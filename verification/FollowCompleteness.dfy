/** Which directories and files a walk that follows links reaches, and where it falls short. */
module FollowCompleteness {
  import opened SyncQueue
  import opened QueueProtocol
  import opened Traversal
  import opened TreeWalk
  import opened WalkRuns
  import opened Sums
  import opened WalkResults
  import opened FollowResults

  // ---------------------------------------------------------------- files of the directories pulled

  /** How many of the entries from position i on are accepted files whose path is p. */
  ghost function FilesFrom(c: Config, at: Item, i: nat, p: Path): nat
    requires Consistent(c) && at.dir < |c.tree| && i <= |c.tree[at.dir]|
    decreases |c.tree[at.dir]| - i
  {
    if i == |c.tree[at.dir]| then 0
    else
      (if Accepted(c, c.tree[at.dir][i]) && p == at.path + [c.tree[at.dir][i].name] then 1 else 0)
      + FilesFrom(c, at, i + 1, p)
  }

  ghost function FilesIn(c: Config, p: Path): Item -> nat
    requires Consistent(c)
  {
    (x: Item) => if ItemInRange(c, x) then FilesFrom(c, x, 0, p) else 0
  }

  ghost function FilesHeld(c: Config, p: Path): Worker -> nat
    requires Consistent(c)
  {
    (w: Worker) => if !WorkerInRange(c, w) then 0 else match w
      case Scanning(at, next, found) => Often(found, p) + FilesFrom(c, at, next, p)
      case Admitting(at, next, found, _) => Often(found, p) + FilesFrom(c, at, next, p)
      case _ => 0
  }

  /** How many of the first n command-line paths are the file p. */
  ghost function StartTimes(j: Job, p: Path, n: nat): nat
    requires n <= |j.starts|
  {
    if n == 0 then 0 else StartTimes(j, p, n - 1) + (if j.starts[n - 1] == StartFile(p) then 1 else 0)
  }

  /** What is reported and what is about to be is what the pulled directories and the command line hold. */
  ghost predicate FilesTally(j: Job, p: Path, s: State)
    requires WellFormed(j)
  {
    Often(s.out, p) + Sum(s.workers, FilesHeld(j.c, p)) ==
    Sum(s.pulled, FilesIn(j.c, p)) + StartTimes(j, p, Seeded(j, s.master))
  }

  lemma WorkerUseFiles(j: Job, p: Path, s: State, t: nat, e: Event<Item>, s': State)
    requires InRange(j, s) && t < |s.workers| && WorkerUse(j, s, t, e, s')
    requires FilesTally(j, p, s)
    ensures FilesTally(j, p, s')
  {
    hide Step, Sum, Often, FilesFrom, Consistent;
    OftenNothing<Path>(p);
    StepGuards(s.dirs, t, e, s'.dirs);
    assert WorkerInRange(j.c, s.workers[t]);
    if s'.workers != s.workers {
      SumUpdate(s.workers, t, s'.workers[t], FilesHeld(j.c, p));
    }
    if e.Pull? {
      SumAppend(s.pulled, e.item, FilesIn(j.c, p));
    }
  }

  lemma OftenNothing<T>(p: T)
    ensures Often([], p) == 0
  {
  }

  lemma EntryFiles(c: Config, p: Path, at: Item, i: nat, found: seq<Path>)
    requires Consistent(c) && at.dir < |c.tree| && i < |c.tree[at.dir]|
    ensures ConsistentEntry(c, c.tree[at.dir][i])
    ensures match Classify(c, at, c.tree[at.dir][i])
            case Found(file) =>
              FilesHeld(c, p)(Scanning(at, i + 1, found + [file])) == FilesHeld(c, p)(Scanning(at, i, found))
            case Descend(child) =>
              child.dir < |c.tree| &&
              FilesHeld(c, p)(Admitting(at, i + 1, found, child)) == FilesHeld(c, p)(Scanning(at, i, found)) &&
              FilesHeld(c, p)(Scanning(at, i + 1, found)) == FilesHeld(c, p)(Scanning(at, i, found))
            case Ignore => FilesHeld(c, p)(Scanning(at, i + 1, found)) == FilesHeld(c, p)(Scanning(at, i, found))
  {
    hide Consistent, ConsistentEntry, Classify, Often, Accepted;
    ChildInRange(c, at, i);
    ClassifyMeaning(c, at, c.tree[at.dir][i]);
    if Classify(c, at, c.tree[at.dir][i]).Found? {
      OftenAppend(found, Classify(c, at, c.tree[at.dir][i]).file, p);
    }
  }

  lemma EndFiles(c: Config, p: Path, at: Item, found: seq<Path>, out: seq<Path>)
    requires Consistent(c) && at.dir < |c.tree|
    ensures FilesHeld(c, p)(Looping) + Often(out + found, p) ==
            FilesHeld(c, p)(Scanning(at, |c.tree[at.dir]|, found)) + Often(out, p)
  {
    hide Consistent, Often;
    OftenConcat(out, found, p);
  }

  lemma WorkerLocalFiles(j: Job, p: Path, s: State, t: nat, s': State)
    requires InRange(j, s) && t < |s.workers| && WorkerLocal(j, s, t, s')
    requires FilesTally(j, p, s)
    ensures FilesTally(j, p, s')
  {
    hide Sum, Often, FilesFrom, FilesHeld, Consistent, ConsistentEntry, Classify;
    var Scanning(at, next, found) := s.workers[t];
    SumUpdate(s.workers, t, s'.workers[t], FilesHeld(j.c, p));
    if next < |j.c.tree[at.dir]| {
      EntryFiles(j.c, p, at, next, found);
    } else {
      EndFiles(j.c, p, at, found, s.out);
    }
  }

  lemma MasterFiles(j: Job, p: Path, s: State, m: Move, s': State)
    requires TreeWalk.Inv(j, s) && InRange(j, s) && Next(j, s, j.jobs, m, s')
    requires FilesTally(j, p, s)
    ensures FilesTally(j, p, s')
  {
    hide Sum, Often, FilesFrom, Consistent, Step, QueueProtocol.Inv;
    if s'.out != s.out {
      OftenAppend(s.out, j.starts[s.master.next].file, p);
    }
    if m.Local? && s.master.Starting? && s.master.next < |s.workers| {
      assert s.workers[s.master.next] == NotStarted;
      SumUpdate(s.workers, s.master.next, Looping, FilesHeld(j.c, p));
    }
  }

  lemma InitiallyFiles(j: Job, p: Path, s: State)
    requires WellFormed(j) && Initially(j, s)
    ensures InRange(j, s) && FilesTally(j, p, s)
  {
    SumOfNothing(s.workers, FilesHeld(j.c, p));
  }

  lemma NextFiles(j: Job, p: Path, s: State, t: nat, m: Move, s': State)
    requires TreeWalk.Inv(j, s) && InRange(j, s) && FilesTally(j, p, s) && Next(j, s, t, m, s')
    ensures FilesTally(j, p, s')
  {
    hide FilesTally, InRange, TreeWalk.Inv, WorkerUse, WorkerLocal, MasterUse, MasterLocal;
    WhoMoves(j, s, t, m, s');
    if t == j.jobs {
      MasterFiles(j, p, s, m, s');
    } else if m.Use? {
      WorkerUseFiles(j, p, s, t, m.e, s');
    } else {
      WorkerLocalFiles(j, p, s, t, s');
    }
  }

  lemma {:induction false} RunFiles(j: Job, p: Path, states: seq<State>, turns: seq<Turn>, n: nat)
    requires j.jobs > 0 && WellFormed(j) && IsRun(j, states, turns) && n < |states|
    ensures InRange(j, states[n]) && FilesTally(j, p, states[n])
  {
    hide *;
    RunStart(j, states, turns);
    if n == 0 {
      InitiallyFiles(j, p, states[0]);
    } else {
      RunFiles(j, p, states, turns, n - 1);
      RunKeepsInv(j, states, turns, n - 1);
      RunStep(j, states, turns, n - 1);
      NextKeepsInRange(j, states[n - 1], turns[n - 1].thread, turns[n - 1].move, states[n]);
      NextFiles(j, p, states[n - 1], turns[n - 1].thread, turns[n - 1].move, states[n]);
    }
  }

  /** With or without links: what is reported is what the directories pulled hold, file by file. */
  lemma ReportedIsWhatWasPulled(j: Job, p: Path, states: seq<State>, turns: seq<Turn>, n: nat)
    requires j.jobs > 0 && WellFormed(j) && IsRun(j, states, turns) && n < |states|
    requires Over(states[n].master)
    ensures Often(states[n].out, p) == Sum(states[n].pulled, FilesIn(j.c, p)) + StartTimes(j, p, |j.starts|)
  {
    hide FilesFrom, Often;
    CompletionIsFinal(j, states, turns, n, n);
    RunFiles(j, p, states, turns, n);
    SumOfNothing(states[n].workers, FilesHeld(j.c, p));
  }

  // ---------------------------------------------------------------- every subdirectory met was admitted

  /** The subdirectories among the first n entries have identifiers that were admitted. */
  ghost predicate Covered(j: Job, visited: set<Key>, at: Item, n: nat)
    requires WellFormed(j)
  {
    at.dir < |j.c.tree| && n <= |j.c.tree[at.dir]| && forall i :: 0 <= i < n ==> CoveredAt(j, visited, at, i)
  }

  ghost predicate CoveredAt(j: Job, visited: set<Key>, at: Item, i: nat)
    requires WellFormed(j) && at.dir < |j.c.tree| && i < |j.c.tree[at.dir]|
  {
    ChildInRange(j.c, at, i);
    var a := Classify(j.c, at, j.c.tree[at.dir][i]);
    a.Descend? ==> a.child.id in visited
  }

  predicate Holds(w: Worker, x: Item) {
    (w.Scanning? || w.Admitting?) && w.at == x
  }

  ghost predicate WorkerCovered(j: Job, visited: set<Key>, w: Worker)
    requires WellFormed(j)
  {
    w.Scanning? || w.Admitting? ==> Covered(j, visited, w.at, w.next)
  }

  ghost predicate PulledCovered(j: Job, s: State, x: Item)
    requires WellFormed(j)
  {
    ReadThrough(j, s.visited, x) || exists t :: 0 <= t < |s.workers| && Holds(s.workers[t], x)
  }

  ghost predicate ReadThrough(j: Job, visited: set<Key>, x: Item)
    requires WellFormed(j)
  {
    x.dir < |j.c.tree| && Covered(j, visited, x, |j.c.tree[x.dir]|)
  }

  ghost predicate Coverage(j: Job, s: State)
    requires WellFormed(j)
  {
    && (forall t :: 0 <= t < |s.workers| ==> WorkerCovered(j, s.visited, s.workers[t]))
    && (forall q :: 0 <= q < |s.pulled| ==> PulledCovered(j, s, s.pulled[q]))
  }

  lemma CoveredGrows(j: Job, visited: set<Key>, visited': set<Key>, at: Item, n: nat)
    requires WellFormed(j) && visited <= visited' && Covered(j, visited, at, n)
    ensures Covered(j, visited', at, n)
  {
    forall i | 0 <= i < n ensures CoveredAt(j, visited', at, i) {
      assert CoveredAt(j, visited, at, i);
    }
  }

  /** Other workers, and the directories they hold, are not affected by a step of worker t. */
  lemma CoverageAfter(j: Job, s: State, t: nat, s': State)
    requires WellFormed(j) && Coverage(j, s) && t < |s.workers|
    requires |s'.workers| == |s.workers| && s.visited <= s'.visited && s'.workers == s.workers[t := s'.workers[t]]
    requires s'.pulled == s.pulled
    requires WorkerCovered(j, s'.visited, s'.workers[t])
    requires forall x :: Holds(s.workers[t], x) ==> Holds(s'.workers[t], x) || ReadThrough(j, s'.visited, x)
    ensures Coverage(j, s')
  {
    hide WellFormed, Covered;
    forall i | 0 <= i < |s'.workers| ensures WorkerCovered(j, s'.visited, s'.workers[i]) {
      assert WorkerCovered(j, s.visited, s.workers[i]);
      if i != t && (s.workers[i].Scanning? || s.workers[i].Admitting?) {
        CoveredGrows(j, s.visited, s'.visited, s.workers[i].at, s.workers[i].next);
      }
    }
    forall q | 0 <= q < |s.pulled| ensures PulledCovered(j, s', s.pulled[q]) {
      var x := s.pulled[q];
      assert PulledCovered(j, s, x);
      if ReadThrough(j, s.visited, x) {
        CoveredGrows(j, s.visited, s'.visited, x, |j.c.tree[x.dir]|);
      } else {
        var i :| 0 <= i < |s.workers| && Holds(s.workers[i], x);
        assert i != t ==> Holds(s'.workers[i], x);
        assert i == t ==> Holds(s'.workers[t], x) || ReadThrough(j, s'.visited, x);
      }
    }
  }

  lemma PullCovers(j: Job, s: State, t: nat, x: Item, s': State)
    requires InRange(j, s) && Coverage(j, s) && t < |s.workers| && s.workers[t] == Looping && ItemInRange(j.c, x)
    requires s'.workers == s.workers[t := Scanning(x, 0, [])] && s'.pulled == s.pulled + [x] && s'.visited == s.visited
    ensures Coverage(j, s')
  {
    hide WellFormed, Consistent;
    var mid := s.(workers := s'.workers);
    CoverageAfter(j, s, t, mid);
    hide ReadThrough;
    forall q | 0 <= q < |s'.pulled| ensures PulledCovered(j, s', s'.pulled[q]) {
      if q < |s.pulled| {
        assert PulledCovered(j, mid, mid.pulled[q]);
      } else {
        assert Holds(s'.workers[t], x);
      }
    }
  }

  lemma WorkerUseCovers(j: Job, s: State, t: nat, e: Event<Item>, s': State)
    requires InRange(j, s) && Coverage(j, s) && t < |s.workers| && WorkerUse(j, s, t, e, s')
    ensures Coverage(j, s')
  {
    hide Step, Covered, ReadThrough, Coverage;
    StepGuards(s.dirs, t, e, s'.dirs);
    if e.Pull? {
      assert ItemInRange(j.c, s.dirs.q.queue[0]);
      PullCovers(j, s, t, e.item, s');
    } else {
      WorkerIsCovered(j, s, t);
      CoverageAfter(j, s, t, s');
    }
  }

  lemma WorkerIsCovered(j: Job, s: State, t: nat)
    requires WellFormed(j) && Coverage(j, s) && t < |s.workers|
    ensures WorkerCovered(j, s.visited, s.workers[t])
  {
  }

  lemma WorkerLocalCovers(j: Job, s: State, t: nat, s': State)
    requires j.c.follow && InRange(j, s) && Coverage(j, s) && t < |s.workers| && WorkerLocal(j, s, t, s')
    ensures Coverage(j, s')
  {
    hide Coverage, ConsistentEntry, Consistent, Classify;
    WorkerIsCovered(j, s, t);
    var Scanning(at, next, found) := s.workers[t];
    CoveredGrows(j, s.visited, s'.visited, at, next);
    if next < |j.c.tree[at.dir]| {
      assert CoveredAt(j, s'.visited, at, next);
      OneMoreCovered(j, s'.visited, at, next);
    }
    CoverageAfter(j, s, t, s');
  }

  lemma OneMoreCovered(j: Job, visited: set<Key>, at: Item, n: nat)
    requires WellFormed(j) && Covered(j, visited, at, n) && n < |j.c.tree[at.dir]| && CoveredAt(j, visited, at, n)
    ensures Covered(j, visited, at, n + 1)
  {
  }

  lemma MasterCovers(j: Job, s: State, m: Move, s': State)
    requires TreeWalk.Inv(j, s) && InRange(j, s) && Coverage(j, s) && Next(j, s, j.jobs, m, s')
    ensures Coverage(j, s')
  {
    hide Step, Covered, ReadThrough, Coverage, QueueProtocol.Inv;
    if m.Local? && s.master.Starting? && s.master.next < |s.workers| {
      CoverageAfter(j, s, s.master.next, s');
    } else {
      SameCoverage(j, s, s');
    }
  }

  lemma SameCoverage(j: Job, s: State, s': State)
    requires WellFormed(j) && Coverage(j, s)
    requires s'.workers == s.workers && s'.visited == s.visited && s'.pulled == s.pulled
    ensures Coverage(j, s')
  {
    hide ReadThrough, WorkerCovered;
    forall q | 0 <= q < |s.pulled| ensures PulledCovered(j, s', s.pulled[q]) {
      assert PulledCovered(j, s, s.pulled[q]);
    }
  }

  lemma NextCovers(j: Job, s: State, t: nat, m: Move, s': State)
    requires j.c.follow && TreeWalk.Inv(j, s) && InRange(j, s) && Coverage(j, s) && Next(j, s, t, m, s')
    ensures Coverage(j, s')
  {
    hide Coverage, InRange, TreeWalk.Inv, WorkerUse, WorkerLocal, MasterUse, MasterLocal;
    WhoMoves(j, s, t, m, s');
    if t == j.jobs {
      MasterCovers(j, s, m, s');
    } else if m.Use? {
      WorkerUseCovers(j, s, t, m.e, s');
    } else {
      WorkerLocalCovers(j, s, t, s');
    }
  }

  lemma {:induction false} RunCovers(j: Job, states: seq<State>, turns: seq<Turn>, n: nat)
    requires j.jobs > 0 && WellFormed(j) && j.c.follow && IsRun(j, states, turns) && n < |states|
    ensures InRange(j, states[n]) && Coverage(j, states[n])
  {
    hide *;
    RunStart(j, states, turns);
    if n == 0 {
      InitiallyCovers(j, states[0]);
    } else {
      RunCovers(j, states, turns, n - 1);
      RunKeepsInv(j, states, turns, n - 1);
      RunStep(j, states, turns, n - 1);
      NextKeepsInRange(j, states[n - 1], turns[n - 1].thread, turns[n - 1].move, states[n]);
      NextCovers(j, states[n - 1], turns[n - 1].thread, turns[n - 1].move, states[n]);
    }
  }

  lemma InitiallyCovers(j: Job, s: State)
    requires WellFormed(j) && Initially(j, s)
    ensures InRange(j, s) && Coverage(j, s)
  {
  }

  // ---------------------------------------------------------------- reachable directories are read

  /** x was reached from the command line through the chain of subdirectories xs. */
  ghost predicate Chain(j: Job, xs: seq<Item>)
    requires WellFormed(j)
  {
    && |xs| > 0
    && (exists i :: 0 <= i < |j.starts| && j.starts[i] == StartDirectory(xs[0]))
    && forall n :: 0 <= n < |xs| - 1 ==> Child(j, xs[n], xs[n + 1])
  }

  ghost predicate Child(j: Job, at: Item, x: Item)
    requires WellFormed(j)
  {
    at.dir < |j.c.tree| && exists i :: 0 <= i < |j.c.tree[at.dir]| && ChildAt(j, at, i, x)
  }

  ghost predicate ChildAt(j: Job, at: Item, i: nat, x: Item)
    requires WellFormed(j) && at.dir < |j.c.tree| && i < |j.c.tree[at.dir]|
  {
    Admissible(j.c, j.c.tree[at.dir][i]) && x == ChildOf(j.c, at, j.c.tree[at.dir][i])
  }

  /** The directory can be reached, by this path and under this identifier. */
  ghost predicate Reachable(j: Job, x: Item)
    requires WellFormed(j)
  {
    exists xs :: Chain(j, xs) && xs[|xs| - 1] == x
  }

  lemma StartIsReachable(j: Job, i: nat)
    requires WellFormed(j) && i < |j.starts| && j.starts[i].StartDirectory?
    ensures Reachable(j, j.starts[i].item)
  {
    assert Chain(j, [j.starts[i].item]);
  }

  lemma ChildIsReachable(j: Job, at: Item, x: Item)
    requires WellFormed(j) && Reachable(j, at) && Child(j, at, x)
    ensures Reachable(j, x)
  {
    var xs :| Chain(j, xs) && xs[|xs| - 1] == at;
    var ys := xs + [x];
    forall n | 0 <= n < |ys| - 1 ensures Child(j, ys[n], ys[n + 1]) {
      assert n < |xs| - 1 ==> Child(j, xs[n], xs[n + 1]);
    }
    assert Chain(j, ys);
  }

  ghost function IsReachable(j: Job): Item -> bool
    requires WellFormed(j)
  {
    (x: Item) => Reachable(j, x)
  }

  lemma ReachableIsInherited(j: Job)
    requires WellFormed(j)
    ensures Inherited(j, IsReachable(j))
  {
    hide Chain;
    forall i | 0 <= i < |j.starts| && j.starts[i].StartDirectory? ensures IsReachable(j)(j.starts[i].item) {
      StartIsReachable(j, i);
    }
    forall at, i | IsReachable(j)(at) && at.dir < |j.c.tree| && 0 <= i < |j.c.tree[at.dir]|
      ensures InheritedBy(j, IsReachable(j), at, i)
    {
      ChildInRange(j.c, at, i);
      ClassifyMeaning(j.c, at, j.c.tree[at.dir][i]);
      var a := Classify(j.c, at, j.c.tree[at.dir][i]);
      if a.Descend? {
        assert ChildAt(j, at, i, a.child);
        ChildIsReachable(j, at, a.child);
      }
    }
  }

  /** Nothing is pulled that cannot be reached. */
  lemma PulledIsReachable(j: Job, states: seq<State>, turns: seq<Turn>, n: nat, q: nat)
    requires WellFormed(j) && IsRun(j, states, turns) && n < |states| && q < |states[n].pulled|
    ensures Reachable(j, states[n].pulled[q])
  {
    hide Reachable;
    ReachableIsInherited(j);
    RunSatisfies(j, IsReachable(j), (k: Key) => true, states, turns, n);
    assert IsReachable(j)(states[n].pulled[q]);
  }

  /** The identifier under which a directory is met stands for no other directory that can be reached. */
  ghost predicate Own(j: Job, x: Item)
    requires WellFormed(j)
  {
    forall y :: Reachable(j, y) && y.id == x.id ==> y.dir == x.dir
  }

  /** No two directories that can be reached share an identifier. */
  ghost predicate Faithful(j: Job)
    requires WellFormed(j)
  {
    forall x :: Reachable(j, x) ==> Own(j, x)
  }

  /** A chain on which every identifier stands for its directory alone. */
  ghost predicate OwnChain(j: Job, xs: seq<Item>)
    requires WellFormed(j)
  {
    Chain(j, xs) && forall i :: 0 <= i < |xs| ==> Own(j, xs[i])
  }

  /** Every directory on a chain can be reached. */
  lemma {:induction false} ChainIsReachable(j: Job, xs: seq<Item>, i: nat)
    requires WellFormed(j) && Chain(j, xs) && i < |xs|
    ensures Reachable(j, xs[i])
  {
    assert Chain(j, xs[..i + 1]) && xs[..i + 1][i] == xs[i];
  }

  lemma FaithfulChain(j: Job, xs: seq<Item>)
    requires WellFormed(j) && Faithful(j) && Chain(j, xs)
    ensures OwnChain(j, xs)
  {
    hide Own, Reachable;
    forall i | 0 <= i < |xs| ensures Own(j, xs[i]) {
      ChainIsReachable(j, xs, i);
    }
  }

  /** The directory was pulled under this identifier, perhaps by another path. */
  ghost predicate Read(s: State, x: Item) {
    exists q :: 0 <= q < |s.pulled| && s.pulled[q].dir == x.dir && s.pulled[q].id == x.id
  }

  lemma {:induction false} PulledUnder(items: seq<Item>, k: Key) returns (q: nat)
    requires Sum(items, Weight(Only(k))) > 0
    ensures q < |items| && items[q].id == k
  {
    if items[0].id == k {
      q := 0;
    } else {
      q := PulledUnder(items[1..], k);
      q := q + 1;
    }
  }

  lemma {:induction false} StartCounts(j: Job, n: nat, i: nat)
    requires i < n <= |j.starts| && j.starts[i].StartDirectory?
    ensures StartWeight(j, Only(j.starts[i].item.id), n) > 0
  {
    if i < n - 1 {
      StartCounts(j, n - 1, i);
    }
  }

  /** An identifier admitted, or carried by a start directory, has been pulled by the end. */
  lemma AdmittedIsRead(j: Job, states: seq<State>, turns: seq<Turn>, n: nat, x: Item)
    requires j.jobs > 0 && WellFormed(j) && j.c.follow && IsRun(j, states, turns) && n < |states|
    requires Over(states[n].master) && Own(j, x)
    requires x.id in states[n].visited || StartWeight(j, Only(x.id), |j.starts|) > 0
    ensures Read(states[n], x)
  {
    hide IsRun, Reachable, WellFormed;
    EachIdentifierPulledOnce(j, states, turns, n);
    assert TimesPulled(states[n], x.id) > 0;
    var q := PulledUnder(states[n].pulled, x.id);
    PulledIsReachable(j, states, turns, n, q);
  }

  lemma EndIsReadThrough(j: Job, states: seq<State>, turns: seq<Turn>, n: nat, q: nat)
    requires j.jobs > 0 && WellFormed(j) && j.c.follow && IsRun(j, states, turns) && n < |states|
    requires Over(states[n].master) && q < |states[n].pulled|
    ensures ReadThrough(j, states[n].visited, states[n].pulled[q])
  {
    hide IsRun, ReadThrough, WellFormed;
    CompletionIsFinal(j, states, turns, n, n);
    RunCovers(j, states, turns, n);
    assert PulledCovered(j, states[n], states[n].pulled[q]);
  }

  /** Two sightings of a directory have the same subdirectories, under the same identifiers. */
  lemma ChildIsAdmitted(j: Job, visited: set<Key>, at: Item, at': Item, x: Item)
    requires WellFormed(j) && at.dir == at'.dir && at.id == at'.id && Child(j, at, x)
    requires ReadThrough(j, visited, at')
    ensures x.id in visited
  {
    var i: nat :| i < |j.c.tree[at.dir]| && ChildAt(j, at, i, x);
    ChildInRange(j.c, at', i);
    ClassifyMeaning(j.c, at', j.c.tree[at.dir][i]);
    assert Classify(j.c, at', j.c.tree[at.dir][i]) == Descend(ChildOf(j.c, at', j.c.tree[at.dir][i]));
    assert CoveredAt(j, visited, at', i);
  }

  /**
    * Following links, a directory is read in every interleaving and whatever cycles there are, if it can be
    * reached by a chain of directories whose identifiers each stand for one directory.
    */
  lemma {:induction false} EveryReachableDirectoryIsRead(j: Job, states: seq<State>, turns: seq<Turn>, n: nat,
                                                         xs: seq<Item>)
    requires j.jobs > 0 && WellFormed(j) && j.c.follow && IsRun(j, states, turns) && n < |states|
    requires Over(states[n].master) && OwnChain(j, xs)
    ensures Read(states[n], xs[|xs| - 1])
    decreases |xs|
  {
    hide IsRun, WellFormed, ReadThrough, Child, Own;
    var last := xs[|xs| - 1];
    if |xs| == 1 {
      var i: nat :| i < |j.starts| && j.starts[i] == StartDirectory(last);
      StartCounts(j, |j.starts|, i);
    } else {
      var before := xs[|xs| - 2];
      assert OwnChain(j, xs[..|xs| - 1]);
      EveryReachableDirectoryIsRead(j, states, turns, n, xs[..|xs| - 1]);
      assert Child(j, before, last);
      var q: nat :| q < |states[n].pulled| && states[n].pulled[q].dir == before.dir
                    && states[n].pulled[q].id == before.id;
      EndIsReadThrough(j, states, turns, n, q);
      ChildIsAdmitted(j, states[n].visited, before, states[n].pulled[q], last);
    }
    AdmittedIsRead(j, states, turns, n, last);
  }

  lemma {:induction false} AcceptedEntryCounts(c: Config, at: Item, i: nat, k: nat, p: Path)
    requires Consistent(c) && at.dir < |c.tree| && i <= k < |c.tree[at.dir]|
    requires Accepted(c, c.tree[at.dir][k]) && p == at.path + [c.tree[at.dir][k].name]
    ensures FilesFrom(c, at, i, p) > 0
    decreases k - i
  {
    if i < k {
      AcceptedEntryCounts(c, at, i + 1, k, p);
    }
  }

  /** Hence every accepted file of every reachable directory is reported, under a path that leads to it. */
  lemma EveryReachableFileIsReported(j: Job, states: seq<State>, turns: seq<Turn>, n: nat,
                                     xs: seq<Item>, x: Item, k: nat)
    returns (p: Path)
    requires j.jobs > 0 && WellFormed(j) && j.c.follow && IsRun(j, states, turns) && n < |states|
    requires Over(states[n].master) && OwnChain(j, xs) && x == xs[|xs| - 1]
    requires x.dir < |j.c.tree| && k < |j.c.tree[x.dir]| && Accepted(j.c, j.c.tree[x.dir][k])
    ensures p in states[n].out && p != [] && p[|p| - 1] == j.c.tree[x.dir][k].name
    ensures exists q :: 0 <= q < |states[n].pulled| && states[n].pulled[q].dir == x.dir &&
                        p[..|p| - 1] == states[n].pulled[q].path
  {
    hide IsRun, Chain, Faithful;
    var s := states[n];
    EveryReachableDirectoryIsRead(j, states, turns, n, xs);
    var q: nat :| q < |s.pulled| && s.pulled[q].dir == x.dir && s.pulled[q].id == x.id;
    var y := s.pulled[q];
    p := y.path + [j.c.tree[x.dir][k].name];
    ReportedIsWhatWasPulled(j, p, states, turns, n);
    SumAtLeast(s.pulled, q, FilesIn(j.c, p));
    AcceptedEntryCounts(j.c, y, 0, k, p);
    assert p[..|p| - 1] == y.path;
  }
}
