/**
  * What the parallel walk does when it follows links: identifiers are admitted once, so the walk is
  * bounded even on a cyclic graph, and it reads every directory whose identifier is its own.
  */
module FollowResults {
  import opened SyncQueue
  import opened QueueProtocol
  import opened Traversal
  import opened TreeWalk
  import opened WalkRuns
  import opened Sums
  import opened WalkResults

  // ---------------------------------------------------------------- a property every directory has

  predicate WorkerSatisfies(P: Item -> bool, w: Worker) {
    match w
    case Scanning(at, _, _) => P(at)
    case Admitting(at, _, _, child) => P(at) && P(child)
    case _ => true
  }

  /** The start directories have the property, and so have the subdirectories of those that have it. */
  ghost predicate Inherited(j: Job, P: Item -> bool)
    requires WellFormed(j)
  {
    && (forall i :: 0 <= i < |j.starts| && j.starts[i].StartDirectory? ==> P(j.starts[i].item))
    && forall at, i :: P(at) && at.dir < |j.c.tree| && 0 <= i < |j.c.tree[at.dir]| ==>
         InheritedBy(j, P, at, i)
  }

  ghost predicate InheritedBy(j: Job, P: Item -> bool, at: Item, i: nat)
    requires WellFormed(j) && at.dir < |j.c.tree| && i < |j.c.tree[at.dir]|
  {
    ChildInRange(j.c, at, i);
    var a := Classify(j.c, at, j.c.tree[at.dir][i]);
    a.Descend? ==> P(a.child)
  }

  ghost predicate Satisfied(P: Item -> bool, K: Key -> bool, s: State) {
    && (forall i :: 0 <= i < |s.dirs.q.queue| ==> P(s.dirs.q.queue[i]))
    && (forall i :: 0 <= i < |s.workers| ==> WorkerSatisfies(P, s.workers[i]))
    && (forall i :: 0 <= i < |s.pulled| ==> P(s.pulled[i]))
    && (forall k :: k in s.visited ==> K(k))
  }

  lemma NextKeepsSatisfied(j: Job, P: Item -> bool, K: Key -> bool, s: State, t: nat, m: Move, s': State)
    requires InRange(j, s) && Inherited(j, P) && (forall x :: P(x) ==> K(x.id))
    requires Satisfied(P, K, s) && Next(j, s, t, m, s')
    ensures Satisfied(P, K, s')
  {
    hide Step, Classify, ConsistentEntry, Consistent;
    match m
    case Use(e) =>
      StepGuards(s.dirs, t, e, s'.dirs);
      if t < |s.workers| {
        assert WorkerSatisfies(P, s.workers[t]);
      }
    case Local =>
      if t < |s.workers| {
        assert WorkerSatisfies(P, s.workers[t]) && WorkerInRange(j.c, s.workers[t]);
        var Scanning(at, next, _) := s.workers[t];
        if next < |j.c.tree[at.dir]| {
          assert InheritedBy(j, P, at, next);
        }
      }
  }

  lemma {:induction false} RunSatisfies(j: Job, P: Item -> bool, K: Key -> bool, states: seq<State>, turns: seq<Turn>,
                                        k: nat)
    requires WellFormed(j) && IsRun(j, states, turns) && k < |states|
    requires Inherited(j, P) && (forall x :: P(x) ==> K(x.id))
    ensures InRange(j, states[k]) && Satisfied(P, K, states[k])
  {
    hide *;
    RunStart(j, states, turns);
    if k == 0 {
      InitiallySatisfied(j, P, K, states[0]);
    } else {
      RunSatisfies(j, P, K, states, turns, k - 1);
      RunStep(j, states, turns, k - 1);
      NextKeepsInRange(j, states[k - 1], turns[k - 1].thread, turns[k - 1].move, states[k]);
      NextKeepsSatisfied(j, P, K, states[k - 1], turns[k - 1].thread, turns[k - 1].move, states[k]);
    }
  }

  lemma InitiallySatisfied(j: Job, P: Item -> bool, K: Key -> bool, s: State)
    requires WellFormed(j) && Initially(j, s)
    ensures InRange(j, s) && Satisfied(P, K, s)
  {
  }

  // ---------------------------------------------------------------- identifiers are admitted once

  /** Count every directory, or only those with one identifier. */
  datatype Choice = Everything | Only(k: Key)

  predicate Chosen(o: Choice, k: Key) {
    o.Everything? || o.k == k
  }

  ghost function Weight(o: Choice): Item -> nat {
    (x: Item) => if Chosen(o, x.id) then 1 else 0
  }

  ghost function Pending(o: Choice): Worker -> nat {
    (w: Worker) => if w.Admitting? && Chosen(o, w.child.id) then 1 else 0
  }

  function VisitedWeight(o: Choice, visited: set<Key>): nat {
    match o
    case Everything => |visited|
    case Only(k) => if k in visited then 1 else 0
  }

  /** How many of the first n command-line paths are directories that count. */
  function StartWeight(j: Job, o: Choice, n: nat): nat
    requires n <= |j.starts|
  {
    if n == 0 then 0
    else StartWeight(j, o, n - 1) +
         (if j.starts[n - 1].StartDirectory? && Chosen(o, j.starts[n - 1].item.id) then 1 else 0)
  }

  function Seeded(j: Job, m: Master): (n: nat)
    ensures n <= |j.starts|
  {
    if m.Seeding? && m.next <= |j.starts| then m.next else |j.starts|
  }

  /** The directories that count and were pulled, are queued or are about to be. */
  ghost function Admitted(o: Choice, s: State): nat {
    Sum(s.pulled, Weight(o)) + Sum(s.dirs.q.queue, Weight(o)) + Sum(s.workers, Pending(o))
  }

  ghost predicate Tallies(j: Job, o: Choice, s: State) {
    Admitted(o, s) == StartWeight(j, o, Seeded(j, s.master)) + VisitedWeight(o, s.visited)
  }

  lemma NextTallies(j: Job, o: Choice, s: State, t: nat, m: Move, s': State)
    requires j.c.follow && InRange(j, s) && TreeWalk.Inv(j, s)
    requires Tallies(j, o, s) && Next(j, s, t, m, s')
    ensures Tallies(j, o, s')
  {
    hide *;
    WhoMoves(j, s, t, m, s');
    match m
    case Use(e) =>
      if t < |s.workers| {
        WorkerUseTallies(j, o, s, t, e, s');
      } else {
        MasterUseTallies(j, o, s, e, s');
      }
    case Local =>
      if t < |s.workers| {
        WorkerLocalTallies(j, o, s, t, s');
      } else {
        MasterLocalTallies(j, o, s, s');
      }
  }

  lemma WorkerUseTallies(j: Job, o: Choice, s: State, t: nat, e: Event<Item>, s': State)
    requires TreeWalk.Inv(j, s) && t < |s.workers| && Next(j, s, t, Use(e), s')
    requires Tallies(j, o, s)
    ensures Tallies(j, o, s')
  {
    hide Step, QueueProtocol.Inv, Phases, Sum;
    WorkerNeverRefused(j, s, t, e, s');
    StepGuards(s.dirs, t, e, s'.dirs);
    if s'.workers != s.workers {
      SumUpdate(s.workers, t, s'.workers[t], Pending(o));
    }
    match e
    case Push(x) => SumAppend(s.dirs.q.queue, x, Weight(o));
    case Pull(x) =>
      SumAppend(s.pulled, x, Weight(o));
      SumOfTail(s.dirs.q.queue, Weight(o));
    case _ =>
  }

  lemma WorkerLocalTallies(j: Job, o: Choice, s: State, t: nat, s': State)
    requires j.c.follow && t < |s.workers| && Next(j, s, t, Local, s')
    requires Tallies(j, o, s)
    ensures Tallies(j, o, s')
  {
    hide Classify, ConsistentEntry, Sum;
    SumUpdate(s.workers, t, s'.workers[t], Pending(o));
  }

  lemma MasterUseTallies(j: Job, o: Choice, s: State, e: Event<Item>, s': State)
    requires |s.workers| == j.jobs && Next(j, s, j.jobs, Use(e), s')
    requires Tallies(j, o, s)
    ensures Tallies(j, o, s')
  {
    hide Step, Sum;
    StepGuards(s.dirs, j.jobs, e, s'.dirs);
    if e.Push? {
      SumAppend(s.dirs.q.queue, e.x, Weight(o));
    }
  }

  lemma MasterLocalTallies(j: Job, o: Choice, s: State, s': State)
    requires TreeWalk.Inv(j, s) && Next(j, s, j.jobs, Local, s')
    requires Tallies(j, o, s)
    ensures Tallies(j, o, s')
  {
    hide Sum, QueueProtocol.Inv;
    if s.master.Starting? && s.master.next < |s.workers| {
      assert s.workers[s.master.next] == NotStarted;
      SumUpdate(s.workers, s.master.next, Looping, Pending(o));
    }
  }

  lemma {:induction false} RunTallies(j: Job, o: Choice, states: seq<State>, turns: seq<Turn>, k: nat)
    requires j.jobs > 0 && WellFormed(j) && j.c.follow && IsRun(j, states, turns) && k < |states|
    ensures InRange(j, states[k]) && Tallies(j, o, states[k])
  {
    hide *;
    RunStart(j, states, turns);
    if k == 0 {
      InitiallyTallies(j, o, states[0]);
    } else {
      RunTallies(j, o, states, turns, k - 1);
      RunKeepsInv(j, states, turns, k - 1);
      RunStep(j, states, turns, k - 1);
      NextKeepsInRange(j, states[k - 1], turns[k - 1].thread, turns[k - 1].move, states[k]);
      NextTallies(j, o, states[k - 1], turns[k - 1].thread, turns[k - 1].move, states[k]);
    }
  }

  lemma InitiallyTallies(j: Job, o: Choice, s: State)
    requires WellFormed(j) && Initially(j, s)
    ensures InRange(j, s) && Tallies(j, o, s)
  {
    SumOfNothing(s.workers, Pending(o));
  }

  /** Nothing that counts is left with a worker or in the queue. */
  lemma TalliedAtTheEnd(o: Choice, s: State)
    requires NothingLeft(s)
    ensures Admitted(o, s) == Sum(s.pulled, Weight(o))
  {
    SumOfNothing(s.workers, Pending(o));
  }

  lemma {:induction false} SumOfOnes(s: seq<Item>)
    ensures Sum(s, Weight(Everything)) == |s|
  {
    if s != [] {
      SumOfOnes(s[1..]);
    }
  }

  /** The directories pulled under one identifier. */
  ghost function TimesPulled(s: State, k: Key): nat {
    Sum(s.pulled, Weight(Only(k)))
  }

  /**
    * Following links, at every moment of every interleaving, an identifier has been pulled at most
    * once for being met in a directory, on top of the start directories that carry it.
    */
  lemma IdentifierAdmittedOnce(j: Job, states: seq<State>, turns: seq<Turn>, n: nat, k: Key)
    requires j.jobs > 0 && WellFormed(j) && j.c.follow && IsRun(j, states, turns) && n < |states|
    ensures TimesPulled(states[n], k) <= StartWeight(j, Only(k), |j.starts|) + 1
  {
    RunTallies(j, Only(k), states, turns, n);
    StartWeightGrows(j, Only(k), Seeded(j, states[n].master), |j.starts|);
  }

  lemma {:induction false} StartWeightGrows(j: Job, o: Choice, a: nat, b: nat)
    requires a <= b <= |j.starts|
    ensures StartWeight(j, o, a) <= StartWeight(j, o, b)
    decreases b
  {
    if a < b {
      StartWeightGrows(j, o, a, b - 1);
    }
  }

  /** When the walk is over it has pulled each start directory and each identifier it met, once each. */
  lemma EachIdentifierPulledOnce(j: Job, states: seq<State>, turns: seq<Turn>, n: nat)
    requires j.jobs > 0 && WellFormed(j) && j.c.follow && IsRun(j, states, turns) && n < |states|
    requires Over(states[n].master)
    ensures |states[n].pulled| == StartWeight(j, Everything, |j.starts|) + |states[n].visited|
    ensures forall k :: TimesPulled(states[n], k) ==
                        StartWeight(j, Only(k), |j.starts|) + (if k in states[n].visited then 1 else 0)
  {
    var s := states[n];
    CompletionIsFinal(j, states, turns, n, n);
    RunTallies(j, Everything, states, turns, n);
    TalliedAtTheEnd(Everything, s);
    SumOfOnes(s.pulled);
    forall k ensures TimesPulled(s, k) == StartWeight(j, Only(k), |j.starts|) + (if k in s.visited then 1 else 0) {
      RunTallies(j, Only(k), states, turns, n);
      TalliedAtTheEnd(Only(k), s);
    }
  }

  // ---------------------------------------------------------------- a bound, cycles included

  ghost function Entries(c: Config): set<Dirent> {
    set d: nat, i: nat | d < |c.tree| && i < |c.tree[d]| :: c.tree[d][i]
  }

  ghost function StartItems(j: Job): set<Item> {
    set i: nat | i < |j.starts| && j.starts[i].StartDirectory? :: j.starts[i].item
  }

  /** Every identifier a directory of this walk can carry: a known device with a known inode. */
  ghost function Identifiers(j: Job): set<Key> {
    var devs := (set x | x in StartItems(j) :: x.id.dev) + (set e | e in Entries(j.c) :: e.beyond.id.dev);
    var inos := (set x | x in StartItems(j) :: x.id.ino) + (set e | e in Entries(j.c) :: e.ino)
                + (set e | e in Entries(j.c) :: e.beyond.id.ino);
    set d, i | d in devs && i in inos :: Key(d, i)
  }

  ghost function Known(j: Job): Key -> bool {
    var ids := Identifiers(j);
    (k: Key) => k in ids
  }

  ghost function HasKnownId(j: Job): Item -> bool {
    var ids := Identifiers(j);
    (x: Item) => x.id in ids
  }

  lemma IdentifiersAreClosed(j: Job)
    requires WellFormed(j)
    ensures Inherited(j, HasKnownId(j))
  {
    forall i | 0 <= i < |j.starts| && j.starts[i].StartDirectory? ensures HasKnownId(j)(j.starts[i].item) {
      var x := j.starts[i].item;
      assert x in StartItems(j);
      assert x.id == Key(x.id.dev, x.id.ino);
    }
    forall at, i | HasKnownId(j)(at) && at.dir < |j.c.tree| && 0 <= i < |j.c.tree[at.dir]|
      ensures InheritedBy(j, HasKnownId(j), at, i)
    {
      ChildIdentifierKnown(j, at, i);
    }
  }

  lemma ChildIdentifierKnown(j: Job, at: Item, i: nat)
    requires WellFormed(j) && at.dir < |j.c.tree| && i < |j.c.tree[at.dir]| && at.id in Identifiers(j)
    ensures InheritedBy(j, HasKnownId(j), at, i)
  {
    ChildInRange(j.c, at, i);
    var e := j.c.tree[at.dir][i];
    assert e in Entries(j.c);
    assert KeyOf(at, e) in Identifiers(j) by {
      assert e.beyond.id == Key(e.beyond.id.dev, e.beyond.id.ino);
      assert KeyOf(at, e) == Key(KeyOf(at, e).dev, KeyOf(at, e).ino);
    }
  }

  /**
    * However many links and cycles there are, the directories pulled never exceed the start
    * directories and the identifiers there are.
    */
  lemma FollowingIsBounded(j: Job, states: seq<State>, turns: seq<Turn>, n: nat)
    requires j.jobs > 0 && WellFormed(j) && j.c.follow && IsRun(j, states, turns) && n < |states|
    ensures states[n].visited <= Identifiers(j)
    ensures |states[n].pulled| <= StartWeight(j, Everything, |j.starts|) + |Identifiers(j)|
  {
    var s := states[n];
    IdentifiersAreClosed(j);
    RunSatisfies(j, HasKnownId(j), Known(j), states, turns, n);
    Fewer(s.visited, Identifiers(j));
    RunTallies(j, Everything, states, turns, n);
    StartWeightGrows(j, Everything, Seeded(j, s.master), |j.starts|);
    SumOfOnes(s.pulled);
  }

  lemma {:induction false} Fewer<T>(a: set<T>, b: set<T>)
    requires a <= b
    ensures |a| <= |b|
  {
    if x :| x in a {
      Fewer(a - {x}, b - {x});
    }
  }
}
