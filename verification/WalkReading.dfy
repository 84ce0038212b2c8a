/** What a worker of the machine reads is what the methods of DirTree read. */
module WalkReading {
  import opened SyncQueue
  import opened QueueProtocol
  import opened Traversal
  import opened TreeWalk
  import opened WalkRuns
  import opened WalkResults
  import opened WalkProgress

  /** A worker's step over one entry has the outcome that ProcessDirent() has, in whatever state the set is. */
  lemma LocalStepIsReadOne(j: Job, s: State, t: nat, s': State)
    requires t < |s.workers| && WorkerLocal(j, s, t, s')
    requires s.workers[t].next < |j.c.tree[s.workers[t].at.dir]|
    ensures var Scanning(at, next, found) := s.workers[t];
            var e := j.c.tree[at.dir][next];
            && ConsistentEntry(j.c, e)
            && (var r := ReadOne(j.c, at, e, Reading(found, [], s.visited));
                && s'.visited == r.visited && s'.out == s.out
                && s'.workers == s.workers[t := if r.children == [] then Scanning(at, next + 1, r.files)
                                                else Admitting(at, next + 1, r.files, r.children[0])])
  {
    hide Classify, ConsistentEntry;
  }

  /** The files that reading finds do not depend on the visited set. */
  lemma {:induction false} FilesIgnoreVisited(c: Config, at: Item, n: nat, v: set<Key>, w: set<Key>)
    requires at.dir < |c.tree| && n <= |c.tree[at.dir]| && forall e :: e in c.tree[at.dir] ==> ConsistentEntry(c, e)
    ensures ReadUpTo(c, at, n, v).files == ReadUpTo(c, at, n, w).files
    decreases n
  {
    hide Classify, ConsistentEntry;
    if n > 0 {
      FilesIgnoreVisited(c, at, n - 1, v, w);
    }
  }

  /** What a worker has in hand are the files of the entries it has read, as ReadDirectory() gathers them. */
  ghost predicate HoldsRead(c: Config, w: Worker)
    requires Consistent(c) && WorkerInRange(c, w)
  {
    w.Scanning? || w.Admitting? ==>
      (forall e :: e in c.tree[w.at.dir] ==> ConsistentEntry(c, e))
      && w.found == ReadUpTo(c, w.at, w.next, {}).files
  }

  ghost predicate AllHoldRead(j: Job, s: State)
    requires InRange(j, s)
  {
    forall t :: 0 <= t < |s.workers| ==> HoldsRead(j.c, s.workers[t])
  }

  lemma PulledHoldsRead(c: Config, x: Item)
    requires Consistent(c) && x.dir < |c.tree|
    ensures HoldsRead(c, Scanning(x, 0, []))
  {
    hide ConsistentEntry;
  }

  lemma NextReadsOn(c: Config, w: Worker, visited: set<Key>)
    requires Consistent(c) && WorkerInRange(c, w) && w.Scanning? && w.next < |c.tree[w.at.dir]| && HoldsRead(c, w)
    ensures ConsistentEntry(c, c.tree[w.at.dir][w.next])
    ensures ReadUpTo(c, w.at, w.next + 1, {}).files ==
            ReadOne(c, w.at, c.tree[w.at.dir][w.next], Reading(w.found, [], visited)).files
  {
    hide ConsistentEntry, Classify;
  }

  lemma WorkerLocalReadsOn(j: Job, s: State, t: nat, s': State)
    requires InRange(j, s) && InRange(j, s') && AllHoldRead(j, s) && t < |s.workers| && WorkerLocal(j, s, t, s')
    ensures AllHoldRead(j, s')
  {
    hide ConsistentEntry, Classify, ReadUpTo, ReadOne;
    assert HoldsRead(j.c, s.workers[t]) && WorkerInRange(j.c, s.workers[t]);
    var w := s.workers[t];
    if w.next < |j.c.tree[w.at.dir]| {
      LocalStepIsReadOne(j, s, t, s');
      NextReadsOn(j.c, w, s.visited);
    }
    forall u | 0 <= u < |s'.workers| ensures HoldsRead(j.c, s'.workers[u]) {
      if u != t {
        assert HoldsRead(j.c, s.workers[u]);
      }
    }
  }

  lemma WorkerUseReadsOn(j: Job, s: State, t: nat, e: Event<Item>, s': State)
    requires InRange(j, s) && InRange(j, s') && AllHoldRead(j, s) && t < |s.workers| && WorkerUse(j, s, t, e, s')
    ensures AllHoldRead(j, s')
  {
    hide Step, ReadUpTo, ConsistentEntry, Consistent;
    StepGuards(s.dirs, t, e, s'.dirs);
    assert HoldsRead(j.c, s.workers[t]);
    if e.Pull? {
      assert ItemInRange(j.c, s.dirs.q.queue[0]);
      PulledHoldsRead(j.c, e.item);
    }
    forall u | 0 <= u < |s'.workers| ensures HoldsRead(j.c, s'.workers[u]) {
      if u != t {
        assert HoldsRead(j.c, s.workers[u]);
      }
    }
  }

  lemma NextReadsOnly(j: Job, s: State, t: nat, m: Move, s': State)
    requires TreeWalk.Inv(j, s) && InRange(j, s) && InRange(j, s') && AllHoldRead(j, s) && Next(j, s, t, m, s')
    ensures AllHoldRead(j, s')
  {
    hide TreeWalk.Inv, WorkerUse, WorkerLocal, ReadUpTo, ConsistentEntry, Consistent, Step;
    WhoMoves(j, s, t, m, s');
    if t < j.jobs {
      if m.Use? {
        WorkerUseReadsOn(j, s, t, m.e, s');
      } else {
        WorkerLocalReadsOn(j, s, t, s');
      }
    } else {
      forall u | 0 <= u < |s'.workers| ensures HoldsRead(j.c, s'.workers[u]) {
        assert HoldsRead(j.c, s.workers[u]);
      }
    }
  }

  lemma InitiallyHoldRead(j: Job, s: State)
    requires InRange(j, s) && Initially(j, s)
    ensures AllHoldRead(j, s)
  {
  }

  /** Over every run, workers hold what the entries read so far have given. */
  lemma {:induction false} WorkersReadDirectories(j: Job, states: seq<State>, turns: seq<Turn>, n: nat)
    requires j.jobs > 0 && WellFormed(j) && IsRun(j, states, turns) && n < |states|
    ensures InRange(j, states[n]) && AllHoldRead(j, states[n])
  {
    hide *;
    RunInRange(j, states, turns, n);
    RunStart(j, states, turns);
    if n == 0 {
      InitiallyHoldRead(j, states[0]);
    } else {
      WorkersReadDirectories(j, states, turns, n - 1);
      RunKeepsInv(j, states, turns, n - 1);
      RunStep(j, states, turns, n - 1);
      NextReadsOnly(j, states[n - 1], turns[n - 1].thread, turns[n - 1].move, states[n]);
    }
  }

  /** So what a worker puts out at the end of a directory is what ReadDirectory() pushes, whatever the visited set. */
  lemma WorkerPutsOutDirectory(j: Job, states: seq<State>, turns: seq<Turn>, k: nat, visited: set<Key>)
    requires j.jobs > 0 && WellFormed(j) && IsRun(j, states, turns) && k < |turns|
    requires var t := turns[k].thread;
             && turns[k].move == Local && t < |states[k].workers| && states[k].workers[t].Scanning?
             && states[k].workers[t].at.dir < |j.c.tree|
             && states[k].workers[t].next == |j.c.tree[states[k].workers[t].at.dir]|
    ensures var at := states[k].workers[turns[k].thread].at;
            && (forall e :: e in j.c.tree[at.dir] ==> ConsistentEntry(j.c, e))
            && states[k + 1].out == states[k].out + ReadUpTo(j.c, at, |j.c.tree[at.dir]|, visited).files
  {
    hide ConsistentEntry, Classify, ReadUpTo, Initially, WorkerUse, TreeWalk.MasterUse;
    WorkersReadDirectories(j, states, turns, k);
    RunStep(j, states, turns, k);
    var w := states[k].workers[turns[k].thread];
    assert HoldsRead(j.c, w);
    FilesIgnoreVisited(j.c, w.at, w.next, {}, visited);
  }
}
