/**
  * The parallel walk ends: some thread can always take a step until the master has joined them all,
  * and every step that is not a spurious wake-up uses up some of a finite amount of work.
  */
module WalkProgress {
  import opened SyncQueue
  import opened QueueProtocol
  import opened Traversal
  import opened TreeWalk
  import opened WalkRuns
  import opened WalkResults

  // ---------------------------------------------------------------- never stuck

  /** A worker that has begun, has not left and does not sleep can take a step. */
  lemma WorkerPossible(j: Job, s: State, t: nat) returns (m: Move, s': State)
    requires TreeWalk.Inv(j, s) && InRange(j, s) && t < j.jobs
    requires s.workers[t] != NotStarted && s.workers[t] != Exited && s.dirs.pcs[t] != Asleep
    requires s.workers[t].Admitting? ==> !s.dirs.q.closed
    ensures Next(j, s, t, m, s') && m != Use(Spurious)
  {
    hide Count, Wake, Classify, ConsistentEntry, QueueProtocol.Inv;
    assert WorkerFits(s.workers[t], s.dirs.pcs[t]);
    match s.workers[t]
    case Looping =>
      var e, d := PullPossible(s.dirs, t);
      m := Use(e);
      s' := if e.Pull? then
              s.(dirs := d, workers := s.workers[t := Scanning(e.item, 0, [])], pulled := s.pulled + [e.item])
            else if e.PullClosed? then s.(dirs := d, workers := s.workers[t := Exited])
            else s.(dirs := d);
    case Admitting(at, next, found, child) =>
      var d := System(Appended(s.dirs.q, [child]), s.dirs.pcs[t := OwesOne]);
      m, s' := Use(Push(child)), s.(dirs := d, workers := s.workers[t := Scanning(at, next, found)]);
    case Scanning(at, next, found) =>
      if s.dirs.pcs[t] == OwesOne {
        var e, d := NotifyPossible(s.dirs, t);
        m, s' := Use(e), s.(dirs := d);
      } else {
        m := Local;
        s' := ReadEntry(j, s, t);
      }
  }

  lemma ReadEntry(j: Job, s: State, t: nat) returns (s': State)
    requires InRange(j, s) && t < |s.workers| && t < |s.dirs.pcs|
    requires s.workers[t].Scanning? && s.dirs.pcs[t] == Running
    ensures WorkerLocal(j, s, t, s')
  {
    hide Classify, Consistent;
    assert WorkerInRange(j.c, s.workers[t]);
    var Scanning(at, next, found) := s.workers[t];
    if next == |j.c.tree[at.dir]| {
      s' := s.(workers := s.workers[t := Looping], out := s.out + found);
    } else {
      ChildInRange(j.c, at, next);
      match Classify(j.c, at, j.c.tree[at.dir][next])
      case Ignore => s' := s.(workers := s.workers[t := Scanning(at, next + 1, found)]);
      case Found(file) => s' := s.(workers := s.workers[t := Scanning(at, next + 1, found + [file])]);
      case Descend(child) =>
        if j.c.follow && child.id in s.visited {
          s' := s.(workers := s.workers[t := Scanning(at, next + 1, found)]);
        } else {
          s' := s.(workers := s.workers[t := Admitting(at, next + 1, found, child)],
                   visited := if j.c.follow then s.visited + {child.id} else s.visited);
        }
    }
  }

  /** While the master sleeps on unfinished work, some worker is awake. */
  lemma SomebodyAwake(j: Job, s: State) returns (t: nat)
    requires TreeWalk.Inv(j, s) && s.master == Waiting && s.dirs.pcs[j.jobs] == AwaitingWorkers
    ensures t < j.jobs && s.dirs.pcs[t] != Asleep
  {
    if forall i :: 0 <= i < j.jobs ==> s.dirs.pcs[i] == Asleep {
      AllAsleep(s.dirs.pcs, j.jobs);
      CountNone(s.dirs.pcs, Woken);
      CountNone(s.dirs.pcs, OwesOne);
      CountNone(s.dirs.pcs, OwesAll);
    }
    t :| t < j.jobs && s.dirs.pcs[t] != Asleep;
  }

  lemma {:induction false} AllAsleep(pcs: seq<Pc>, n: nat)
    requires n < |pcs| && |pcs| == n + 1 && pcs[n] != Asleep && forall i :: 0 <= i < n ==> pcs[i] == Asleep
    ensures Count(pcs, Asleep) == n
  {
    if n > 0 {
      AllAsleep(pcs[1..], n - 1);
    }
  }

  /** After the queue is closed and the notify_all done, a worker that has not left is awake. */
  lemma LeaverAwake(j: Job, s: State, t: nat)
    requires TreeWalk.Inv(j, s) && s.master == Joining && s.dirs.pcs[j.jobs] == Running
    requires t < j.jobs && s.workers[t] != Exited
    ensures s.workers[t] == Looping && s.dirs.pcs[t] == Woken
  {
    assert Retired(s, t);
    forall i | 0 <= i < |s.dirs.pcs| ensures s.dirs.pcs[i] != OwesAll {
      assert i < j.jobs ==> WorkerFits(s.workers[i], s.dirs.pcs[i]);
    }
    CountNone(s.dirs.pcs, OwesAll);
    MoveCounts(s.dirs.pcs, t, Running, Asleep);
  }

  lemma MasterPossible(j: Job, s: State) returns (m: Move, s': State)
    requires TreeWalk.Inv(j, s) && s.master != Finished && s.dirs.pcs[j.jobs] != AwaitingWorkers
    requires s.master == Joining && s.dirs.pcs[j.jobs] == Running ==> forall i :: 0 <= i < j.jobs ==>
               s.workers[i] == Exited
    ensures Next(j, s, j.jobs, m, s') && m != Use(Spurious)
  {
    hide Count, Wake, QueueProtocol.Inv;
    var pc := s.dirs.pcs[j.jobs];
    match s.master
    case Seeding(k) =>
      if pc == OwesOne {
        var e, d := NotifyPossible(s.dirs, j.jobs);
        m, s' := Use(e), s.(dirs := d);
      } else if k < |j.starts| && j.starts[k].StartDirectory? {
        var x := j.starts[k].item;
        m := Use(Push(x));
        s' := s.(dirs := System(Appended(s.dirs.q, [x]), s.dirs.pcs[j.jobs := OwesOne]), master := Seeding(k + 1));
      } else if k < |j.starts| {
        m := Local;
        s' := s.(master := Seeding(k + 1), out := if j.starts[k].StartFile? then s.out + [j.starts[k].file] else s.out);
      } else {
        m, s' := Local, s.(master := Starting(0));
      }
    case Starting(k) =>
      m := Local;
      s' := if k < |s.workers| then s.(workers := s.workers[k := Looping], master := Starting(k + 1))
            else s.(master := Waiting);
    case Waiting =>
      var q := Awaited(s.dirs.q, pc, j.jobs);
      if Complete(q) {
        m := Use(AwaitReturns(j.jobs, if s.dirs.q.closed then SyncQueue.Closed else Success));
        s' := s.(dirs := System(q, AwaitAnnounced(s.dirs.pcs, pc)[j.jobs := Running]), master := Completed);
      } else {
        m := Use(AwaitBlocks(j.jobs));
        s' := s.(dirs := System(q, AwaitAnnounced(s.dirs.pcs, pc)[j.jobs := AwaitingWorkers]));
      }
    case Completed =>
      m := Use(Close);
      s' := s.(dirs := System(s.dirs.q.(closed := true), s.dirs.pcs[j.jobs := OwesAll]), master := Joining);
    case Joining =>
      if pc == OwesAll {
        m := Use(NotifyAll);
        s' := s.(dirs := System(s.dirs.q, Wake(s.dirs.pcs[j.jobs := Running], Asleep, Woken)));
      } else {
        m, s' := Local, s.(master := Finished);
      }
  }

  /** No deadlock: until the master has joined every worker, a step other than a spurious wake-up is possible. */
  lemma NeverStuck(j: Job, s: State) returns (t: nat, m: Move, s': State)
    requires TreeWalk.Inv(j, s) && InRange(j, s) && s.master != Finished
    ensures Next(j, s, t, m, s') && m != Use(Spurious)
  {
    hide QueueProtocol.Inv, InRange, Next, Quiet, Done, WorkerFits;
    if s.dirs.pcs[j.jobs] == AwaitingWorkers {
      t := SomebodyAwake(j, s);
      m, s' := WorkerPossible(j, s, t);
    } else if s.master == Joining && s.dirs.pcs[j.jobs] == Running &&
              exists i :: 0 <= i < j.jobs && s.workers[i] != Exited {
      t :| 0 <= t < j.jobs && s.workers[t] != Exited;
      LeaverAwake(j, s, t);
      m, s' := WorkerPossible(j, s, t);
    } else {
      t := j.jobs;
      m, s' := MasterPossible(j, s);
    }
  }

  /** So a run that nothing but a spurious wake-up could prolong has finished: all workers are joined. */
  lemma OnlyFinishedRunsStop(j: Job, states: seq<State>, turns: seq<Turn>)
    requires j.jobs > 0 && WellFormed(j) && IsRun(j, states, turns)
    requires forall t, m, s' :: Next(j, states[|turns|], t, m, s') ==> m == Use(Spurious)
    ensures states[|turns|].master == Finished
  {
    hide *;
    RunStart(j, states, turns);
    RunKeepsInv(j, states, turns, |turns|);
    RunInRange(j, states, turns, |turns|);
    if states[|turns|].master != Finished {
      var t, m, s' := NeverStuck(j, states[|turns|]);
    }
  }

  lemma {:induction false} RunInRange(j: Job, states: seq<State>, turns: seq<Turn>, n: nat)
    requires j.jobs > 0 && WellFormed(j) && IsRun(j, states, turns) && n < |states|
    ensures InRange(j, states[n])
  {
    hide *;
    RunStart(j, states, turns);
    if n == 0 {
      InitiallyInRange(j, states[0]);
    } else {
      RunInRange(j, states, turns, n - 1);
      RunStep(j, states, turns, n - 1);
      NextKeepsInRange(j, states[n - 1], turns[n - 1].thread, turns[n - 1].move, states[n]);
    }
  }

  lemma InitiallyInRange(j: Job, s: State)
    requires WellFormed(j) && Initially(j, s)
    ensures InRange(j, s)
  {
  }
}
