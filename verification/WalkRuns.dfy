/** The walk over whole runs: termination detection is right, and no push is refused. */
module WalkRuns {
  import opened SyncQueue
  import opened QueueProtocol
  import opened TreeWalk

  // ---------------------------------------------------------------- runs

  datatype Turn = Turn(thread: nat, move: Move)

  /** A run from the start: turns[k] takes states[k] to states[k + 1]. Any interleaving is one. */
  ghost predicate IsRun(j: Job, states: seq<State>, turns: seq<Turn>) {
    && |states| == |turns| + 1
    && Initially(j, states[0])
    && forall k :: 0 <= k < |turns| ==> Next(j, states[k], turns[k].thread, turns[k].move, states[k + 1])
  }

  lemma RunStart(j: Job, states: seq<State>, turns: seq<Turn>)
    requires IsRun(j, states, turns)
    ensures |states| == |turns| + 1 && Initially(j, states[0])
  {
  }

  lemma RunStep(j: Job, states: seq<State>, turns: seq<Turn>, k: nat)
    requires IsRun(j, states, turns) && k < |turns|
    ensures Next(j, states[k], turns[k].thread, turns[k].move, states[k + 1])
  {
  }

  lemma {:induction false} RunKeepsInv(j: Job, states: seq<State>, turns: seq<Turn>, k: nat)
    requires j.jobs > 0 && IsRun(j, states, turns) && k < |states|
    ensures TreeWalk.Inv(j, states[k])
  {
    if k == 0 {
      InitiallyInv(j, states[0]);
    } else {
      RunKeepsInv(j, states, turns, k - 1);
      hide TreeWalk.Inv;
      NextKeepsInv(j, states[k - 1], turns[k - 1].thread, turns[k - 1].move, states[k]);
    }
  }

  lemma OverStaysOver(j: Job, s: State, t: nat, m: Move, s': State)
    requires Next(j, s, t, m, s') && Over(s.master)
    ensures Over(s'.master)
  {
    hide Step;
  }

  /** Nobody holds a directory, queues one or could be handed one. */
  ghost predicate NothingLeft(s: State) {
    && s.dirs.q.queue == []
    && forall i :: 0 <= i < |s.workers| ==> s.workers[i] == Looping || s.workers[i] == Exited
  }

  lemma QuietMeansNothingLeft(j: Job, s: State)
    requires TreeWalk.Inv(j, s) && Over(s.master)
    ensures NothingLeft(s)
  {
    forall i | 0 <= i < |s.workers| ensures s.workers[i] == Looping || s.workers[i] == Exited {
      assert Retired(s, i);
    }
  }

  /**
    * Termination detection is right: from the moment wait_for_worker_completion returns, in every
    * interleaving, nothing is left to do, ever again.
    */
  lemma {:induction false} CompletionIsFinal(j: Job, states: seq<State>, turns: seq<Turn>, k: nat, l: nat)
    requires j.jobs > 0 && IsRun(j, states, turns) && k <= l < |states|
    requires Over(states[k].master)
    ensures Over(states[l].master) && NothingLeft(states[l])
    decreases l - k
  {
    RunKeepsInv(j, states, turns, k);
    QuietMeansNothingLeft(j, states[k]);
    if k < l {
      OverStaysOver(j, states[k], turns[k].thread, turns[k].move, states[k + 1]);
      CompletionIsFinal(j, states, turns, k + 1, l);
    }
  }

  /** What wait_for_worker_completion reports: it never finds the queue closed. */
  lemma CompletionSucceeds(j: Job, states: seq<State>, turns: seq<Turn>, k: nat, n: nat, status: Status)
    requires j.jobs > 0 && IsRun(j, states, turns) && k < |turns|
    requires turns[k] == Turn(j.jobs, Use(AwaitReturns(n, status)))
    ensures status == Success && n == j.jobs
  {
    RunKeepsInv(j, states, turns, k);
    assert Next(j, states[k], j.jobs, turns[k].move, states[k + 1]);
    hide Count, Wake;
  }

  /** No push of a directory ever meets a closed queue. */
  lemma NoPushIsRefused(j: Job, states: seq<State>, turns: seq<Turn>, k: nat)
    requires j.jobs > 0 && IsRun(j, states, turns) && k < |turns|
    ensures turns[k].move != Use(Refused)
  {
    var s, t, s' := states[k], turns[k].thread, states[k + 1];
    RunKeepsInv(j, states, turns, k);
    assert Next(j, s, t, turns[k].move, s');
    hide Count, Wake;
    if turns[k].move == Use(Refused) && t < j.jobs && Over(s.master) {
      QuietMeansNoDirectory(j, s, t);
    }
  }
}
