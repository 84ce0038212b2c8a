/**
  * The whole program: the walk's threads and the pipeline's, where every file that the walk puts out is a push
  * on the queue of files to scan, and main closes that queue when the walk has returned.
  */
module EndToEnd {
  import opened Bytes
  import opened QueueProtocol
  import opened Traversal
  import TreeWalk
  import WalkRuns
  import WalkResults
  import WalkProgress
  import Pipeline
  import PipelineResults

  /** The walk, the pipeline behind it, and how a path is spelt as a file name. */
  datatype Program = Program(job: TreeWalk.Job, setup: Pipeline.Setup, spell: Path -> Pipeline.File)

  datatype State = State(walk: TreeWalk.State, pipe: Pipeline.State)

  /** A step of a thread of the walk, or of any thread within the pipeline. */
  datatype Move = Walks(thread: nat, w: TreeWalk.Move) | Pipes(thread: nat, m: Pipeline.Move)

  /** The workers of the walk are the pipeline's globber threads; its master is main. */
  function ThreadOf(g: Program, t: nat): nat {
    if t < g.job.jobs then Pipeline.MainThread(g.setup) + 1 + t else Pipeline.MainThread(g.setup)
  }

  ghost predicate WellFormed(g: Program) {
    g.job.jobs > 0 && TreeWalk.WellFormed(g.job) && g.setup.scanners > 0 && g.setup.globbers == g.job.jobs
  }

  function Spelt(spell: Path -> Pipeline.File, paths: seq<Path>): (r: seq<Pipeline.File>)
    ensures |r| == |paths| && forall i :: 0 <= i < |paths| ==> r[i] == spell(paths[i])
  {
    seq(|paths|, i requires 0 <= i < |paths| => spell(paths[i]))
  }

  ghost predicate Initially(g: Program, s: State) {
    TreeWalk.Initially(g.job, s.walk) && Pipeline.Initially(g.setup, s.pipe)
  }

  /** How a thread of the walk pushes files: main one at a time, a worker all those of a directory at once. */
  function Pushed(g: Program, t: nat, files: seq<Pipeline.File>): Event<Pipeline.File>
    requires files != []
  {
    if t < g.job.jobs then PushAll(files) else Push(files[0])
  }

  predicate Next(g: Program, s: State, m: Move, s': State) {
    match m
    case Walks(t, w) =>
      // A thread that still owes a notify to the queue of files does nothing before it.
      && ThreadOf(g, t) < |s.pipe.files.pcs| && s.pipe.files.pcs[ThreadOf(g, t)] == Running
      && TreeWalk.Next(g.job, s.walk, t, w, s'.walk)
      && |s.walk.out| <= |s'.walk.out|
      && (var files := Spelt(g.spell, s'.walk.out[|s.walk.out|..]);
          if files == [] then s'.pipe == s.pipe
          else Pipeline.Next(g.setup, s.pipe, ThreadOf(g, t), Pipeline.OnFiles(Pushed(g, t, files)), s'.pipe))
    case Pipes(t, p) =>
      && s'.walk == s.walk && Pipeline.Next(g.setup, s.pipe, t, p, s'.pipe)
      && !PipelineResults.PushesFiles(p)
      && (p == Pipeline.OnFiles(Close) ==> s.walk.master == TreeWalk.Finished)
  }

  ghost predicate IsRun(g: Program, states: seq<State>, moves: seq<Move>) {
    && |states| == |moves| + 1
    && Initially(g, states[0])
    && forall k :: 0 <= k < |moves| ==> Next(g, states[k], moves[k], states[k + 1])
  }

  lemma RunStart(g: Program, states: seq<State>, moves: seq<Move>)
    requires IsRun(g, states, moves)
    ensures |states| == |moves| + 1 && Initially(g, states[0])
  {
  }

  lemma RunStep(g: Program, states: seq<State>, moves: seq<Move>, k: nat)
    requires IsRun(g, states, moves) && k < |moves|
    ensures Next(g, states[k], moves[k], states[k + 1])
  {
  }

  // ---------------------------------------------------------------- the walk's and the pipeline's own runs

  /** What the walk's threads do is a run of the walk. */
  lemma {:induction false} WalkOf(g: Program, states: seq<State>, moves: seq<Move>, k: nat)
    returns (ws: seq<TreeWalk.State>, wt: seq<WalkRuns.Turn>)
    requires IsRun(g, states, moves) && k < |states|
    ensures WalkRuns.IsRun(g.job, ws, wt) && ws[|wt|] == states[k].walk
    ensures ws[0] == states[0].walk
  {
    hide TreeWalk.Next, Pipeline.Next, TreeWalk.Initially, Pipeline.Initially;
    RunStart(g, states, moves);
    if k == 0 {
      ws, wt := [states[0].walk], [];
    } else {
      ws, wt := WalkOf(g, states, moves, k - 1);
      RunStep(g, states, moves, k - 1);
      match moves[k - 1]
      case Walks(t, w) =>
        ws, wt := ws + [states[k].walk], wt + [WalkRuns.Turn(t, w)];
        assert forall i :: 0 <= i < |wt| - 1 ==>
            TreeWalk.Next(g.job, ws[i], wt[i].thread, wt[i].move, ws[i + 1]);
      case Pipes(_, _) =>
    }
  }

  /** What the pipeline's queues see is a run of the pipeline. */
  lemma {:induction false} PipeOf(g: Program, states: seq<State>, moves: seq<Move>, k: nat)
    returns (ps: seq<Pipeline.State>, pt: seq<PipelineResults.Turn>)
    requires IsRun(g, states, moves) && k < |states|
    ensures PipelineResults.IsRun(g.setup, ps, pt) && ps[|pt|] == states[k].pipe
    ensures ps[0] == states[0].pipe
  {
    hide TreeWalk.Next, Pipeline.Next, TreeWalk.Initially, Pipeline.Initially;
    RunStart(g, states, moves);
    if k == 0 {
      ps, pt := [states[0].pipe], [];
    } else {
      ps, pt := PipeOf(g, states, moves, k - 1);
      RunStep(g, states, moves, k - 1);
      var turn := PipeTurn(g, states[k - 1], moves[k - 1], states[k]);
      if turn.Some? {
        ps, pt := ps + [states[k].pipe], pt + [turn.value];
        assert forall i :: 0 <= i < |pt| - 1 ==>
            Pipeline.Next(g.setup, ps[i], pt[i].thread, pt[i].move, ps[i + 1]);
      }
    }
  }

  /** The pipeline's part in a step. */
  function PipeTurn(g: Program, s: State, m: Move, s': State): (r: Option<PipelineResults.Turn>)
    requires Next(g, s, m, s')
    ensures match r
            case None => s'.pipe == s.pipe
            case Some(turn) => Pipeline.Next(g.setup, s.pipe, turn.thread, turn.move, s'.pipe)
  {
    match m
    case Walks(t, w) =>
      var files := Spelt(g.spell, s'.walk.out[|s.walk.out|..]);
      if files == [] then None else Some(PipelineResults.Turn(ThreadOf(g, t), Pipeline.OnFiles(Pushed(g, t, files))))
    case Pipes(t, p) => Some(PipelineResults.Turn(t, p))
  }

  // ---------------------------------------------------------------- the two runs agree

  /** The files found are those the walk has put out, and main is past the walk only when it is over. */
  ghost predicate Linked(g: Program, s: State) {
    && s.pipe.found == Spelt(g.spell, s.walk.out)
    && (!s.pipe.main.Globbing? ==> s.walk.master == TreeWalk.Finished)
  }

  lemma OutGrows(j: TreeWalk.Job, s: TreeWalk.State, t: nat, m: TreeWalk.Move, s': TreeWalk.State)
    requires TreeWalk.Inv(j, s) && TreeWalk.Next(j, s, t, m, s')
    ensures s.out <= s'.out && (t >= j.jobs ==> |s'.out| <= |s.out| + 1)
    ensures s.master == TreeWalk.Finished ==> s'.out == s.out && s'.master == TreeWalk.Finished
    ensures m == TreeWalk.Use(Spurious) ==> s'.out == s.out
  {
    hide Step, Classify, ConsistentEntry, QueueProtocol.Inv;
    if s.master == TreeWalk.Finished && t < |s.workers| {
      TreeWalk.QuietMeansNoDirectory(j, s, t);
    }
  }

  lemma FilesFound(c: Pipeline.Setup, s: Pipeline.State, t: nat, m: Pipeline.Move, s': Pipeline.State)
    requires Pipeline.Next(c, s, t, m, s')
    ensures !PipelineResults.PushesFiles(m) ==> s'.found == s.found
    ensures PipelineResults.PushesFiles(m) ==>
              s.main.Globbing? && s'.main == s.main && s'.found == s.found + if m.e.Push? then [m.e.x] else m.e.xs
    ensures s.main.Globbing? && !s'.main.Globbing? ==> m == Pipeline.OnFiles(Close)
    ensures !s.main.Globbing? ==> !s'.main.Globbing?
  {
    hide Step;
  }

  lemma SpeltMore(spell: Path -> Pipeline.File, a: seq<Path>, b: seq<Path>)
    requires a <= b
    ensures Spelt(spell, b) == Spelt(spell, a) + Spelt(spell, b[|a|..])
  {
  }

  lemma NextKeepsLinked(g: Program, s: State, m: Move, s': State)
    requires TreeWalk.Inv(g.job, s.walk) && Linked(g, s) && Next(g, s, m, s')
    ensures Linked(g, s')
  {
    hide TreeWalk.Inv, TreeWalk.Next, Pipeline.Next;
    match m
    case Walks(t, w) =>
      OutGrows(g.job, s.walk, t, w, s'.walk);
      SpeltMore(g.spell, s.walk.out, s'.walk.out);
      var files := Spelt(g.spell, s'.walk.out[|s.walk.out|..]);
      if files != [] {
        FilesFound(g.setup, s.pipe, ThreadOf(g, t), Pipeline.OnFiles(Pushed(g, t, files)), s'.pipe);
        assert t >= g.job.jobs ==> files == [files[0]];
      }
    case Pipes(t, p) => FilesFound(g.setup, s.pipe, t, p, s'.pipe);
  }

  /** All that holds of both machines and of the way they are joined. */
  ghost predicate Inv(g: Program, s: State) {
    && TreeWalk.Inv(g.job, s.walk) && WalkResults.InRange(g.job, s.walk)
    && Pipeline.Inv(g.setup, s.pipe) && Linked(g, s)
  }

  lemma {:induction false} RunKeepsInv(g: Program, states: seq<State>, moves: seq<Move>, k: nat)
    requires WellFormed(g) && IsRun(g, states, moves) && k < |states|
    ensures Inv(g, states[k])
  {
    hide TreeWalk.Next, Pipeline.Next, TreeWalk.Inv, WalkResults.InRange, Pipeline.Inv, WalkRuns.IsRun;
    hide PipelineResults.IsRun, PipelineResults.Content, PipelineResults.Balanced, TreeWalk.WellFormed, Next;
    var ws, wt := WalkOf(g, states, moves, k);
    WalkRuns.RunStart(g.job, ws, wt);
    WalkRuns.RunKeepsInv(g.job, ws, wt, |wt|);
    WalkProgress.RunInRange(g.job, ws, wt, |wt|);
    var ps, pt := PipeOf(g, states, moves, k);
    PipelineResults.RunStart(g.setup, ps, pt);
    PipelineResults.RunBalances(g.setup, PipelineResults.Length(), ps, pt, |pt|);
    if k > 0 {
      RunKeepsInv(g, states, moves, k - 1);
      RunStep(g, states, moves, k - 1);
      NextKeepsLinked(g, states[k - 1], moves[k - 1], states[k]);
    }
  }
}
