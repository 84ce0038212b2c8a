/** What the whole program prints, and that it returns. */
module ProgramResults {
  import opened SyncQueue
  import opened QueueProtocol
  import opened Sums
  import opened Traversal
  import opened EndToEnd
  import TreeWalk
  import WalkRuns
  import WalkResults
  import FollowResults
  import FollowCompleteness
  import WalkProgress
  import WalkTermination
  import OutputBound
  import Pipeline
  import PipelineResults
  import PipelineTermination

  // ---------------------------------------------------------------- what is printed is what the tree holds

  /** What the file at a path contributes, in some measure of match lists. */
  ghost function Worth(g: Program, w: Pipeline.MatchList -> nat): Path -> nat {
    (p: Path) => PipelineResults.YieldOf(g.setup, w, g.spell(p))
  }

  lemma {:induction false} WorthOfSpelt(g: Program, w: Pipeline.MatchList -> nat, paths: seq<Path>)
    ensures Sum(Spelt(g.spell, paths), PipelineResults.Yield(g.setup, w)) == Sum(paths, Worth(g, w))
  {
    if paths != [] {
      WorthOfSpelt(g, w, paths[1..]);
      assert Spelt(g.spell, paths)[1..] == Spelt(g.spell, paths[1..]);
    }
  }

  /**
    * When main returns, with or without links: each file the walk put out has been printed as often as it was
    * put out, if it has matches; the total is the sum over those files, and the exit code says if it is 0.
    */
  lemma ProgramPrintsWhatTheWalkFinds(g: Program, states: seq<State>, moves: seq<Move>, k: nat)
    requires WellFormed(g) && IsRun(g, states, moves) && k < |states| && states[k].pipe.main.Exit?
    ensures states[k].walk.master == TreeWalk.Finished
    ensures forall l :: Sum(states[k].pipe.printed, PipelineResults.Is(l)) ==
                        Sum(states[k].walk.out, Worth(g, PipelineResults.Is(l)))
    ensures states[k].pipe.total == Sum(states[k].walk.out, Worth(g, PipelineResults.Length()))
    ensures multiset(states[k].pipe.printed) ==
            multiset(PipelineResults.ListsOf(g.setup, Spelt(g.spell, states[k].walk.out)))
    ensures states[k].pipe.total == PipelineResults.MatchedLines(g.setup, Spelt(g.spell, states[k].walk.out))
    ensures states[k].pipe.main.code == if states[k].pipe.total == 0 then 1 else 0
  {
    hide IsRun, TreeWalk.Inv, WalkResults.InRange, Pipeline.Inv, Sum;
    hide PipelineResults.IsRun, PipelineResults.FromOneFile, PipelineResults.ListsOf, PipelineResults.MatchedLines;
    var s := states[k];
    RunKeepsInv(g, states, moves, k);
    var ps, pt := PipeOf(g, states, moves, k);
    PipelineResults.RunStart(g.setup, ps, pt);
    PipelineResults.PipelineConserves(g.setup, ps, pt, |pt|);
    WorthOfSpelt(g, PipelineResults.Length(), s.walk.out);
    forall l: Pipeline.MatchList
      ensures Sum(s.pipe.printed, PipelineResults.Is(l)) == Sum(s.walk.out, Worth(g, PipelineResults.Is(l)))
    {
      WorthOfSpelt(g, PipelineResults.Is(l), s.walk.out);
    }
    ExitCodeIs(g.setup, s.pipe);
  }

  lemma ExitCodeIs(c: Pipeline.Setup, s: Pipeline.State)
    requires Pipeline.Inv(c, s) && s.main.Exit?
    ensures s.main.code == if s.total == 0 then 1 else 0
  {
  }

  /**
    * End to end, without following links: whatever the threads do, when main returns each accepted file of the
    * sequential recursive walk that has matches has been printed once for each time that walk reports it, and
    * the total is the sum over the files of that walk. files may list them in any order.
    */
  lemma ProgramReportsTheTree(g: Program, height: seq<nat>, states: seq<State>, moves: seq<Move>, k: nat,
                              files: seq<Path>)
    requires WellFormed(g) && Physical(g.job.c, height) && IsRun(g, states, moves) && k < |states|
    requires states[k].pipe.main.Exit? && multiset(files) == WalkResults.StartFiles(g.job, height, 0)
    ensures forall l :: Sum(states[k].pipe.printed, PipelineResults.Is(l)) ==
                        Sum(files, Worth(g, PipelineResults.Is(l)))
    ensures multiset(states[k].pipe.printed) == multiset(PipelineResults.ListsOf(g.setup, Spelt(g.spell, files)))
    ensures states[k].pipe.total == PipelineResults.MatchedLines(g.setup, Spelt(g.spell, files))
    ensures states[k].pipe.main.code ==
            if exists i :: 0 <= i < |files| && PipelineResults.HasMatches(g.setup, g.spell(files[i])) then 0 else 1
  {
    hide IsRun, WalkRuns.IsRun, Sum, Physical, WalkResults.StartFiles, TreeWalk.WellFormed;
    hide PipelineResults.ListsOf, PipelineResults.MatchedLines;
    var out := states[k].walk.out;
    ProgramPrintsWhatTheWalkFinds(g, states, moves, k);
    var ws, wt := WalkOf(g, states, moves, k);
    WalkRuns.RunStart(g.job, ws, wt);
    WalkResults.ParallelWalkIsSequentialWalk(g.job, height, ws, wt, |wt|);
    SumOfSame(out, files, Worth(g, PipelineResults.Length()));
    forall l: Pipeline.MatchList
      ensures Sum(out, Worth(g, PipelineResults.Is(l))) == Sum(files, Worth(g, PipelineResults.Is(l)))
    {
      SumOfSame(out, files, Worth(g, PipelineResults.Is(l)));
    }
    forall l: Pipeline.MatchList
      ensures multiset(states[k].pipe.printed)[l] ==
              multiset(PipelineResults.ListsOf(g.setup, Spelt(g.spell, files)))[l]
    {
      PipelineResults.SumCounts(states[k].pipe.printed, l);
      PipelineResults.YieldCounts(g.setup, Spelt(g.spell, files), l);
      WorthOfSpelt(g, PipelineResults.Is(l), files);
    }
    WorthOfSpelt(g, PipelineResults.Length(), files);
    PipelineResults.YieldOfLengths(g.setup, Spelt(g.spell, files));
    PipelineResults.SumIsZero(g.setup, Spelt(g.spell, files));
    assert forall i :: 0 <= i < |files| ==> Spelt(g.spell, files)[i] == g.spell(files[i]);
  }

  /** A file that the walk puts out and that has matches is printed, with all its matches. */
  lemma PutOutIsPrinted(g: Program, states: seq<State>, moves: seq<Move>, k: nat, p: Path) returns (i: nat)
    requires WellFormed(g) && IsRun(g, states, moves) && k < |states| && states[k].pipe.main.Exit?
    requires p in states[k].walk.out && PipelineResults.HasMatches(g.setup, g.spell(p))
    ensures i < |states[k].pipe.printed|
    ensures states[k].pipe.printed[i] == Pipeline.MatchList(g.spell(p), g.setup.scan(g.spell(p)).lines)
  {
    hide IsRun, Sum;
    var l := Pipeline.MatchList(g.spell(p), g.setup.scan(g.spell(p)).lines);
    var out := states[k].walk.out;
    ProgramPrintsWhatTheWalkFinds(g, states, moves, k);
    var q :| 0 <= q < |out| && out[q] == p;
    SumAtLeast(out, q, Worth(g, PipelineResults.Is(l)));
    i := SumPositive(states[k].pipe.printed, PipelineResults.Is(l));
  }

  /**
    * End to end, following links: every accepted file of every directory that can be reached by a chain of
    * directories whose identifiers are their own is put out under a path that leads to the directory, and if it
    * has matches there they are printed.
    */
  lemma EveryReachableFileIsPrinted(g: Program, states: seq<State>, moves: seq<Move>, k: nat, xs: seq<Item>, x: Item,
                                    e: nat)
    returns (p: Path)
    requires WellFormed(g) && g.job.c.follow && IsRun(g, states, moves)
    requires k < |states| && states[k].pipe.main.Exit?
    requires FollowCompleteness.OwnChain(g.job, xs) && x == xs[|xs| - 1]
    requires x.dir < |g.job.c.tree| && e < |g.job.c.tree[x.dir]| && Accepted(g.job.c, g.job.c.tree[x.dir][e])
    ensures p in states[k].walk.out && p != [] && p[|p| - 1] == g.job.c.tree[x.dir][e].name
    ensures exists q :: 0 <= q < |states[k].walk.pulled| && states[k].walk.pulled[q].dir == x.dir &&
                        states[k].walk.pulled[q].path == p[..|p| - 1]
    ensures PipelineResults.HasMatches(g.setup, g.spell(p)) ==>
              Pipeline.MatchList(g.spell(p), g.setup.scan(g.spell(p)).lines) in states[k].pipe.printed
  {
    hide IsRun, WalkRuns.IsRun, FollowCompleteness.Own, Sum;
    ProgramPrintsWhatTheWalkFinds(g, states, moves, k);
    var ws, wt := WalkOf(g, states, moves, k);
    WalkRuns.RunStart(g.job, ws, wt);
    p := FollowCompleteness.EveryReachableFileIsReported(g.job, ws, wt, |wt|, xs, x, e);
    if PipelineResults.HasMatches(g.setup, g.spell(p)) {
      var i := PutOutIsPrinted(g, states, moves, k, p);
    }
  }

  // ---------------------------------------------------------------- and the program returns

  lemma PushPossible(c: Pipeline.Setup, s: Pipeline.State, t: nat, e: Event<Pipeline.File>) returns (s': Pipeline.State)
    requires Pipeline.Inv(c, s) && s.main.Globbing? && Pipeline.MainThread(c) <= t < Pipeline.Threads(c)
    requires s.files.pcs[t] == Running && (e.Push? || (e.PushAll? && e.xs != []))
    ensures Pipeline.Next(c, s, t, Pipeline.OnFiles(e), s')
  {
    hide QueueProtocol.Inv;
    var files := if e.Push? then [e.x] else e.xs;
    var d := System(Appended(s.files.q, files), s.files.pcs[t := if e.Push? then OwesOne else OwesAll]);
    s' := s.(files := d, found := s.found + files);
  }

  /** No thread is stuck: until main returns, a step other than a spurious wake-up is possible. */
  lemma NeverStuck(g: Program, s: State) returns (m: Move, s': State)
    requires WellFormed(g) && EndToEnd.Inv(g, s) && !s.pipe.main.Exit?
    ensures Next(g, s, m, s') && !IsSpurious(m)
  {
    hide TreeWalk.Inv, WalkResults.InRange, Pipeline.Inv, TreeWalk.Next, Pipeline.Next, TreeWalk.WellFormed;
    if s.pipe.main.Globbing? && s.walk.master != TreeWalk.Finished {
      GlobberPlaces(g.setup, s.pipe);
      if Pipeline.GlobbersBack(g.setup, s.pipe) {
        var t, w, walk' := WalkProgress.NeverStuck(g.job, s.walk);
        m := Walks(t, w);
        OutGrows(g.job, s.walk, t, w, walk');
        var files := Spelt(g.spell, walk'.out[|s.walk.out|..]);
        if files == [] {
          s' := State(walk', s.pipe);
        } else {
          WalkThread(g, s.walk, t, w, walk');
          var pipe' := PushPossible(g.setup, s.pipe, ThreadOf(g, t), Pushed(g, t, files));
          s' := State(walk', pipe');
        }
      } else {
        var t, p, pipe' := PipelineResults.GlobbingPossible(g.setup, s.pipe);
        m, s' := Pipes(t, p), State(s.walk, pipe');
      }
    } else {
      var t, p, pipe' := PipelineResults.NeverStuck(g.setup, s.pipe);
      m, s' := Pipes(t, p), State(s.walk, pipe');
    }
  }

  lemma WalkThread(g: Program, s: TreeWalk.State, t: nat, m: TreeWalk.Move, s': TreeWalk.State)
    requires TreeWalk.Inv(g.job, s) && TreeWalk.Next(g.job, s, t, m, s')
    ensures t <= g.job.jobs
  {
    TreeWalk.WhoMoves(g.job, s, t, m, s');
  }

  lemma GlobberPlaces(c: Pipeline.Setup, s: Pipeline.State)
    requires Pipeline.Inv(c, s)
    ensures |s.files.pcs| == Pipeline.Threads(c)
  {
  }

  predicate IsSpurious(m: Move) {
    match m
    case Walks(_, w) => w == TreeWalk.Use(Spurious)
    case Pipes(_, p) => PipelineTermination.IsSpurious(p)
  }

  /** The spurious wake-ups among the first n steps. */
  function SpuriousIn(moves: seq<Move>, n: nat): nat
    requires n <= |moves|
  {
    if n == 0 then 0 else SpuriousIn(moves, n - 1) + (if IsSpurious(moves[n - 1]) then 1 else 0)
  }

  ghost function Work(g: Program, height: seq<nat>, s: State): nat
    requires WalkTermination.Finite(g.job, height)
  {
    WalkTermination.Work(g.job, height, s.walk) + PipelineTermination.Work(g.setup, s.pipe)
  }

  /** What the files put out bring in. */
  function Brought(g: Program, files: nat): nat {
    PipelineTermination.Times(PipelineTermination.PerFile(g.setup) + 1, files)
  }

  lemma StepWorks(g: Program, height: seq<nat>, s: State, m: Move, s': State)
    requires WellFormed(g) && WalkTermination.Finite(g.job, height) && EndToEnd.Inv(g, s)
    requires Linked(g, s') && Next(g, s, m, s')
    requires FollowResults.Satisfied(FollowResults.HasKnownId(g.job), FollowResults.Known(g.job), s.walk)
    ensures |s'.walk.out| >= |s.walk.out|
    ensures if IsSpurious(m) then |s'.walk.out| == |s.walk.out| && Work(g, height, s') <= Work(g, height, s) + 1
            else Work(g, height, s') + 1 <= Work(g, height, s) + Brought(g, |s'.walk.out| - |s.walk.out|)
  {
    hide TreeWalk.Inv, WalkResults.InRange, Pipeline.Inv, TreeWalk.Next, Pipeline.Next, TreeWalk.WellFormed;
    hide FollowResults.Satisfied, WalkTermination.Finite, WalkTermination.Work, PipelineTermination.Work;
    hide PipelineTermination.Times;
    match m
    case Walks(t, w) =>
      WalkTermination.EveryStepWorks(g.job, height, s.walk, t, w, s'.walk);
      OutGrows(g.job, s.walk, t, w, s'.walk);
      var files := Spelt(g.spell, s'.walk.out[|s.walk.out|..]);
      if files != [] {
        var push := Pipeline.OnFiles(Pushed(g, t, files));
        PipelineTermination.EveryStepPays(g.setup, s.pipe, ThreadOf(g, t), push, s'.pipe);
      }
    case Pipes(t, p) =>
      PipelineTermination.EveryStepPays(g.setup, s.pipe, t, p, s'.pipe);
  }

  /** A run of the program is no longer than its work at the start and that of the files put out. */
  lemma {:induction false} RunsAreBounded(g: Program, height: seq<nat>, states: seq<State>, moves: seq<Move>, n: nat)
    requires WellFormed(g) && WalkTermination.Finite(g.job, height) && IsRun(g, states, moves) && n <= |moves|
    ensures n + Work(g, height, states[n]) <=
            Work(g, height, states[0]) + Brought(g, |states[n].walk.out|) + 2 * SpuriousIn(moves, n)
  {
    hide IsRun, WalkRuns.IsRun, EndToEnd.Inv, Next, Work, WalkTermination.Finite, TreeWalk.WellFormed;
    hide FollowResults.Satisfied;
    hide PipelineTermination.Times;
    RunStart(g, states, moves);
    if n > 0 {
      RunsAreBounded(g, height, states, moves, n - 1);
      RunKeepsInv(g, states, moves, n - 1);
      RunKeepsInv(g, states, moves, n);
      InvLinks(g, states[n]);
      RunStep(g, states, moves, n - 1);
      WalkKnowsItsIdentifiers(g, states, moves, n - 1);
      var s, s' := states[n - 1], states[n];
      StepWorks(g, height, s, moves[n - 1], s');
      var each := PipelineTermination.PerFile(g.setup) + 1;
      PipelineTermination.TimesSum(each, |s.walk.out|, |s'.walk.out| - |s.walk.out|);
    }
  }

  lemma InvLinks(g: Program, s: State)
    requires EndToEnd.Inv(g, s)
    ensures Linked(g, s)
  {
  }

  lemma WalkKnowsItsIdentifiers(g: Program, states: seq<State>, moves: seq<Move>, k: nat)
    requires WellFormed(g) && IsRun(g, states, moves) && k < |states|
    ensures FollowResults.Satisfied(FollowResults.HasKnownId(g.job), FollowResults.Known(g.job), states[k].walk)
  {
    var ws, wt := WalkOf(g, states, moves, k);
    WalkRuns.RunStart(g.job, ws, wt);
    FollowResults.IdentifiersAreClosed(g.job);
    WalkTermination.KnownIdsAreKnown(g.job);
    FollowResults.RunSatisfies(g.job, FollowResults.HasKnownId(g.job), FollowResults.Known(g.job), ws, wt, |wt|);
  }

  lemma MultisetLess<T>(a: multiset<T>, b: multiset<T>)
    requires forall x :: a[x] <= b[x]
    ensures |a| <= |b|
  {
    assert b == a + (b - a);
  }

  /** The files of the sequential walk; following links, what the directories that can be pulled may hold. */
  ghost function OutputLimit(g: Program, height: seq<nat>): nat
    requires WalkTermination.Finite(g.job, height)
  {
    if g.job.c.follow then OutputBound.FollowingLimit(g.job) else |WalkResults.StartFiles(g.job, height, 0)|
  }

  /** The walk never puts out more files than that. */
  lemma OutputIsBounded(g: Program, height: seq<nat>, states: seq<State>, moves: seq<Move>, k: nat)
    requires WellFormed(g) && WalkTermination.Finite(g.job, height) && IsRun(g, states, moves) && k < |states|
    ensures |states[k].walk.out| <= OutputLimit(g, height)
  {
    hide IsRun, WalkRuns.IsRun, Physical, WalkResults.StartFiles, WalkResults.InRange, TreeWalk.WellFormed;
    var out := states[k].walk.out;
    var ws, wt := WalkOf(g, states, moves, k);
    WalkRuns.RunStart(g.job, ws, wt);
    if g.job.c.follow {
      OutputBound.FollowingOutputIsBounded(g.job, ws, wt, |wt|);
    } else {
      forall p: Path ensures multiset(out)[p] <= WalkResults.StartFiles(g.job, height, 0)[p] {
        WalkResults.RunConserves(g.job, height, p, ws, wt, |wt|);
      }
      MultisetLess(multiset(out), WalkResults.StartFiles(g.job, height, 0));
    }
  }

  /**
    * So a run is no longer than a number that the job alone determines, but for two steps for each spurious
    * wake-up: whatever the scheduler does, and on trees with link cycles too.
    */
  lemma ProgramIsBounded(g: Program, height: seq<nat>, states: seq<State>, moves: seq<Move>, n: nat)
    requires WellFormed(g) && WalkTermination.Finite(g.job, height) && IsRun(g, states, moves) && n <= |moves|
    ensures n <= Work(g, height, states[0]) + Brought(g, OutputLimit(g, height)) + 2 * SpuriousIn(moves, n)
  {
    hide IsRun, Work, OutputLimit, WalkTermination.Finite, TreeWalk.WellFormed, PipelineTermination.Times;
    RunStart(g, states, moves);
    RunsAreBounded(g, height, states, moves, n);
    OutputIsBounded(g, height, states, moves, n);
    var out := |states[n].walk.out|;
    PipelineTermination.TimesSum(PipelineTermination.PerFile(g.setup) + 1, out, OutputLimit(g, height) - out);
  }
}
