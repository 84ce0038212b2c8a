/** Every step of the pipeline but a spurious wake-up uses up work that only the files found bring in. */
module PipelineTermination {
  import opened SyncQueue
  import opened QueueProtocol
  import opened Sums
  import opened QueueWork
  import opened Pipeline
  import opened PipelineResults

  function FileCost(): File -> nat {
    (f: File) => 9
  }

  function ListCost(): MatchList -> nat {
    (l: MatchList) => 3
  }

  /** What a scanner has yet to do before it pulls again, and leaving from there. */
  function ScannerCost(): Scanner -> nat {
    (w: Scanner) => match w
      case Pulling(_) => 2
      case Holding(_, _) => 9
      case Delivering(_, _) => 8
      case Left => 0
  }

  function OutputCost(o: Output): nat {
    match o
    case Draining => 2
    case Printing(_) => 3
    case Gone => 0
  }

  function MainCost(c: Setup, m: Main): nat {
    match m
    case Globbing => 2 * Threads(c) + 5
    case JoiningScanners => Threads(c) + 3
    case JoiningOutput => 1
    case Exit(_) => 0
  }

  ghost function Work(c: Setup, s: State): nat {
    Sum(s.files.q.queue, FileCost()) + Sum(s.files.pcs, PlaceCost(Threads(c))) + Sum(s.scanners, ScannerCost())
    + Sum(s.matches.q.queue, ListCost()) + Sum(s.matches.pcs, PlaceCost(Threads(c)))
    + OutputCost(s.output) + MainCost(c, s.main)
  }

  /** What a file brings in when it is found. */
  function PerFile(c: Setup): nat {
    Threads(c) + 10
  }

  function Times(a: nat, b: nat): nat {
    a * b
  }

  lemma TimesSum(a: nat, b: nat, c: nat)
    ensures Times(a, b + c) == Times(a, b) + Times(a, c)
    ensures c > 0 ==> Times(a, c) >= a
  {
    assert a * (b + c) == a * b + a * c;
    if c > 0 {
      assert a * c == a + a * (c - 1);
      Nonnegative(a, c - 1);
    }
  }

  lemma Nonnegative(a: nat, b: nat)
    ensures a * b >= 0
  {
  }

  lemma {:induction false} FilesCost(files: seq<File>)
    ensures Sum(files, FileCost()) == 9 * |files|
  {
    if files != [] {
      FilesCost(files[1..]);
    }
  }

  /** Nobody waits for the completion of either queue's pullers. */
  lemma NobodyAwaits(c: Setup, s: State)
    requires Fits(c, s)
    ensures |s.files.pcs| == |s.matches.pcs| == Threads(c) && |s.scanners| == c.scanners
    ensures forall i :: 0 <= i < Threads(c) ==> s.files.pcs[i] != AwaitingWorkers && s.files.pcs[i] != WokenByWorkers
    ensures forall i :: 0 <= i < Threads(c) ==>
              s.matches.pcs[i] != AwaitingWorkers && s.matches.pcs[i] != WokenByWorkers
  {
    forall i | 0 <= i < Threads(c)
      ensures s.files.pcs[i] != AwaitingWorkers && s.files.pcs[i] != WokenByWorkers
      ensures s.matches.pcs[i] != AwaitingWorkers && s.matches.pcs[i] != WokenByWorkers
    {
      if i < c.scanners {
        assert ScannerFits(s.scanners[i], s.files.pcs[i], s.matches.pcs[i]);
      } else if i > MainThread(c) {
        assert GlobberFits(s.main, s.files.pcs[i], s.matches.pcs[i]);
      }
    }
  }

  predicate IsSpurious(m: Move) {
    m == OnFiles(Spurious) || m == OnMatches(Spurious)
  }

  /** A push of files by the walk brings in work; any other step uses some up, or is a spurious wake-up. */
  ghost predicate Pays(c: Setup, s: State, m: Move, s': State) {
    if IsSpurious(m) then s'.found == s.found && Work(c, s') <= Work(c, s) + 1
    else
      |s'.found| >= |s.found| &&
      Work(c, s') + 1 <= Work(c, s) + Times(PerFile(c) + 1, |s'.found| - |s.found|)
  }

  lemma GlobPays(c: Setup, s: State, t: nat, e: Event<File>, s': State)
    requires Fits(c, s) && GlobStep(c, s, t, e, s')
    ensures Pays(c, s, OnFiles(e), s')
  {
    hide Step, Sum, Fits;
    NobodyAwaits(c, s);
    StepGuards(s.files, t, e, s'.files);
    StepPlaces(s.files, t, e, s'.files);
    TimesSum(PerFile(c) + 1, 0, |s'.found| - |s.found|);
    match e
    case Push(f) => SumAppend(s.files.q.queue, f, FileCost());
    case PushAll(fs) =>
      SumConcat(s.files.q.queue, fs, FileCost());
      FilesCost(fs);
      ManyFiles(c, |fs|);
    case _ =>
  }

  lemma ManyFiles(c: Setup, n: nat)
    requires n > 0
    ensures 9 * n + Threads(c) + 2 <= Times(PerFile(c) + 1, n)
  {
    var k := Threads(c) + 2;
    assert (9 + k) * n == 9 * n + k * n;
    TimesSum(k, 0, n);
  }

  lemma ScannerPays(c: Setup, s: State, t: nat, m: Move, s': State)
    requires Fits(c, s) && t < c.scanners && ScannerStep(c, s, t, m, s')
    requires m != OnMatches(Refused)
    ensures Pays(c, s, m, s')
  {
    hide Step, Sum, Fits;
    NobodyAwaits(c, s);
    if s'.scanners != s.scanners {
      SumUpdate(s.scanners, t, s'.scanners[t], ScannerCost());
    }
    if m.OnFiles? {
      StepGuards(s.files, t, m.e, s'.files);
      StepPlaces(s.files, t, m.e, s'.files);
      if m.e.Pull? {
        SumOfTail(s.files.q.queue, FileCost());
      }
    } else if m.OnMatches? {
      StepGuards(s.matches, t, m.m, s'.matches);
      StepPlaces(s.matches, t, m.m, s'.matches);
      if m.m.Push? {
        SumAppend(s.matches.q.queue, m.m.x, ListCost());
      }
    }
  }

  lemma OutputPays(c: Setup, s: State, m: Move, s': State)
    requires Fits(c, s) && OutputStep(c, s, m, s')
    ensures Pays(c, s, m, s')
  {
    hide Step, Sum, Fits;
    NobodyAwaits(c, s);
    if m.OnMatches? {
      StepGuards(s.matches, OutputThread(c), m.m, s'.matches);
      StepPlaces(s.matches, OutputThread(c), m.m, s'.matches);
      if m.m.Pull? {
        SumOfTail(s.matches.q.queue, ListCost());
      }
    }
  }

  lemma MainPays(c: Setup, s: State, m: Move, s': State)
    requires Fits(c, s) && MainStep(c, s, m, s')
    ensures Pays(c, s, m, s')
  {
    hide Step, Sum, Fits, GlobStep;
    NobodyAwaits(c, s);
    if s.main == Globbing && m.e != Close {
      GlobPays(c, s, MainThread(c), m.e, s');
    } else if m.OnFiles? {
      StepGuards(s.files, MainThread(c), m.e, s'.files);
      StepPlaces(s.files, MainThread(c), m.e, s'.files);
    } else if m.OnMatches? {
      StepGuards(s.matches, MainThread(c), m.m, s'.matches);
      StepPlaces(s.matches, MainThread(c), m.m, s'.matches);
    }
  }

  /** Every step of any thread pays for itself, except that found files bring in work. */
  lemma EveryStepPays(c: Setup, s: State, t: nat, m: Move, s': State)
    requires Pipeline.Inv(c, s) && Next(c, s, t, m, s')
    ensures Pays(c, s, m, s')
  {
    NothingRefused(c, s, t, m, s');
    hide Step, Pays, ScannerStep, OutputStep, MainStep, GlobStep, QueueProtocol.Inv, Phases, Fits;
    if t < c.scanners {
      ScannerPays(c, s, t, m, s');
    } else if t == OutputThread(c) {
      OutputPays(c, s, m, s');
    } else if t == MainThread(c) {
      MainPays(c, s, m, s');
    } else {
      GlobPays(c, s, t, m.e, s');
    }
  }

  /** The spurious wake-ups among the first n steps. */
  function SpuriousIn(turns: seq<Turn>, n: nat): nat
    requires n <= |turns|
  {
    if n == 0 then 0 else SpuriousIn(turns, n - 1) + (if IsSpurious(turns[n - 1].move) then 1 else 0)
  }

  /** A run is no longer than the work at the start and what the files found bring in allow. */
  lemma {:induction false} RunsAreBounded(c: Setup, states: seq<State>, turns: seq<Turn>, n: nat)
    requires IsRun(c, states, turns) && n <= |turns|
    ensures n + Work(c, states[n]) <=
            Work(c, states[0]) + Times(PerFile(c) + 1, |states[n].found|) + 2 * SpuriousIn(turns, n)
  {
    hide Next, Work, IsRun, Pipeline.Inv, Content, Balanced, Times;
    RunStart(c, states, turns);
    if n > 0 {
      RunsAreBounded(c, states, turns, n - 1);
      RunBalances(c, Length(), states, turns, n - 1);
      RunStep(c, states, turns, n - 1);
      var s, s' := states[n - 1], states[n];
      EveryStepPays(c, s, turns[n - 1].thread, turns[n - 1].move, s');
      TimesSum(PerFile(c) + 1, |s.found|, |s'.found| - |s.found|);
    }
  }
}
