/** What the pipeline delivers: it conserves work, and it is never stuck. */
module PipelineResults {
  import opened SyncQueue
  import opened QueueProtocol
  import opened Sums
  import opened Pipeline

  // ---------------------------------------------------------------- conservation of work

  /** A match list holds the matches of one file only, and is empty whenever a scanner pulls. */
  predicate OneFile(c: Setup, w: Scanner) {
    match w
    case Pulling(ml) => ml == []
    case Holding(_, ml) => ml == []
    case Delivering(f, ml) => ml != [] && c.scan(f) == Scanned(ml)
    case Left => true
  }

  predicate FromOneFile(c: Setup, l: MatchList) {
    l.lines != [] && c.scan(l.filename) == Scanned(l.lines)
  }

  /** What a file contributes, in some measure of match lists. */
  ghost function YieldOf(c: Setup, w: MatchList -> nat, f: File): nat {
    match c.scan(f)
    case Scanned(lines) => if lines == [] then 0 else w(MatchList(f, lines))
    case _ => 0
  }

  ghost function Yield(c: Setup, w: MatchList -> nat): File -> nat {
    (f: File) => YieldOf(c, w, f)
  }

  /** What a scanner has in its hands, in the same measure. */
  ghost function InHandOf(c: Setup, w: MatchList -> nat, x: Scanner): nat {
    match x
    case Holding(f, _) => YieldOf(c, w, f)
    case Delivering(f, ml) => w(MatchList(f, ml))
    case _ => 0
  }

  ghost function InHand(c: Setup, w: MatchList -> nat): Scanner -> nat {
    (x: Scanner) => InHandOf(c, w, x)
  }

  ghost function OnPaper(o: Output, w: MatchList -> nat): nat {
    if o.Printing? then w(o.list) else 0
  }

  function Length(): MatchList -> nat {
    (l: MatchList) => |l.lines|
  }

  ghost predicate Content(c: Setup, s: State) {
    && s.found == s.pulled + s.files.q.queue
    && (forall i :: 0 <= i < |s.scanners| ==> OneFile(c, s.scanners[i]))
    && (forall i :: 0 <= i < |s.matches.q.queue| ==> FromOneFile(c, s.matches.q.queue[i]))
    && (s.output.Printing? ==> FromOneFile(c, s.output.list))
    && (forall i :: 0 <= i < |s.printed| ==> FromOneFile(c, s.printed[i]))
    && s.total == Sum(s.printed, Length())
  }

  /** What the pulled files yield is in a scanner's hands, queued, being printed or printed. */
  ghost predicate Balanced(c: Setup, w: MatchList -> nat, s: State) {
    Sum(s.pulled, Yield(c, w)) ==
    Sum(s.scanners, InHand(c, w)) + Sum(s.matches.q.queue, w) + OnPaper(s.output, w) + Sum(s.printed, w)
  }

  /** No push of the program meets a closed queue. */
  lemma NothingRefused(c: Setup, s: State, t: nat, m: Move, s': State)
    requires Pipeline.Inv(c, s) && Next(c, s, t, m, s')
    ensures m != OnFiles(Refused) && m != OnMatches(Refused)
  {
    hide QueueProtocol.Inv, Fits;
    if m.OnFiles? {
      NextUsesQueues(c, s, t, m, s');
      StepGuards(s.files, t, m.e, s'.files);
    } else if m.OnMatches? {
      NextUsesQueues(c, s, t, m, s');
      StepGuards(s.matches, t, m.m, s'.matches);
    }
    hide Step;
  }

  lemma ScannerPullKeepsContent(c: Setup, s: State, t: nat, e: Event<File>, s': State)
    requires Content(c, s) && t < |s.scanners| && t < |s.files.pcs| && t < |s.matches.pcs|
    requires ScannerStep(c, s, t, OnFiles(e), s')
    ensures Content(c, s')
  {
    hide Step, Sum, FromOneFile;
    assert OneFile(c, s.scanners[t]);
    StepGuards(s.files, t, e, s'.files);
    if e.Pull? {
      assert s.files.q.queue == [e.item] + s'.files.q.queue;
    }
  }

  lemma ScannerPushKeepsContent(c: Setup, s: State, t: nat, e: Event<MatchList>, s': State)
    requires Content(c, s) && t < |s.scanners| && t < |s.files.pcs| && t < |s.matches.pcs|
    requires ScannerStep(c, s, t, OnMatches(e), s') && e != Refused
    ensures Content(c, s')
  {
    hide Step, Sum;
    assert OneFile(c, s.scanners[t]);
    StepGuards(s.matches, t, e, s'.matches);
  }

  lemma ScannerKeepsContent(c: Setup, s: State, t: nat, m: Move, s': State)
    requires Content(c, s) && t < c.scanners && Next(c, s, t, m, s') && m != OnMatches(Refused)
    ensures Content(c, s')
  {
    hide Step, Sum, FromOneFile;
    match m
    case OnFiles(e) => ScannerPullKeepsContent(c, s, t, e, s');
    case OnMatches(e) => ScannerPushKeepsContent(c, s, t, e, s');
    case Local =>
      assert OneFile(c, s.scanners[t]);
      assert s.scanners[t].ml + [] == [];
      assert forall lines: seq<nat> :: [] + lines == lines;
  }

  lemma OutputKeepsContent(c: Setup, s: State, m: Move, s': State)
    requires Content(c, s) && OutputStep(c, s, m, s')
    ensures Content(c, s')
  {
    hide Step, Sum, OneFile, FromOneFile;
    if m.OnMatches? {
      StepGuards(s.matches, OutputThread(c), m.m, s'.matches);
    } else {
      SumAppend(s.printed, s.output.list, Length());
    }
  }

  lemma WalkKeepsContent(c: Setup, s: State, t: nat, m: Move, s': State)
    requires Content(c, s) && t >= MainThread(c) && Next(c, s, t, m, s')
    ensures Content(c, s')
  {
    hide Step, Sum, OneFile, FromOneFile;
    if m.OnFiles? {
      StepGuards(s.files, t, m.e, s'.files);
    } else if m.OnMatches? {
      StepGuards(s.matches, t, m.m, s'.matches);
    }
  }

  lemma OthersKeepContent(c: Setup, s: State, t: nat, m: Move, s': State)
    requires Content(c, s) && t >= c.scanners && Next(c, s, t, m, s')
    ensures Content(c, s')
  {
    hide Content, OutputStep, MainStep, GlobStep;
    if t == OutputThread(c) {
      OutputKeepsContent(c, s, m, s');
    } else {
      WalkKeepsContent(c, s, t, m, s');
    }
  }

  lemma ScannerBalances(c: Setup, w: MatchList -> nat, s: State, t: nat, m: Move, s': State)
    requires Content(c, s) && Balanced(c, w, s) && t < c.scanners && Next(c, s, t, m, s') && m != OnMatches(Refused)
    ensures Balanced(c, w, s')
  {
    hide Step, Sum, Content;
    OneFileEach(c, s, t);
    if s'.scanners != s.scanners {
      SumUpdate(s.scanners, t, s'.scanners[t], InHand(c, w));
    }
    if m.OnFiles? {
      StepGuards(s.files, t, m.e, s'.files);
      if m.e.Pull? {
        SumAppend(s.pulled, m.e.item, Yield(c, w));
      }
    } else if m.OnMatches? {
      StepGuards(s.matches, t, m.m, s'.matches);
      if m.m.Push? {
        SumAppend(s.matches.q.queue, m.m.x, w);
      }
    } else {
      assert forall lines: seq<nat> :: [] + lines == lines;
    }
  }

  lemma OneFileEach(c: Setup, s: State, t: nat)
    requires Content(c, s) && t < |s.scanners|
    ensures OneFile(c, s.scanners[t])
  {
  }

  lemma OthersBalance(c: Setup, w: MatchList -> nat, s: State, t: nat, m: Move, s': State)
    requires Balanced(c, w, s) && t >= c.scanners && Next(c, s, t, m, s')
    ensures Balanced(c, w, s')
  {
    hide Step, Sum;
    if m.OnMatches? {
      StepGuards(s.matches, t, m.m, s'.matches);
      if m.m.Pull? {
        SumOfTail(s.matches.q.queue, w);
      }
    } else if s.output.Printing? && t == OutputThread(c) && m == Local {
      SumAppend(s.printed, s.output.list, w);
    }
  }

  datatype Turn = Turn(thread: nat, move: Move)

  ghost predicate IsRun(c: Setup, states: seq<State>, turns: seq<Turn>) {
    && |states| == |turns| + 1
    && Initially(c, states[0])
    && forall k :: 0 <= k < |turns| ==> Next(c, states[k], turns[k].thread, turns[k].move, states[k + 1])
  }

  lemma RunStart(c: Setup, states: seq<State>, turns: seq<Turn>)
    requires IsRun(c, states, turns)
    ensures |states| == |turns| + 1 && Initially(c, states[0])
  {
  }

  lemma RunStep(c: Setup, states: seq<State>, turns: seq<Turn>, k: nat)
    requires IsRun(c, states, turns) && k < |turns|
    ensures Next(c, states[k], turns[k].thread, turns[k].move, states[k + 1])
  {
  }

  lemma InitiallyBalanced(c: Setup, w: MatchList -> nat, s: State)
    requires Initially(c, s)
    ensures Content(c, s) && Balanced(c, w, s)
  {
    SumOfNothing(s.scanners, InHand(c, w));
  }

  lemma {:induction false} RunBalances(c: Setup, w: MatchList -> nat, states: seq<State>, turns: seq<Turn>, k: nat)
    requires IsRun(c, states, turns) && k < |states|
    ensures Pipeline.Inv(c, states[k]) && Content(c, states[k]) && Balanced(c, w, states[k])
  {
    hide *;
    RunStart(c, states, turns);
    if k == 0 {
      InitiallyInv(c, states[0]);
      InitiallyBalanced(c, w, states[0]);
    } else {
      RunBalances(c, w, states, turns, k - 1);
      RunStep(c, states, turns, k - 1);
      var s, t, m, s' := states[k - 1], turns[k - 1].thread, turns[k - 1].move, states[k];
      NothingRefused(c, s, t, m, s');
      NextKeepsInv(c, s, t, m, s');
      if t < c.scanners {
        ScannerKeepsContent(c, s, t, m, s');
        ScannerBalances(c, w, s, t, m, s');
      } else {
        OthersKeepContent(c, s, t, m, s');
        OthersBalance(c, w, s, t, m, s');
      }
    }
  }

  /** No push of any thread is ever refused. */
  lemma NoPushIsRefused(c: Setup, states: seq<State>, turns: seq<Turn>, k: nat)
    requires IsRun(c, states, turns) && k < |turns|
    ensures turns[k].move != OnFiles(Refused) && turns[k].move != OnMatches(Refused)
  {
    RunBalances(c, Length(), states, turns, k);
    RunStep(c, states, turns, k);
    NothingRefused(c, states[k], turns[k].thread, turns[k].move, states[k + 1]);
  }

  /** The measure that counts one match list. */
  function Is(l: MatchList): MatchList -> nat {
    (x: MatchList) => if x == l then 1 else 0
  }

  /** At exit nothing is under way. */
  lemma NothingUnderWay(c: Setup, w: MatchList -> nat, s: State)
    requires Pipeline.Inv(c, s) && Content(c, s) && Balanced(c, w, s) && s.main.Exit? && c.scanners > 0
    ensures s.pulled == s.found && Sum(s.found, Yield(c, w)) == Sum(s.printed, w)
  {
    hide QueueProtocol.Inv, ScannerFits;
    assert s.scanners[0] == Left;
    SumOfNothing(s.scanners, InHand(c, w));
  }

  /** The match lists of the files that have matches, in order: what a single thread would print. */
  function ListsOf(c: Setup, files: seq<File>): seq<MatchList> {
    if files == [] then []
    else
      (match c.scan(files[0])
       case Scanned(lines) => if lines == [] then [] else [MatchList(files[0], lines)]
       case _ => []) + ListsOf(c, files[1..])
  }

  /** How many matched lines the files hold. */
  function MatchedLines(c: Setup, files: seq<File>): nat {
    if files == [] then 0
    else (match c.scan(files[0]) case Scanned(lines) => |lines| case _ => 0) + MatchedLines(c, files[1..])
  }

  lemma {:induction false} SumCounts(ls: seq<MatchList>, l: MatchList)
    ensures Sum(ls, Is(l)) == multiset(ls)[l]
  {
    if ls != [] {
      SumCounts(ls[1..], l);
      assert ls == [ls[0]] + ls[1..];
    }
  }

  lemma {:induction false} YieldCounts(c: Setup, files: seq<File>, l: MatchList)
    ensures Sum(files, Yield(c, Is(l))) == multiset(ListsOf(c, files))[l]
  {
    if files != [] {
      YieldCounts(c, files[1..], l);
    }
  }

  lemma {:induction false} YieldOfLengths(c: Setup, files: seq<File>)
    ensures Sum(files, Yield(c, Length())) == MatchedLines(c, files)
  {
    if files != [] {
      YieldOfLengths(c, files[1..]);
    }
  }

  /**
    * The pipeline conserves work. In every interleaving, when main returns: each file found was
    * pulled once and in order; each file with matches was printed once for each time it was found,
    * as one list of that file's matches only; and the total is the sum over the files.
    */
  lemma PipelineConserves(c: Setup, states: seq<State>, turns: seq<Turn>, k: nat)
    requires c.scanners > 0 && IsRun(c, states, turns) && k < |states| && states[k].main.Exit?
    ensures states[k].pulled == states[k].found
    ensures forall l :: Sum(states[k].printed, Is(l)) == Sum(states[k].found, Yield(c, Is(l)))
    ensures forall i :: 0 <= i < |states[k].printed| ==> FromOneFile(c, states[k].printed[i])
    ensures states[k].total == Sum(states[k].found, Yield(c, Length()))
    // What is printed is what a single thread would print, in some order.
    ensures multiset(states[k].printed) == multiset(ListsOf(c, states[k].found))
    ensures states[k].total == MatchedLines(c, states[k].found)
  {
    hide ListsOf, MatchedLines, Sum;
    var s := states[k];
    YieldOfLengths(c, s.found);
    RunBalances(c, Length(), states, turns, k);
    NothingUnderWay(c, Length(), s);
    forall l: MatchList ensures Sum(s.printed, Is(l)) == Sum(s.found, Yield(c, Is(l))) {
      RunBalances(c, Is(l), states, turns, k);
      NothingUnderWay(c, Is(l), s);
    }
    forall l: MatchList ensures multiset(s.printed)[l] == multiset(ListsOf(c, s.found))[l] {
      SumCounts(s.printed, l);
      YieldCounts(c, s.found, l);
    }
  }

  predicate HasMatches(c: Setup, f: File) {
    c.scan(f).Scanned? && c.scan(f).lines != []
  }

  lemma {:induction false} SumIsZero(c: Setup, files: seq<File>)
    ensures Sum(files, Yield(c, Length())) == 0 <==> forall i :: 0 <= i < |files| ==> !HasMatches(c, files[i])
  {
    if files != [] {
      SumIsZero(c, files[1..]);
      assert files == [files[0]] + files[1..];
    }
  }

  /** The exit code: 0 if some file found has a match, 1 if none has. */
  lemma ExitCode(c: Setup, states: seq<State>, turns: seq<Turn>, k: nat)
    requires c.scanners > 0 && IsRun(c, states, turns) && k < |states| && states[k].main.Exit?
    ensures states[k].main.code ==
            if exists i :: 0 <= i < |states[k].found| && HasMatches(c, states[k].found[i]) then 0 else 1
  {
    PipelineConserves(c, states, turns, k);
    SumIsZero(c, states[k].found);
    RunBalances(c, Length(), states, turns, k);
    hide QueueProtocol.Inv, Fits, Sum;
  }

  // ---------------------------------------------------------------- never stuck

  lemma NobodyOwesAll(pcs: seq<Pc>)
    requires forall i :: 0 <= i < |pcs| ==> pcs[i] != OwesAll
    ensures Count(pcs, OwesAll) == 0
  {
    CountNone(pcs, OwesAll);
  }

  lemma SleeperCounts(pcs: seq<Pc>, t: nat)
    requires t < |pcs| && pcs[t] == Asleep
    ensures Count(pcs, Asleep) > 0
  {
    MoveCounts(pcs, t, Running, Asleep);
  }

  /** Once the file queue is closed and its notify_all done, no scanner sleeps. */
  lemma NoScannerAsleep(c: Setup, s: State, t: nat)
    requires Pipeline.Inv(c, s) && t < c.scanners && s.main == JoiningScanners && s.files.pcs[MainThread(c)] == Running
    ensures s.files.pcs[t] != Asleep
  {
    hide Count;
    forall i | 0 <= i < |s.files.pcs| ensures s.files.pcs[i] != OwesAll {
      if i < c.scanners {
        assert ScannerFits(s.scanners[i], s.files.pcs[i], s.matches.pcs[i]);
      } else if i > MainThread(c) {
        assert GlobberFits(s.main, s.files.pcs[i], s.matches.pcs[i]);
      }
    }
    NobodyOwesAll(s.files.pcs);
    if s.files.pcs[t] == Asleep {
      SleeperCounts(s.files.pcs, t);
    }
  }

  /** Once the match queue is closed and its notify_all done, the output task does not sleep. */
  lemma OutputAwake(c: Setup, s: State)
    requires Pipeline.Inv(c, s) && s.main == JoiningOutput && s.matches.pcs[MainThread(c)] == Running
    ensures s.matches.pcs[OutputThread(c)] != Asleep
  {
    hide Count;
    forall i | 0 <= i < |s.matches.pcs| ensures s.matches.pcs[i] != OwesAll {
      if i < c.scanners {
        assert ScannerFits(s.scanners[i], s.files.pcs[i], s.matches.pcs[i]);
      } else if i > MainThread(c) {
        assert GlobberFits(s.main, s.files.pcs[i], s.matches.pcs[i]);
      }
    }
    NobodyOwesAll(s.matches.pcs);
    if s.matches.pcs[OutputThread(c)] == Asleep {
      SleeperCounts(s.matches.pcs, OutputThread(c));
    }
  }

  lemma ScannerPossible(c: Setup, s: State, t: nat) returns (m: Move, s': State)
    requires Pipeline.Inv(c, s) && t < c.scanners && s.scanners[t] != Left
    requires s.files.pcs[t] != Asleep && !s.matches.q.closed
    ensures Next(c, s, t, m, s') && m != OnFiles(Spurious) && m != OnMatches(Spurious)
    ensures !PushesFiles(m) && m != OnFiles(Close)
  {
    hide Count, Wake, QueueProtocol.Inv;
    assert ScannerFits(s.scanners[t], s.files.pcs[t], s.matches.pcs[t]);
    match s.scanners[t]
    case Pulling(ml) =>
      if s.matches.pcs[t] == OwesOne {
        var e, d := NotifyPossible(s.matches, t);
        m, s' := OnMatches(e), s.(matches := d);
      } else {
        var e, d := PullPossible(s.files, t);
        m := OnFiles(e);
        s' := if e.Pull? then
                s.(files := d, scanners := s.scanners[t := Holding(e.item, ml)], pulled := s.pulled + [e.item])
              else if e.PullClosed? then s.(files := d, scanners := s.scanners[t := Left])
              else s.(files := d);
      }
    case Holding(_, _) =>
      m, s' := Local, s.(scanners := s.scanners[t := AfterScan(c, s.scanners[t])]);
    case Delivering(f, ml) =>
      var d := System(Appended(s.matches.q, [MatchList(f, ml)]), s.matches.pcs[t := OwesOne]);
      m, s' := OnMatches(Push(MatchList(f, ml))), s.(matches := d, scanners := s.scanners[t := Pulling([])]);
  }

  predicate PushesFiles(m: Move) {
    m.OnFiles? && (m.e.Push? || m.e.PushAll?)
  }

  lemma GlobbingPossible(c: Setup, s: State) returns (t: nat, m: Move, s': State)
    requires Pipeline.Inv(c, s) && s.main == Globbing
    ensures Next(c, s, t, m, s') && m != OnFiles(Spurious) && m != OnMatches(Spurious)
    ensures !PushesFiles(m) && (m == OnFiles(Close) <==> GlobbersBack(c, s))
  {
    hide Count, Wake, QueueProtocol.Inv;
    if GlobbersBack(c, s) {
      t, m := MainThread(c), OnFiles(Close);
      s' := s.(files := System(s.files.q.(closed := true), s.files.pcs[t := OwesAll]), main := JoiningScanners);
    } else {
      t :| MainThread(c) <= t < |s.files.pcs| && s.files.pcs[t] != Running;
      assert t > MainThread(c) ==> GlobberFits(s.main, s.files.pcs[t], s.matches.pcs[t]);
      if s.files.pcs[t] == OwesOne {
        var e, d := NotifyPossible(s.files, t);
        m, s' := OnFiles(e), s.(files := d);
      } else {
        m := OnFiles(NotifyAll);
        s' := s.(files := System(s.files.q, Wake(s.files.pcs[t := Running], Asleep, Woken)));
      }
    }
  }

  lemma JoiningScannersPossible(c: Setup, s: State) returns (t: nat, m: Move, s': State)
    requires Pipeline.Inv(c, s) && s.main == JoiningScanners
    ensures Next(c, s, t, m, s') && m != OnFiles(Spurious) && m != OnMatches(Spurious)
    ensures !PushesFiles(m) && m != OnFiles(Close)
  {
    hide Count, Wake, QueueProtocol.Inv;
    t := MainThread(c);
    if s.files.pcs[t] == OwesAll {
      m := OnFiles(NotifyAll);
      s' := s.(files := System(s.files.q, Wake(s.files.pcs[t := Running], Asleep, Woken)));
    } else if forall i :: 0 <= i < |s.scanners| ==> s.scanners[i] == Left {
      m := OnMatches(Close);
      s' := s.(matches := System(s.matches.q.(closed := true), s.matches.pcs[t := OwesAll]), main := JoiningOutput);
    } else {
      t :| t < |s.scanners| && s.scanners[t] != Left;
      NoScannerAsleep(c, s, t);
      m, s' := ScannerPossible(c, s, t);
    }
  }

  lemma JoiningOutputPossible(c: Setup, s: State) returns (t: nat, m: Move, s': State)
    requires Pipeline.Inv(c, s) && s.main == JoiningOutput
    ensures Next(c, s, t, m, s') && m != OnFiles(Spurious) && m != OnMatches(Spurious)
    ensures !PushesFiles(m) && m != OnFiles(Close)
  {
    hide Count, Wake, QueueProtocol.Inv;
    t := MainThread(c);
    if s.matches.pcs[t] == OwesAll {
      m := OnMatches(NotifyAll);
      s' := s.(matches := System(s.matches.q, Wake(s.matches.pcs[t := Running], Asleep, Woken)));
    } else if s.output == Gone {
      m, s' := Local, s.(main := Exit(if s.total == 0 then 1 else 0));
    } else {
      OutputAwake(c, s);
      t := OutputThread(c);
      if s.output.Printing? {
        m := Local;
        s' := s.(output := Draining, total := s.total + |s.output.list.lines|, printed := s.printed + [s.output.list]);
      } else {
        var e, d := PullPossible(s.matches, t);
        m := OnMatches(e);
        s' := if e.Pull? then s.(matches := d, output := Printing(e.item))
              else if e.PullClosed? then s.(matches := d, output := Gone)
              else s.(matches := d);
      }
    }
  }

  /** No deadlock: until main returns, a step is possible that is no spurious wake-up and no push of more files. */
  lemma NeverStuck(c: Setup, s: State) returns (t: nat, m: Move, s': State)
    requires Pipeline.Inv(c, s) && !s.main.Exit?
    ensures Next(c, s, t, m, s') && m != OnFiles(Spurious) && m != OnMatches(Spurious)
    ensures !PushesFiles(m) && (m == OnFiles(Close) ==> s.main == Globbing && GlobbersBack(c, s))
  {
    hide Pipeline.Inv, Next;
    match s.main
    case Globbing => t, m, s' := GlobbingPossible(c, s);
    case JoiningScanners => t, m, s' := JoiningScannersPossible(c, s);
    case JoiningOutput => t, m, s' := JoiningOutputPossible(c, s);
  }
}
