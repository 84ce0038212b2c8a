/**
  * The three stages of the program: the globber's threads queue files, the scanners turn files into
  * match lists, and the output task prints and counts them. Main closes and joins stage by stage.
  */
module Pipeline {
  import opened SyncQueue
  import opened QueueProtocol

  type File = string

  /** Opening and scanning one file: it cannot be read, it is empty, or it has these matched lines. */
  datatype Outcome = Unreadable | NoContents | Scanned(lines: seq<nat>)

  datatype MatchList = MatchList(filename: File, lines: seq<nat>)

  /** What scanning yields, how many scanner threads there are, and how many threads glob beside main. */
  datatype Setup = Setup(scan: File -> Outcome, scanners: nat, globbers: nat)

  /** Where a scanner is in FileScanner::Run; ml is the match list it reuses. */
  datatype Scanner =
    | Pulling(ml: seq<nat>)
    | Holding(file: File, ml: seq<nat>)
    | Delivering(file: File, ml: seq<nat>)
    | Left

  /** Where the output thread is in OutputTask::Run. */
  datatype Output = Draining | Printing(list: MatchList) | Gone

  datatype Main = Globbing | JoiningScanners | JoiningOutput | Exit(code: nat)

  /** found, pulled and printed log what went through, and are read by no step. */
  datatype State = State(
    files: System<File>,
    matches: System<MatchList>,
    scanners: seq<Scanner>,
    output: Output,
    total: nat,
    main: Main,
    found: seq<File>,
    pulled: seq<File>,
    printed: seq<MatchList>)

  datatype Move = OnFiles(e: Event<File>) | OnMatches(m: Event<MatchList>) | Local

  /** Threads: the scanners, then the output task, then main, then the other globber threads. */
  function OutputThread(c: Setup): nat { c.scanners }
  function MainThread(c: Setup): nat { c.scanners + 1 }
  function Threads(c: Setup): nat { c.scanners + 2 + c.globbers }

  ghost predicate Initially(c: Setup, s: State) {
    && Initial(s.files) && |s.files.pcs| == Threads(c)
    && Initial(s.matches) && |s.matches.pcs| == Threads(c)
    && |s.scanners| == c.scanners && (forall i :: 0 <= i < c.scanners ==> s.scanners[i] == Pulling([]))
    && s.output == Draining && s.total == 0 && s.main == Globbing
    && s.found == [] && s.pulled == [] && s.printed == []
  }

  /** The scanner's state after it has opened and scanned the file it holds. */
  function AfterScan(c: Setup, w: Scanner): Scanner
    requires w.Holding?
  {
    match c.scan(w.file)
    case Unreadable => Pulling(w.ml)
    case NoContents => Pulling(w.ml)
    case Scanned(lines) => if w.ml + lines == [] then Pulling([]) else Delivering(w.file, w.ml + lines)
  }

  predicate ScannerStep(c: Setup, s: State, t: nat, m: Move, s': State)
    requires t < |s.scanners| && t < |s.files.pcs| && t < |s.matches.pcs|
  {
    match m
    case OnFiles(e) =>
      s.scanners[t].Pulling? && s.matches.pcs[t] == Running && Step(s.files, t, e, s'.files) &&
      (match e
       case Pull(f) =>
         s' == s.(files := s'.files, scanners := s.scanners[t := Holding(f, s.scanners[t].ml)],
                  pulled := s.pulled + [f])
       case PullClosed => s' == s.(files := s'.files, scanners := s.scanners[t := Left])
       case PullBlocks => s' == s.(files := s'.files)
       case Spurious => s' == s.(files := s'.files)
       case _ => false)
    case OnMatches(e) =>
      s.files.pcs[t] == Running && Step(s.matches, t, e, s'.matches) &&
      (match s.scanners[t]
       case Delivering(f, ml) =>
         (e == Push(MatchList(f, ml)) || e == Refused) &&
         s' == s.(matches := s'.matches, scanners := s.scanners[t := Pulling([])])
       case Pulling(_) => (e.NotifyOne? || e.NotifyNobody?) && s' == s.(matches := s'.matches)
       case _ => false)
    case Local =>
      s.scanners[t].Holding? && s' == s.(scanners := s.scanners[t := AfterScan(c, s.scanners[t])])
  }

  predicate OutputStep(c: Setup, s: State, m: Move, s': State) {
    match m
    case OnMatches(e) =>
      s.output == Draining && Step(s.matches, OutputThread(c), e, s'.matches) &&
      (match e
       case Pull(l) => s' == s.(matches := s'.matches, output := Printing(l))
       case PullClosed => s' == s.(matches := s'.matches, output := Gone)
       case PullBlocks => s' == s.(matches := s'.matches)
       case Spurious => s' == s.(matches := s'.matches)
       case _ => false)
    case Local =>
      s.output.Printing? &&
      s' == s.(output := Draining, total := s.total + |s.output.list.lines|, printed := s.printed + [s.output.list])
    case OnFiles(_) => false
  }

  /** Every globber thread has returned: the walk is over. */
  predicate GlobbersBack(c: Setup, s: State) {
    forall i :: MainThread(c) <= i < |s.files.pcs| ==> s.files.pcs[i] == Running
  }

  /** What a globber thread, main included, does while the walk goes on. */
  predicate GlobStep(c: Setup, s: State, t: nat, e: Event<File>, s': State) {
    s.main == Globbing && Step(s.files, t, e, s'.files) &&
    match e
    case Push(f) => s' == s.(files := s'.files, found := s.found + [f])
    case PushAll(fs) => fs != [] && s' == s.(files := s'.files, found := s.found + fs)
    case _ => (e.NotifyOne? || e.NotifyNobody? || e.NotifyAll?) && s' == s.(files := s'.files)
  }

  predicate MainStep(c: Setup, s: State, m: Move, s': State)
    requires MainThread(c) < |s.files.pcs| && MainThread(c) < |s.matches.pcs|
  {
    var t := MainThread(c);
    match s.main
    case Globbing =>
      m.OnFiles? &&
      (if m.e == Close then
         GlobbersBack(c, s) && Step(s.files, t, m.e, s'.files) && s' == s.(files := s'.files, main := JoiningScanners)
       else GlobStep(c, s, t, m.e, s'))
    case JoiningScanners =>
      if m.OnFiles? then m.e == NotifyAll && Step(s.files, t, m.e, s'.files) && s' == s.(files := s'.files)
      else
        m == OnMatches(Close) && s.files.pcs[t] == Running &&
        (forall i :: 0 <= i < |s.scanners| ==> s.scanners[i] == Left) &&
        Step(s.matches, t, m.m, s'.matches) && s' == s.(matches := s'.matches, main := JoiningOutput)
    case JoiningOutput =>
      (m == OnMatches(NotifyAll) && Step(s.matches, t, m.m, s'.matches) && s' == s.(matches := s'.matches))
      || (m == Local && s.matches.pcs[t] == Running && s.output == Gone &&
          s' == s.(main := Exit(if s.total == 0 then 1 else 0)))
    case Exit(_) => false
  }

  predicate Next(c: Setup, s: State, t: nat, m: Move, s': State) {
    && |s.scanners| == c.scanners && |s.files.pcs| == Threads(c) && |s.matches.pcs| == Threads(c)
    && if t < c.scanners then ScannerStep(c, s, t, m, s')
       else if t == OutputThread(c) then OutputStep(c, s, m, s')
       else if t == MainThread(c) then MainStep(c, s, m, s')
       else t < Threads(c) && m.OnFiles? && GlobStep(c, s, t, m.e, s')
  }

  // ---------------------------------------------------------------- phases

  predicate ScannerFits(w: Scanner, onFiles: Pc, onMatches: Pc) {
    match w
    case Pulling(_) =>
      (onMatches == Running && (onFiles == Running || onFiles == Asleep || onFiles == Woken))
      || (onMatches == OwesOne && onFiles == Running)
    case _ => onMatches == Running && onFiles == Running
  }

  predicate OutputFits(o: Output, pc: Pc) {
    match o
    case Draining => pc == Running || pc == Asleep || pc == Woken
    case _ => pc == Running
  }

  predicate MainFits(m: Main, onFiles: Pc, onMatches: Pc) {
    match m
    case Globbing => onMatches == Running && (onFiles == Running || onFiles == OwesOne || onFiles == OwesAll)
    case JoiningScanners => onMatches == Running && (onFiles == Running || onFiles == OwesAll)
    case JoiningOutput => onFiles == Running && (onMatches == Running || onMatches == OwesAll)
    case Exit(_) => onFiles == Running && onMatches == Running
  }

  predicate GlobberFits(m: Main, onFiles: Pc, onMatches: Pc) {
    onMatches == Running && (onFiles == Running || (m == Globbing && (onFiles == OwesOne || onFiles == OwesAll)))
  }

  predicate AfterScanners(m: Main) {
    m.JoiningOutput? || m.Exit?
  }

  ghost predicate Fits(c: Setup, s: State) {
    && |s.scanners| == c.scanners && |s.files.pcs| == Threads(c) && |s.matches.pcs| == Threads(c)
    && (forall i :: 0 <= i < c.scanners ==> ScannerFits(s.scanners[i], s.files.pcs[i], s.matches.pcs[i]))
    && OutputFits(s.output, s.matches.pcs[OutputThread(c)]) && s.files.pcs[OutputThread(c)] == Running
    && MainFits(s.main, s.files.pcs[MainThread(c)], s.matches.pcs[MainThread(c)])
    && (forall i :: MainThread(c) < i < Threads(c) ==> GlobberFits(s.main, s.files.pcs[i], s.matches.pcs[i]))
  }

  ghost predicate Phases(c: Setup, s: State) {
    && s.files.q.closed == !s.main.Globbing?
    && s.matches.q.closed == AfterScanners(s.main)
    && (AfterScanners(s.main) ==> forall i :: 0 <= i < |s.scanners| ==> s.scanners[i] == Left)
    && (s.output == Gone ==> s.matches.q.closed && s.matches.q.queue == [])
    && ((exists i :: 0 <= i < |s.scanners| && s.scanners[i] == Left) ==> s.files.q.closed && s.files.q.queue == [])
    && (s.main.Exit? ==> s.output == Gone && s.main.code == if s.total == 0 then 1 else 0)
  }

  ghost predicate Inv(c: Setup, s: State) {
    QueueProtocol.Inv(s.files) && QueueProtocol.Inv(s.matches) && Fits(c, s) && Phases(c, s)
  }

  lemma InitiallyInv(c: Setup, s: State)
    requires Initially(c, s)
    ensures Inv(c, s)
  {
    InitialInv(s.files);
    InitialInv(s.matches);
  }

  lemma ScannerKeepsFits(c: Setup, s: State, t: nat, m: Move, s': State)
    requires Fits(c, s) && t < c.scanners && ScannerStep(c, s, t, m, s')
    ensures Fits(c, s')
  {
    hide Step, MainFits, GlobberFits, OutputFits;
    if m.OnFiles? {
      StepMoves(s.files, t, m.e, s'.files);
    } else if m.OnMatches? {
      StepMoves(s.matches, t, m.m, s'.matches);
    }
    OthersFit(c, s, t, s');
  }

  /** Being woken agrees with whatever a thread is doing when it sleeps. */
  lemma OthersFit(c: Setup, s: State, t: nat, s': State)
    requires Fits(c, s) && s'.main == s.main && |s'.files.pcs| == |s'.matches.pcs| == Threads(c)
    requires |s'.scanners| == c.scanners
    requires forall i :: 0 <= i < Threads(c) && i != t ==> Undisturbed(s.files.pcs[i], s'.files.pcs[i])
    requires forall i :: 0 <= i < Threads(c) && i != t ==> Undisturbed(s.matches.pcs[i], s'.matches.pcs[i])
    requires forall i :: 0 <= i < c.scanners && i != t ==> s'.scanners[i] == s.scanners[i]
    requires t != OutputThread(c) ==> s'.output == s.output
    ensures forall i :: 0 <= i < c.scanners && i != t ==>
              ScannerFits(s'.scanners[i], s'.files.pcs[i], s'.matches.pcs[i])
    ensures t != OutputThread(c) ==>
              OutputFits(s'.output, s'.matches.pcs[OutputThread(c)]) && s'.files.pcs[OutputThread(c)] == Running
    ensures t != MainThread(c) ==> MainFits(s'.main, s'.files.pcs[MainThread(c)], s'.matches.pcs[MainThread(c)])
    ensures forall i :: MainThread(c) < i < Threads(c) && i != t ==>
              GlobberFits(s'.main, s'.files.pcs[i], s'.matches.pcs[i])
  {
    forall i | 0 <= i < c.scanners && i != t ensures ScannerFits(s'.scanners[i], s'.files.pcs[i], s'.matches.pcs[i]) {
      assert ScannerFits(s.scanners[i], s.files.pcs[i], s.matches.pcs[i]);
    }
    forall i | MainThread(c) < i < Threads(c) && i != t
      ensures GlobberFits(s'.main, s'.files.pcs[i], s'.matches.pcs[i])
    {
      assert GlobberFits(s.main, s.files.pcs[i], s.matches.pcs[i]);
    }
  }

  lemma OutputKeepsFits(c: Setup, s: State, m: Move, s': State)
    requires Fits(c, s) && OutputStep(c, s, m, s')
    ensures Fits(c, s')
  {
    hide Step;
    if m.OnMatches? {
      StepMoves(s.matches, OutputThread(c), m.m, s'.matches);
    }
  }

  /** Main goes on in its phase. */
  lemma MainStaysFit(c: Setup, s: State, m: Move, s': State)
    requires Fits(c, s) && MainStep(c, s, m, s') && s'.main == s.main
    ensures Fits(c, s')
  {
    hide Step, ScannerFits, GlobberFits, OutputFits;
    if m.OnFiles? {
      StepMoves(s.files, MainThread(c), m.e, s'.files);
    } else if m.OnMatches? {
      StepMoves(s.matches, MainThread(c), m.m, s'.matches);
    }
    OthersFit(c, s, MainThread(c), s');
  }

  /** The other threads fit main's next phase once the globbers are back. */
  lemma OthersFitNextPhase(c: Setup, s: State, s': State)
    requires Fits(c, s) && GlobbersBack(c, s) && |s'.files.pcs| == |s'.matches.pcs| == Threads(c)
    requires s'.scanners == s.scanners && s'.output == s.output
    requires forall i :: 0 <= i < Threads(c) && i != MainThread(c) ==> Undisturbed(s.files.pcs[i], s'.files.pcs[i])
    requires forall i :: 0 <= i < Threads(c) && i != MainThread(c) ==> Undisturbed(s.matches.pcs[i], s'.matches.pcs[i])
    ensures forall i :: 0 <= i < c.scanners ==> ScannerFits(s'.scanners[i], s'.files.pcs[i], s'.matches.pcs[i])
    ensures OutputFits(s'.output, s'.matches.pcs[OutputThread(c)]) && s'.files.pcs[OutputThread(c)] == Running
    ensures forall i :: MainThread(c) < i < Threads(c) ==> GlobberFits(s'.main, s'.files.pcs[i], s'.matches.pcs[i])
  {
    OthersFit(c, s, MainThread(c), s'.(main := s.main));
    forall i | MainThread(c) < i < Threads(c) ensures GlobberFits(s'.main, s'.files.pcs[i], s'.matches.pcs[i]) {
      assert GlobberFits(s.main, s.files.pcs[i], s.matches.pcs[i]);
    }
  }

  lemma GlobbersAreBack(c: Setup, s: State)
    requires Fits(c, s) && !s.main.Globbing? && s.files.pcs[MainThread(c)] == Running
    ensures GlobbersBack(c, s)
  {
    forall i | MainThread(c) <= i < |s.files.pcs| ensures s.files.pcs[i] == Running {
      assert i > MainThread(c) ==> GlobberFits(s.main, s.files.pcs[i], s.matches.pcs[i]);
    }
  }

  /** Main goes on to its next phase. */
  lemma MainMovesFit(c: Setup, s: State, m: Move, s': State)
    requires Fits(c, s) && MainStep(c, s, m, s') && s'.main != s.main
    ensures Fits(c, s')
  {
    hide Step, ScannerFits, GlobberFits, OutputFits;
    if m.OnFiles? {
      StepMoves(s.files, MainThread(c), m.e, s'.files);
    } else {
      GlobbersAreBack(c, s);
      if m.OnMatches? {
        StepMoves(s.matches, MainThread(c), m.m, s'.matches);
      }
    }
    OthersFitNextPhase(c, s, s');
  }

  lemma MainKeepsFits(c: Setup, s: State, m: Move, s': State)
    requires Fits(c, s) && MainStep(c, s, m, s')
    ensures Fits(c, s')
  {
    hide MainStep, Fits;
    if s'.main == s.main {
      MainStaysFit(c, s, m, s');
    } else {
      MainMovesFit(c, s, m, s');
    }
  }

  lemma GlobberKeepsFits(c: Setup, s: State, t: nat, e: Event<File>, s': State)
    requires Fits(c, s) && MainThread(c) < t < Threads(c) && GlobStep(c, s, t, e, s')
    ensures Fits(c, s')
  {
    hide Step;
    StepMoves(s.files, t, e, s'.files);
  }

  lemma NextKeepsFits(c: Setup, s: State, t: nat, m: Move, s': State)
    requires Fits(c, s) && Next(c, s, t, m, s')
    ensures Fits(c, s')
  {
    hide Fits, ScannerStep, OutputStep, MainStep, GlobStep;
    if t < c.scanners {
      ScannerKeepsFits(c, s, t, m, s');
    } else if t == OutputThread(c) {
      OutputKeepsFits(c, s, m, s');
    } else if t == MainThread(c) {
      MainKeepsFits(c, s, m, s');
    } else {
      GlobberKeepsFits(c, s, t, m.e, s');
    }
  }

  lemma NextKeepsPhases(c: Setup, s: State, t: nat, m: Move, s': State)
    requires Fits(c, s) && Phases(c, s) && Next(c, s, t, m, s')
    ensures Phases(c, s')
  {
    hide Step;
    if m.OnFiles? {
      StepGuards(s.files, t, m.e, s'.files);
    } else if m.OnMatches? {
      StepGuards(s.matches, t, m.m, s'.matches);
    }
  }

  lemma NextKeepsInv(c: Setup, s: State, t: nat, m: Move, s': State)
    requires Inv(c, s) && Next(c, s, t, m, s')
    ensures Inv(c, s')
  {
    NextUsesQueues(c, s, t, m, s');
    hide Next, Fits, Phases, QueueProtocol.Inv, Step;
    NextKeepsFits(c, s, t, m, s');
    NextKeepsPhases(c, s, t, m, s');
    if m.OnFiles? {
      StepKeepsInv(s.files, t, m.e, s'.files);
    } else if m.OnMatches? {
      StepKeepsInv(s.matches, t, m.m, s'.matches);
    }
  }

  /** Every step is a step of at most one of the two queues. */
  lemma NextUsesQueues(c: Setup, s: State, t: nat, m: Move, s': State)
    requires Next(c, s, t, m, s')
    ensures if m.OnFiles? then Step(s.files, t, m.e, s'.files) else s'.files == s.files
    ensures if m.OnMatches? then Step(s.matches, t, m.m, s'.matches) else s'.matches == s.matches
  {
    hide Step;
  }
}
