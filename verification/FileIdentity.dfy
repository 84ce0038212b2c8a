/**
  * Lazily cached file identity: any number of threads call the getters of FileIDs that share their
  * parents. A getter checks its bit, locks, checks again, fills the cache and publishes the bits.
  */
module FileIdentity {
  import opened Bytes

  type Text = seq<Byte>

  const SLASH: Byte := 47
  const PERIOD: Byte := 46

  datatype Bit = FileDesc | Uuid | StatInfo | FileKind | Path

  /** A unique file identifier. */
  datatype Id = Id(dev: int, ino: nat)

  /**
    * What is fixed at construction. The path given is empty unless it is known then; an identifier given
    * counts if its bit is set. onDisk is the identifier that a stat call finds.
    */
  datatype Origin = Origin(parent: Option<nat>, basename: Text, given: Text, bits: set<Bit>, id: Id, onDisk: Id)

  /** The fields that the mutex guards, and the atomic bits; loads counts calls of LazyLoadStatInfo. */
  datatype File = File(bits: set<Bit>, path: Text, id: Id, loads: nat, owner: Option<nat>)

  datatype Stage =
    | Entering                      // the first, unlocked check
    | Locking
    | Checking                      // the second check, under the lock
    | Filling
    | Joining                       // waiting for the parent's path
    | Publishing(found: set<Bit>)
    | Unlocking(served: bool)       // served: the bit is set; otherwise open() has thrown
    | Returning(served: bool)

  /** A getter at work: GetPath() of a parent is called from within its child's. */
  datatype Frame = Frame(file: nat, bit: Bit, stage: Stage)

  /** A thread is a stack of getters, the innermost last. ended: std::terminate() has been called. */
  datatype State = State(files: seq<File>, threads: seq<seq<Frame>>, ended: bool)

  datatype Action = Call(file: nat, bit: Bit) | Advance | OpenFails

  /** Parents come first; the root has its path and bits from the start. */
  ghost predicate WellFormed(c: seq<Origin>) {
    forall f :: 0 <= f < |c| ==>
      match c[f].parent
      case Some(p) => p < f && (Path in c[f].bits ==> c[f].given != []) && FileDesc !in c[f].bits
      case None => c[f].given != [] && Path in c[f].bits && FileDesc in c[f].bits
  }

  /** A path below the current directory carries no "./". */
  function Join(at: Text, basename: Text): Text {
    if at == [PERIOD] then basename else at + [SLASH] + basename
  }

  /** The path of a FileID as a function of its parents alone. */
  ghost function FullPath(c: seq<Origin>, f: nat): Text
    requires WellFormed(c) && f < |c|
  {
    if c[f].given != [] || c[f].parent.None? then c[f].given
    else Join(FullPath(c, c[f].parent.value), c[f].basename)
  }

  const STAT_BITS: set<Bit> := {Uuid, StatInfo, FileKind}

  // ---------------------------------------------------------------- steps

  function Top(stack: seq<Frame>): Frame
    requires stack != []
  {
    stack[|stack| - 1]
  }

  function AtStage(stack: seq<Frame>, stage: Stage): seq<Frame>
    requires stack != []
  {
    stack[|stack| - 1 := Top(stack).(stage := stage)]
  }

  /** The state with thread t's innermost getter at another stage and its file changed. */
  function To(s: State, t: nat, stage: Stage, file: File): State
    requires t < |s.threads| && s.threads[t] != [] && Top(s.threads[t]).file < |s.files|
  {
    s.(files := s.files[Top(s.threads[t]).file := file], threads := s.threads[t := AtStage(s.threads[t], stage)])
  }

  /** What filling the cache sets, once the path is there. */
  function Filled(bit: Bit): set<Bit> {
    if bit == Path then {Path} else {FileDesc, Path}
  }

  /** The innermost getter waits for its parent's GetPath(). */
  function Nested(c: seq<Origin>, stack: seq<Frame>): seq<Frame>
    requires stack != [] && Top(stack).file < |c| && c[Top(stack).file].parent.Some?
  {
    AtStage(stack, Joining) + [Frame(c[Top(stack).file].parent.value, Path, Entering)]
  }

  /** Thread t's innermost getter moves on. */
  predicate Advances(c: seq<Origin>, s: State, t: nat, s': State)
    requires t < |s.threads| && s.threads[t] != [] && |s.files| == |c|
  {
    var Frame(f, bit, stage) := Top(s.threads[t]);
    f < |c| &&
    var file := s.files[f];
    match stage
    case Entering => s' == To(s, t, if bit in file.bits then Returning(true) else Locking, file)
    case Locking => file.owner == None && s' == To(s, t, Checking, file.(owner := Some(t)))
    case Checking => s' == To(s, t, if bit in file.bits then Unlocking(true) else Filling, file)
    case Filling =>
      if bit in STAT_BITS then
        // Without a parent the stat call throws, and its getter is noexcept.
        if c[f].parent.None? then s' == s.(ended := true)
        else s' == To(s, t, Publishing(STAT_BITS), file.(loads := file.loads + 1, id := c[f].onDisk))
      else if file.path != [] || c[f].parent.None? then s' == To(s, t, Publishing(Filled(bit)), file)
      else s' == s.(threads := s.threads[t := Nested(c, s.threads[t])])
    case Joining =>
      c[f].parent.Some? && c[f].parent.value < |c| &&
      s' == To(s, t, Publishing(Filled(bit)), file.(path := Join(s.files[c[f].parent.value].path, c[f].basename)))
    case Publishing(found) => s' == To(s, t, Unlocking(true), file.(bits := file.bits + found))
    case Unlocking(served) => s' == To(s, t, Returning(served), file.(owner := None))
    case Returning(_) => s' == s.(threads := s.threads[t := s.threads[t][..|s.threads[t]| - 1]])
  }

  predicate Step(c: seq<Origin>, s: State, t: nat, a: Action, s': State) {
    !s.ended && t < |s.threads| && |s.files| == |c| &&
    match a
    case Call(f, bit) => s.threads[t] == [] && f < |c| && s' == s.(threads := s.threads[t := [Frame(f, bit, Entering)]])
    case Advance => s.threads[t] != [] && Advances(c, s, t, s')
    case OpenFails =>
      s.threads[t] != [] && Top(s.threads[t]).file < |c| && Top(s.threads[t]).bit == FileDesc &&
      Top(s.threads[t]).stage.Publishing? &&
      s' == To(s, t, Unlocking(false), s.files[Top(s.threads[t]).file])
  }

  ghost predicate Initially(c: seq<Origin>, s: State) {
    && |s.files| == |c| && !s.ended
    && (forall f :: 0 <= f < |c| ==> s.files[f] == File(c[f].bits, c[f].given, c[f].id, 0, None))
    && forall t :: 0 <= t < |s.threads| ==> s.threads[t] == []
  }

  // ---------------------------------------------------------------- the invariant

  predicate HoldsLock(stage: Stage) {
    stage == Checking || stage == Filling || stage == Joining || stage.Publishing? || stage.Unlocking?
  }

  /** A cached path is the pure one; a published one is there; what construction set stays. */
  ghost predicate FileOk(c: seq<Origin>, file: File, f: nat)
    requires WellFormed(c) && f < |c|
  {
    && (file.path == [] || file.path == FullPath(c, f))
    && (Path in file.bits || c[f].parent.None? || c[f].given != [] ==> file.path == FullPath(c, f))
    && c[f].bits <= file.bits
    && (FileDesc in file.bits ==> Path in file.bits)
    && file.loads <= 1
    && file.id == (if file.loads == 0 then c[f].id else c[f].onDisk)
    && (file.loads == 0 ==> (Uuid in file.bits ==> Uuid in c[f].bits))
    && (file.loads == 1 ==> c[f].parent.Some? && !(STAT_BITS <= c[f].bits))
  }

  ghost predicate FrameOk(c: seq<Origin>, file: File, fr: Frame)
    requires WellFormed(c)
  {
    && fr.file < |c|
    && match fr.stage
       case Filling => fr.bit !in file.bits && (fr.bit in STAT_BITS ==> file.loads == 0)
       case Joining => fr.bit !in STAT_BITS && c[fr.file].parent.Some? && c[fr.file].given == []
       case Publishing(found) =>
         fr.bit in found && found == (if fr.bit in STAT_BITS then STAT_BITS else Filled(fr.bit))
         && (Path in found ==> file.path == FullPath(c, fr.file))
         && (found == STAT_BITS ==> file.loads == 1)
       case Unlocking(served) => (served ==> fr.bit in file.bits) && (fr.bit != FileDesc ==> served)
       case Returning(served) => (served ==> fr.bit in file.bits) && (fr.bit != FileDesc ==> served)
       case _ => true
  }

  /** A stack climbs from a file to its ancestors, each getter waiting for the next. */
  ghost predicate Climbs(c: seq<Origin>, stack: seq<Frame>) {
    && (forall i :: 0 <= i < |stack| ==> stack[i].file < |c|)
    && (forall i, k :: 0 <= i < k < |stack| ==> stack[k].file < stack[i].file && stack[i].stage == Joining)
    && (forall i :: 0 < i < |stack| ==> stack[i].bit == Path && c[stack[i - 1].file].parent == Some(stack[i].file))
  }

  /** Every getter's own facts hold, and the innermost joins only once the parent's path is there. */
  ghost predicate FramesOk(c: seq<Origin>, files: seq<File>, stack: seq<Frame>)
    requires WellFormed(c) && |files| == |c| && Climbs(c, stack)
  {
    && (forall i :: 0 <= i < |stack| ==> FrameOk(c, files[stack[i].file], stack[i]))
    && (stack != [] && Top(stack).stage == Joining ==> Path in files[c[Top(stack).file].parent.value].bits)
  }

  ghost predicate StackOk(c: seq<Origin>, s: State, t: nat)
    requires WellFormed(c) && |s.files| == |c| && t < |s.threads|
  {
    Climbs(c, s.threads[t]) && FramesOk(c, s.files, s.threads[t])
  }

  predicate Holding(s: State, t: nat, i: nat, f: nat)
    requires t < |s.threads| && i < |s.threads[t]|
  {
    s.threads[t][i].file == f && HoldsLock(s.threads[t][i].stage)
  }

  /** A file's mutex belongs to the thread that has a getter of that file past its lock. */
  ghost predicate LockOk(s: State, f: nat)
    requires f < |s.files|
  {
    && (forall t, i :: 0 <= t < |s.threads| && 0 <= i < |s.threads[t]| && Holding(s, t, i, f) ==>
          s.files[f].owner == Some(t))
    && (s.files[f].owner.Some? ==>
          s.files[f].owner.value < |s.threads| &&
          exists i :: 0 <= i < |s.threads[s.files[f].owner.value]| && Holding(s, s.files[f].owner.value, i, f))
  }

  /** The stat call has been made: its bits are published, or its thread is about to publish them. */
  ghost predicate LoadOk(s: State, f: nat)
    requires f < |s.files|
  {
    s.files[f].loads == 1 ==> STAT_BITS <= s.files[f].bits || exists t :: 0 <= t < |s.threads| && LoadUnderWay(s, t, f)
  }

  predicate LoadUnderWay(s: State, t: nat, f: nat)
    requires t < |s.threads|
  {
    s.threads[t] != [] && Top(s.threads[t]).file == f && Top(s.threads[t]).stage == Publishing(STAT_BITS)
  }

  ghost predicate Inv(c: seq<Origin>, s: State) {
    && WellFormed(c) && |s.files| == |c|
    && (forall f :: 0 <= f < |c| ==> FileOk(c, s.files[f], f) && LockOk(s, f) && LoadOk(s, f))
    && (forall t :: 0 <= t < |s.threads| ==> StackOk(c, s, t))
  }

  /** What one thread does to one file leaves the rest of every invariant alone. */
  ghost predicate Harmless(c: seq<Origin>, before: File, after: File, f: nat)
    requires WellFormed(c) && f < |c|
  {
    && before.bits <= after.bits
    && (after.path == before.path || after.path == FullPath(c, f))
    && before.loads <= after.loads
  }

  /** A frame that does not own the lock keeps its facts whatever the owner does. */
  lemma FrameStaysOk(c: seq<Origin>, before: File, after: File, fr: Frame)
    requires WellFormed(c) && fr.file < |c| && FrameOk(c, before, fr) && Harmless(c, before, after, fr.file)
    requires !HoldsLock(fr.stage) || (after.bits == before.bits && after.loads == before.loads)
    ensures FrameOk(c, after, fr)
  {
  }

  lemma OtherStackStaysOk(c: seq<Origin>, s: State, s': State, t: nat, f: nat, u: nat)
    requires Inv(c, s) && |s'.files| == |c| && f < |c| && |s'.threads| == |s.threads| && t < |s.threads|
    requires u < |s.threads| && u != t
    requires s'.threads[u] == s.threads[u]
    requires s'.files == s.files[f := s'.files[f]] && Harmless(c, s.files[f], s'.files[f], f)
    requires s.files[f].owner == Some(t)
             || (s'.files[f].bits == s.files[f].bits && s'.files[f].loads == s.files[f].loads)
    ensures StackOk(c, s', u)
  {
    assert StackOk(c, s, u);
    assert LockOk(s, f);
    var stack := s.threads[u];
    forall i | 0 <= i < |stack| ensures FrameOk(c, s'.files[stack[i].file], stack[i]) {
      if stack[i].file == f {
        assert HoldsLock(stack[i].stage) ==> Holding(s, u, i, f);
        FrameStaysOk(c, s.files[f], s'.files[f], stack[i]);
      }
    }
  }

  // ---------------------------------------------------------------- a getter changes stage

  /** Thread t's innermost getter goes to a stage, changing its file in a way its lock allows. */
  ghost predicate Allowed(c: seq<Origin>, s: State, t: nat, stage: Stage, file: File)
    requires Inv(c, s) && t < |s.threads| && s.threads[t] != []
  {
    var fr := Top(s.threads[t]);
    fr.file < |c| &&
    var before := s.files[fr.file];
    && FileOk(c, file, fr.file) && Harmless(c, before, file, fr.file)
    && FrameOk(c, file, fr.(stage := stage)) && stage != Joining && !(fr.stage.Publishing? && stage.Publishing?)
    && (if HoldsLock(fr.stage) then file.owner == (if HoldsLock(stage) then Some(t) else None)
        else file.bits == before.bits && file.loads == before.loads &&
             (if HoldsLock(stage) then before.owner == None && file.owner == Some(t) else file.owner == before.owner))
    && (file.loads == 1 ==>
          STAT_BITS <= file.bits || stage == Publishing(STAT_BITS) || (before.loads == 1 && !fr.stage.Publishing?))
  }

  lemma ToKeepsStacks(c: seq<Origin>, s: State, t: nat, stage: Stage, file: File)
    requires Inv(c, s) && t < |s.threads| && s.threads[t] != [] && Allowed(c, s, t, stage, file)
    ensures forall u :: 0 <= u < |s.threads| ==> StackOk(c, To(s, t, stage, file), u)
  {
    var s', f := To(s, t, stage, file), Top(s.threads[t]).file;
    assert StackOk(c, s, t);
    assert LockOk(s, f);
    assert HoldsLock(Top(s.threads[t]).stage) ==> Holding(s, t, |s.threads[t]| - 1, f);
    forall u | 0 <= u < |s.threads| ensures StackOk(c, s', u) {
      if u != t {
        OtherStackStaysOk(c, s, s', t, f, u);
      }
    }
  }

  lemma ToKeepsLocks(c: seq<Origin>, s: State, t: nat, stage: Stage, file: File, g: nat)
    requires Inv(c, s) && t < |s.threads| && s.threads[t] != [] && Allowed(c, s, t, stage, file) && g < |c|
    ensures LockOk(To(s, t, stage, file), g)
  {
    hide FileOk, FrameOk, Harmless, LoadOk;
    var s', f, top := To(s, t, stage, file), Top(s.threads[t]).file, |s.threads[t]| - 1;
    assert StackOk(c, s, t) && LockOk(s, g);
    assert forall u, i :: 0 <= u < |s.threads| && 0 <= i < |s.threads[u]| && (u != t || i != top) ==>
             Holding(s', u, i, g) == Holding(s, u, i, g);
    if g == f {
      assert forall i :: 0 <= i < top ==> !Holding(s, t, i, f);
      assert HoldsLock(stage) ==> Holding(s', t, top, f);
      assert HoldsLock(Top(s.threads[t]).stage) ==> Holding(s, t, top, f);
    } else {
      assert !Holding(s, t, top, g) && !Holding(s', t, top, g);
    }
  }

  lemma ToKeepsLoads(c: seq<Origin>, s: State, t: nat, stage: Stage, file: File, g: nat)
    requires Inv(c, s) && t < |s.threads| && s.threads[t] != [] && Allowed(c, s, t, stage, file) && g < |c|
    ensures LoadOk(To(s, t, stage, file), g)
  {
    hide FileOk, FrameOk, StackOk, LockOk;
    var s', f := To(s, t, stage, file), Top(s.threads[t]).file;
    assert LoadOk(s, g);
    if s'.files[g].loads == 1 && !(STAT_BITS <= s'.files[g].bits) {
      if stage == Publishing(STAT_BITS) && g == f {
        assert LoadUnderWay(s', t, f);
      } else {
        var u :| 0 <= u < |s.threads| && LoadUnderWay(s, u, g);
        assert u != t;
        assert LoadUnderWay(s', u, g);
      }
    }
  }

  lemma ToKeepsInv(c: seq<Origin>, s: State, t: nat, stage: Stage, file: File)
    requires Inv(c, s) && t < |s.threads| && s.threads[t] != [] && Allowed(c, s, t, stage, file)
    ensures Inv(c, To(s, t, stage, file))
  {
    hide FrameOk, StackOk, LockOk, LoadOk, Harmless;
    ToKeepsStacks(c, s, t, stage, file);
    forall g | 0 <= g < |c| ensures LockOk(To(s, t, stage, file), g) && LoadOk(To(s, t, stage, file), g) {
      ToKeepsLocks(c, s, t, stage, file, g);
      ToKeepsLoads(c, s, t, stage, file, g);
    }
  }

  /** Whoever holds a file's lock, and is not publishing a stat call, finds any stat call published. */
  lemma LoadedMeansPublished(c: seq<Origin>, s: State, t: nat)
    requires Inv(c, s) && t < |s.threads| && s.threads[t] != []
    requires HoldsLock(Top(s.threads[t]).stage) && Top(s.threads[t]).stage != Publishing(STAT_BITS)
    ensures Top(s.threads[t]).file < |c|
    ensures var file := s.files[Top(s.threads[t]).file]; file.loads == 0 || (file.loads == 1 && STAT_BITS <= file.bits)
  {
    var f, top := Top(s.threads[t]).file, |s.threads[t]| - 1;
    assert StackOk(c, s, t);
    assert FileOk(c, s.files[f], f) && LockOk(s, f) && LoadOk(s, f);
    assert Holding(s, t, top, f);
    forall u | 0 <= u < |s.threads| && u != t ensures !LoadUnderWay(s, u, f) {
      if s.threads[u] != [] {
        assert !Holding(s, u, |s.threads[u]| - 1, f);
      }
    }
  }

  lemma ThreadIsOk(c: seq<Origin>, s: State, t: nat)
    requires Inv(c, s) && t < |s.threads|
    ensures WellFormed(c) && |s.files| == |c| && StackOk(c, s, t)
  {
  }

  /** What the invariant says of a thread's innermost getter and its file. */
  lemma TopIsOk(c: seq<Origin>, s: State, t: nat)
    requires Inv(c, s) && t < |s.threads| && s.threads[t] != []
    ensures |s.files| == |c| && Top(s.threads[t]).file < |c|
    ensures var fr := Top(s.threads[t]); var file := s.files[fr.file];
            && WellFormed(c) && FrameOk(c, file, fr) && FileOk(c, file, fr.file)
            && (HoldsLock(fr.stage) ==> file.owner == Some(t))
            && (fr.stage == Joining ==>
                  var p := c[fr.file].parent.value;
                  p < |c| && Path in s.files[p].bits && s.files[p].path == FullPath(c, p))
  {
    var fr := Top(s.threads[t]);
    ThreadIsOk(c, s, t);
    FileIsOk(c, s, fr.file);
    if HoldsLock(fr.stage) {
      assert Holding(s, t, |s.threads[t]| - 1, fr.file);
    }
    if fr.stage == Joining {
      FileIsOk(c, s, c[fr.file].parent.value);
    }
  }

  lemma FileIsOk(c: seq<Origin>, s: State, f: nat)
    requires Inv(c, s) && f < |c|
    ensures WellFormed(c) && |s.files| == |c| && FileOk(c, s.files[f], f) && LockOk(s, f) && LoadOk(s, f)
  {
  }

  lemma FullPathOfChild(c: seq<Origin>, f: nat)
    requires WellFormed(c) && f < |c| && c[f].parent.Some? && c[f].given == []
    ensures FullPath(c, f) == Join(FullPath(c, c[f].parent.value), c[f].basename)
  {
  }

  /** Every step that leaves a getter where it is in its stack keeps the invariant. */
  lemma StageKeepsInv(c: seq<Origin>, s: State, t: nat, s': State)
    requires Inv(c, s) && t < |s.threads| && s.threads[t] != [] && Advances(c, s, t, s')
    requires !Top(s.threads[t]).stage.Returning? && |s'.threads[t]| == |s.threads[t]| && !s'.ended && !s.ended
    ensures Inv(c, s')
  {
    hide Inv, StackOk, LockOk, LoadOk;
    var fr := Top(s.threads[t]);
    TopIsOk(c, s, t);
    var file := s.files[fr.file];
    if HoldsLock(fr.stage) && fr.stage != Publishing(STAT_BITS) {
      LoadedMeansPublished(c, s, t);
    }
    match fr.stage
    case Entering => ToKeepsInv(c, s, t, if fr.bit in file.bits then Returning(true) else Locking, file);
    case Locking => ToKeepsInv(c, s, t, Checking, file.(owner := Some(t)));
    case Checking => ToKeepsInv(c, s, t, if fr.bit in file.bits then Unlocking(true) else Filling, file);
    case Filling =>
      if fr.bit in STAT_BITS {
        ToKeepsInv(c, s, t, Publishing(STAT_BITS), file.(loads := file.loads + 1, id := c[fr.file].onDisk));
      } else {
        ToKeepsInv(c, s, t, Publishing(Filled(fr.bit)), file);
      }
    case Joining =>
      FullPathOfChild(c, fr.file);
      var path := Join(s.files[c[fr.file].parent.value].path, c[fr.file].basename);
      ToKeepsInv(c, s, t, Publishing(Filled(fr.bit)), file.(path := path));
    case Publishing(found) => ToKeepsInv(c, s, t, Unlocking(true), file.(bits := file.bits + found));
    case Unlocking(served) => ToKeepsInv(c, s, t, Returning(served), file.(owner := None));
  }

  // ---------------------------------------------------------------- getters begin, nest and return

  /** Files, locks and loads are untouched when only a getter without a lock comes or goes. */
  lemma RestackKeepsLocks(c: seq<Origin>, s: State, t: nat, stack: seq<Frame>, g: nat)
    requires Inv(c, s) && t < |s.threads| && g < |c|
    requires forall i :: 0 <= i < |stack| && HoldsLock(stack[i].stage) ==>
               i < |s.threads[t]| && stack[i].file == s.threads[t][i].file && HoldsLock(s.threads[t][i].stage)
    requires forall i :: 0 <= i < |s.threads[t]| && HoldsLock(s.threads[t][i].stage) ==>
               i < |stack| && HoldsLock(stack[i].stage)
    requires s.threads[t] == [] || !Top(s.threads[t]).stage.Publishing?
    ensures LockOk(s.(threads := s.threads[t := stack]), g) && LoadOk(s.(threads := s.threads[t := stack]), g)
  {
    hide FileOk, StackOk;
    var s' := s.(threads := s.threads[t := stack]);
    assert LockOk(s, g) && LoadOk(s, g);
    forall u, i | 0 <= u < |s'.threads| && 0 <= i < |s'.threads[u]| && Holding(s', u, i, g)
      ensures s'.files[g].owner == Some(u)
    {
      assert Holding(s, u, i, g);
    }
    if s.files[g].owner.Some? {
      var u := s.files[g].owner.value;
      var i :| 0 <= i < |s.threads[u]| && Holding(s, u, i, g);
      assert Holding(s', u, i, g);
    }
    if s.files[g].loads == 1 && !(STAT_BITS <= s.files[g].bits) {
      var u :| 0 <= u < |s.threads| && LoadUnderWay(s, u, g);
      assert LoadUnderWay(s', u, g);
    }
  }

  lemma RestackKeepsInv(c: seq<Origin>, s: State, t: nat, stack: seq<Frame>)
    requires Inv(c, s) && t < |s.threads|
    requires forall i :: 0 <= i < |stack| && HoldsLock(stack[i].stage) ==>
               i < |s.threads[t]| && stack[i].file == s.threads[t][i].file && HoldsLock(s.threads[t][i].stage)
    requires forall i :: 0 <= i < |s.threads[t]| && HoldsLock(s.threads[t][i].stage) ==>
               i < |stack| && HoldsLock(stack[i].stage)
    requires s.threads[t] == [] || !Top(s.threads[t]).stage.Publishing?
    requires StackOk(c, s.(threads := s.threads[t := stack]), t)
    ensures Inv(c, s.(threads := s.threads[t := stack]))
  {
    hide FileOk, LockOk, LoadOk, FrameOk;
    var s' := s.(threads := s.threads[t := stack]);
    forall g | 0 <= g < |c| ensures LockOk(s', g) && LoadOk(s', g) {
      RestackKeepsLocks(c, s, t, stack, g);
    }
    forall u | 0 <= u < |s'.threads| && u != t ensures StackOk(c, s', u) {
      assert StackOk(c, s, u);
    }
  }

  lemma NestKeepsInv(c: seq<Origin>, s: State, t: nat, s': State)
    requires Inv(c, s) && t < |s.threads| && s.threads[t] != [] && Advances(c, s, t, s')
    requires Top(s.threads[t]).stage == Filling && |s'.threads[t]| > |s.threads[t]|
    ensures Inv(c, s')
  {
    hide Inv, LockOk, LoadOk, StackOk, FrameOk;
    TopIsOk(c, s, t);
    NestedStackOk(c, s, t, s');
    RestackKeepsInv(c, s, t, Nested(c, s.threads[t]));
  }

  lemma NestedStackOk(c: seq<Origin>, s: State, t: nat, s': State)
    requires Inv(c, s) && t < |s.threads| && s.threads[t] != [] && Advances(c, s, t, s')
    requires Top(s.threads[t]).stage == Filling && |s'.threads[t]| > |s.threads[t]|
    ensures StackOk(c, s', t)
  {
    hide Inv, LockOk, LoadOk, FileOk, Climbs, FrameOk;
    TopIsOk(c, s, t);
    ThreadIsOk(c, s, t);
    var f := Top(s.threads[t]).file;
    TopWaits(c, s.files[f], Top(s.threads[t]));
    NestedClimbs(c, s.threads[t]);
    EnteringIsOk(c, s.files[c[f].parent.value], Frame(c[f].parent.value, Path, Entering));
    var newer := s'.threads[t];
    assert forall i :: 0 <= i < |s.threads[t]| - 1 ==> newer[i] == s.threads[t][i];
  }

  lemma TopWaits(c: seq<Origin>, file: File, fr: Frame)
    requires WellFormed(c) && FrameOk(c, file, fr) && FileOk(c, file, fr.file)
    requires fr.stage == Filling && fr.bit !in STAT_BITS && file.path == [] && c[fr.file].parent.Some?
    ensures FrameOk(c, file, fr.(stage := Joining)) && c[fr.file].parent.value < |c|
  {
  }

  lemma EnteringIsOk(c: seq<Origin>, file: File, fr: Frame)
    requires WellFormed(c) && fr.stage == Entering && fr.file < |c|
    ensures FrameOk(c, file, fr)
  {
  }

  lemma NestedClimbs(c: seq<Origin>, stack: seq<Frame>)
    requires WellFormed(c) && Climbs(c, stack) && stack != [] && Top(stack).file < |c|
    requires c[Top(stack).file].parent.Some?
    ensures Climbs(c, Nested(c, stack))
  {
    var newer := Nested(c, stack);
    assert forall i :: 0 <= i < |stack| ==> newer[i].file == stack[i].file && newer[i].bit == stack[i].bit;
  }

  lemma ReturnKeepsInv(c: seq<Origin>, s: State, t: nat, s': State)
    requires Inv(c, s) && t < |s.threads| && s.threads[t] != [] && Advances(c, s, t, s')
    requires Top(s.threads[t]).stage.Returning?
    ensures Inv(c, s')
  {
    hide Inv, LockOk, LoadOk, StackOk;
    ThreadIsOk(c, s, t);
    ReturnedStackOk(c, s, t, s');
    RestackKeepsInv(c, s, t, s.threads[t][..|s.threads[t]| - 1]);
  }

  lemma ReturnedStackOk(c: seq<Origin>, s: State, t: nat, s': State)
    requires WellFormed(c) && |s.files| == |c| && t < |s.threads| && StackOk(c, s, t) && s.threads[t] != []
    requires Top(s.threads[t]).stage.Returning?
    requires s' == s.(threads := s.threads[t := s.threads[t][..|s.threads[t]| - 1]])
    ensures StackOk(c, s', t)
  {
    hide FileOk, FullPath;
    var older := s.threads[t];
    ReturnedIsServed(c, s.files, older);
    if |older| > 1 {
      assert c[older[|older| - 2].file].parent == Some(Top(older).file);
    }
  }

  lemma ReturnedIsServed(c: seq<Origin>, files: seq<File>, stack: seq<Frame>)
    requires WellFormed(c) && |files| == |c| && Climbs(c, stack) && FramesOk(c, files, stack)
    requires |stack| > 0 && Top(stack).stage.Returning?
    ensures |stack| > 1 ==> Path in files[Top(stack).file].bits
  {
  }

  lemma StepKeepsInv(c: seq<Origin>, s: State, t: nat, a: Action, s': State)
    requires Inv(c, s) && Step(c, s, t, a, s')
    ensures Inv(c, s')
  {
    hide Inv, StackOk, LockOk, LoadOk;
    match a
    case Call(f, bit) =>
      CallIsOk(c, s, t, f, bit);
      RestackKeepsInv(c, s, t, [Frame(f, bit, Entering)]);
    case OpenFails =>
      TopIsOk(c, s, t);
      LoadedMeansPublished(c, s, t);
      ToKeepsInv(c, s, t, Unlocking(false), s.files[Top(s.threads[t]).file]);
    case Advance =>
      if s'.ended {
        EndKeepsInv(c, s, s');
      } else if Top(s.threads[t]).stage.Returning? {
        ReturnKeepsInv(c, s, t, s');
      } else if |s'.threads[t]| > |s.threads[t]| {
        NestKeepsInv(c, s, t, s');
      } else {
        StageKeepsInv(c, s, t, s');
      }
  }

  lemma EndKeepsInv(c: seq<Origin>, s: State, s': State)
    requires Inv(c, s) && s' == s.(ended := s'.ended)
    ensures Inv(c, s')
  {
    hide FileOk, FrameOk;
    forall f | 0 <= f < |c| ensures LockOk(s', f) && LoadOk(s', f) {
      assert LockOk(s, f) && LoadOk(s, f);
      assert forall t, i :: 0 <= t < |s.threads| && 0 <= i < |s.threads[t]| ==>
               Holding(s', t, i, f) == Holding(s, t, i, f);
      assert forall t :: 0 <= t < |s.threads| ==> LoadUnderWay(s', t, f) == LoadUnderWay(s, t, f);
    }
    forall t | 0 <= t < |s.threads| ensures StackOk(c, s', t) {
      assert StackOk(c, s, t);
    }
  }

  lemma CallIsOk(c: seq<Origin>, s: State, t: nat, f: nat, bit: Bit)
    requires Inv(c, s) && t < |s.threads| && f < |c|
    ensures WellFormed(c) && |s.files| == |c|
    ensures StackOk(c, s.(threads := s.threads[t := [Frame(f, bit, Entering)]]), t)
  {
  }

  lemma InitiallyInv(c: seq<Origin>, s: State)
    requires WellFormed(c) && Initially(c, s)
    ensures Inv(c, s)
  {
  }
}
