/** Lazily cached file identity over whole runs: what getters return, and that they return. */
module IdentityResults {
  import opened Bytes
  import opened FileIdentity

  // ---------------------------------------------------------------- over whole runs

  datatype Turn = Turn(thread: nat, action: Action)

  ghost predicate IsRun(c: seq<Origin>, states: seq<State>, turns: seq<Turn>) {
    && WellFormed(c) && |states| == |turns| + 1
    && Initially(c, states[0])
    && forall k :: 0 <= k < |turns| ==> Step(c, states[k], turns[k].thread, turns[k].action, states[k + 1])
  }

  lemma {:induction false} RunKeepsInv(c: seq<Origin>, states: seq<State>, turns: seq<Turn>, k: nat)
    requires IsRun(c, states, turns) && k < |states|
    ensures Inv(c, states[k])
  {
    hide Inv, Step, Initially;
    if k == 0 {
      InitiallyInv(c, states[0]);
    } else {
      RunKeepsInv(c, states, turns, k - 1);
      StepKeepsInv(c, states[k - 1], turns[k - 1].thread, turns[k - 1].action, states[k]);
    }
  }

  /** LazyLoadStatInfo runs at most once for each FileID, however many threads ask for however many of its values. */
  lemma StatCalledAtMostOnce(c: seq<Origin>, states: seq<State>, turns: seq<Turn>, k: nat, f: nat)
    requires IsRun(c, states, turns) && k < |states| && f < |c|
    ensures |states[k].files| == |c| && states[k].files[f].loads <= 1
  {
    RunKeepsInv(c, states, turns, k);
    assert FileOk(c, states[k].files[f], f);
  }

  lemma StepOnlyGrows(c: seq<Origin>, s: State, t: nat, a: Action, s': State, f: nat)
    requires Inv(c, s) && Step(c, s, t, a, s') && f < |c|
    ensures |s.files| == |s'.files| == |c|
    ensures s.files[f].bits <= s'.files[f].bits && s.files[f].loads <= s'.files[f].loads
  {
  }

  lemma RunSize(c: seq<Origin>, states: seq<State>, turns: seq<Turn>, k: nat)
    requires IsRun(c, states, turns) && k < |states|
    ensures |states[k].files| == |c|
  {
    RunKeepsInv(c, states, turns, k);
  }

  /** Valid bits are never taken back, nor are stat calls. */
  lemma {:induction false} BitsOnlyGrow(c: seq<Origin>, states: seq<State>, turns: seq<Turn>, k: nat, l: nat, f: nat)
    requires IsRun(c, states, turns) && k <= l < |states| && f < |c|
    ensures |states[k].files| == |c| == |states[l].files|
    ensures states[k].files[f].bits <= states[l].files[f].bits
    ensures states[k].files[f].loads <= states[l].files[f].loads
  {
    hide Inv, Step, Initially, WellFormed;
    RunSize(c, states, turns, l);
    if k < l {
      BitsOnlyGrow(c, states, turns, k, l - 1, f);
      RunKeepsInv(c, states, turns, l - 1);
      StepOnlyGrows(c, states[l - 1], turns[l - 1].thread, turns[l - 1].action, states[l], f);
    }
  }

  /** GetPath returns the pure path of its parent chain, in every interleaving and whatever was asked before. */
  lemma {:induction false} GetPathIsPure(c: seq<Origin>, states: seq<State>, turns: seq<Turn>, k: nat, t: nat)
    requires IsRun(c, states, turns) && k < |states| && t < |states[k].threads| && states[k].threads[t] != []
    requires Top(states[k].threads[t]).bit == Path && Top(states[k].threads[t]).stage.Returning?
    ensures var f := Top(states[k].threads[t]).file;
            f < |c| == |states[k].files| && states[k].files[f].path == FullPath(c, f)
  {
    RunKeepsInv(c, states, turns, k);
    TopIsOk(c, states[k], t);
  }

  /** In turn i, open() has failed for thread t's innermost getter, one of file f. */
  predicate OpenFailed(states: seq<State>, turns: seq<Turn>, i: nat, t: nat, f: nat) {
    i < |turns| && i < |states| && turns[i] == Turn(t, OpenFails) &&
    t < |states[i].threads| && states[i].threads[t] != [] && Top(states[i].threads[t]).file == f
  }

  predicate Unserved(fr: Frame) {
    fr.stage == Unlocking(false) || fr.stage == Returning(false)
  }

  /** How a step of its own thread can leave the innermost getter unserved. */
  lemma StepToUnserved(c: seq<Origin>, s: State, t: nat, a: Action, s': State)
    requires Inv(c, s) && Step(c, s, t, a, s') && s'.threads[t] != [] && Unserved(Top(s'.threads[t]))
    ensures s.threads[t] != [] && Top(s.threads[t]).file == Top(s'.threads[t]).file
    ensures a == OpenFails || Unserved(Top(s.threads[t]))
  {
    hide Inv, FileOk, FrameOk, FullPath, FramesOk;
    ThreadIsOk(c, s, t);
  }

  lemma StepOfOther(c: seq<Origin>, s: State, t: nat, a: Action, s': State, u: nat)
    requires Step(c, s, t, a, s') && u != t
    ensures |s'.threads| == |s.threads|
    ensures u < |s.threads| ==> s'.threads[u] == s.threads[u]
  {
  }

  lemma StepThreads(c: seq<Origin>, s: State, t: nat, a: Action, s': State)
    requires Step(c, s, t, a, s')
    ensures t < |s.threads| == |s'.threads|
  {
  }

  /** Only a failed open() leaves a getter unserved. */
  lemma {:induction false} UnservedMeansFailed(c: seq<Origin>, states: seq<State>, turns: seq<Turn>, k: nat, t: nat)
    requires IsRun(c, states, turns) && k < |states| && t < |states[k].threads| && states[k].threads[t] != []
    requires Unserved(Top(states[k].threads[t]))
    ensures exists i :: 0 <= i < k && OpenFailed(states, turns, i, t, Top(states[k].threads[t]).file)
  {
    hide Inv, Step, Unserved, WellFormed;
    if k > 0 {
      var s, u, a := states[k - 1], turns[k - 1].thread, turns[k - 1].action;
      RunKeepsInv(c, states, turns, k - 1);
      StepThreads(c, s, u, a, states[k]);
      if u == t {
        StepToUnserved(c, s, t, a, states[k]);
        if a == OpenFails {
          assert OpenFailed(states, turns, k - 1, t, Top(states[k].threads[t]).file);
        }
      } else {
        StepOfOther(c, s, u, a, states[k], t);
      }
      if u != t || a != OpenFails {
        UnservedMeansFailed(c, states, turns, k - 1, t);
      }
    }
  }

  /**
    * Any getter that returns has its value cached; only GetFileDescriptor() may not have, and then open() has
    * failed for that file in the same thread.
    */
  lemma GetterIsServed(c: seq<Origin>, states: seq<State>, turns: seq<Turn>, k: nat, t: nat)
    requires IsRun(c, states, turns) && k < |states| && t < |states[k].threads| && states[k].threads[t] != []
    requires Top(states[k].threads[t]).stage.Returning?
    ensures var fr := Top(states[k].threads[t]);
            && fr.file < |c| == |states[k].files|
            && (fr.bit in states[k].files[fr.file].bits
                || (fr.bit == FileDesc && exists i :: 0 <= i < k && OpenFailed(states, turns, i, t, fr.file)))
            && (FileDesc in states[k].files[fr.file].bits ==>
                  Path in states[k].files[fr.file].bits && states[k].files[fr.file].path == FullPath(c, fr.file))
  {
    hide Inv, Step, WellFormed;
    RunKeepsInv(c, states, turns, k);
    TopIsOk(c, states[k], t);
    FileIsOk(c, states[k], Top(states[k].threads[t]).file);
    if !Top(states[k].threads[t]).stage.served {
      UnservedMeansFailed(c, states, turns, k, t);
    }
  }

  // ---------------------------------------------------------------- identifiers over time

  /** Between two moments the identifier of f, once published, has not changed. */
  ghost predicate SameIdentifier(before: State, after: State, f: nat) {
    f < |before.files| && f < |after.files| &&
    (Uuid in before.files[f].bits ==> after.files[f].id == before.files[f].id)
  }

  /** In no run does GetUniqueFileIdentifier() give two values for f. */
  ghost predicate StableIdentifier(c: seq<Origin>, f: nat) {
    forall states: seq<State>, turns: seq<Turn>, k: nat, l: nat ::
      IsRun(c, states, turns) && k <= l < |states| ==> SameIdentifier(states[k], states[l], f)
  }

  /** A getter of one stat value on an otherwise idle program, up to and with its stat call. */
  lemma StatRun(c: seq<Origin>, f: nat, bit: Bit) returns (states: seq<State>, turns: seq<Turn>)
    requires WellFormed(c) && f < |c| && bit in STAT_BITS && bit !in c[f].bits
    ensures IsRun(c, states, turns) && |states| == 6 && f < |states[0].files| == |states[5].files|
    ensures states[0].files[f].id == c[f].id && states[0].files[f].bits == c[f].bits
    ensures if c[f].parent.None? then states[5].ended else states[5].files[f].id == c[f].onDisk
  {
    hide FullPath;
    var files := seq(|c|, g requires 0 <= g < |c| => File(c[g].bits, c[g].given, c[g].id, 0, None));
    var file := files[f];
    var s0 := State(files, [[]], false);
    var s1 := s0.(threads := [[Frame(f, bit, Entering)]]);
    var s2 := To(s1, 0, Locking, file);
    var s3 := To(s2, 0, Checking, file.(owner := Some(0)));
    var s4 := To(s3, 0, Filling, file.(owner := Some(0)));
    var s5 := if c[f].parent.None? then s4.(ended := true)
              else To(s4, 0, Publishing(STAT_BITS), file.(owner := Some(0), loads := 1, id := c[f].onDisk));
    var go := Turn(0, Advance);
    states, turns := [s0, s1, s2, s3, s4, s5], [Turn(0, Call(f, bit)), go, go, go, go];
    assert Step(c, s0, 0, Call(f, bit), s1) && Step(c, s1, 0, Advance, s2) && Step(c, s2, 0, Advance, s3);
    assert Step(c, s3, 0, Advance, s4) && Step(c, s4, 0, Advance, s5);
  }

  /**
    * An identifier given at construction is replaced when some other value makes a stat call later. A file's
    * identifier has one value over all runs, exactly if none was given, or all stat values were, or the file is
    * the root, or the one given is what stat finds.
    */
  lemma IdentifierIsStableIff(c: seq<Origin>, f: nat)
    requires WellFormed(c) && f < |c|
    ensures StableIdentifier(c, f) <==>
            Uuid !in c[f].bits || STAT_BITS <= c[f].bits || c[f].parent.None? || c[f].id == c[f].onDisk
  {
    hide Inv, Step, FullPath, Initially;
    if Uuid !in c[f].bits || STAT_BITS <= c[f].bits || c[f].parent.None? || c[f].id == c[f].onDisk {
      forall states: seq<State>, turns: seq<Turn>, k: nat, l: nat | IsRun(c, states, turns) && k <= l < |states|
        ensures SameIdentifier(states[k], states[l], f)
      {
        RunKeepsInv(c, states, turns, k);
        RunKeepsInv(c, states, turns, l);
        FileIsOk(c, states[k], f);
        FileIsOk(c, states[l], f);
        BitsOnlyGrow(c, states, turns, k, l, f);
      }
    } else {
      var bit :| bit in STAT_BITS && bit !in c[f].bits;
      var states, turns := StatRun(c, f, bit);
      assert !SameIdentifier(states[0], states[5], f);
    }
  }

  /** Some run ends in std::terminate(). */
  ghost predicate CanEnd(c: seq<Origin>) {
    exists states: seq<State>, turns: seq<Turn>, k: nat :: IsRun(c, states, turns) && k < |states| && states[k].ended
  }

  predicate RootWithoutStat(c: seq<Origin>, f: nat) {
    f < |c| && c[f].parent.None? && !(STAT_BITS <= c[f].bits)
  }

  lemma {:induction false} EndedAtRoot(c: seq<Origin>, states: seq<State>, turns: seq<Turn>, k: nat) returns (f: nat)
    requires IsRun(c, states, turns) && k < |states| && states[k].ended
    ensures RootWithoutStat(c, f)
  {
    hide Inv, FullPath;
    var s, t := states[k - 1], turns[k - 1].thread;
    assert Step(c, s, t, turns[k - 1].action, states[k]);
    RunKeepsInv(c, states, turns, k - 1);
    TopIsOk(c, s, t);
    f := Top(s.threads[t]).file;
  }

  /** A getter can end the program exactly if a root lacks one of the values that a stat call would fill. */
  lemma GettersEndTheProgramIff(c: seq<Origin>)
    requires WellFormed(c)
    ensures CanEnd(c) <==> exists f :: RootWithoutStat(c, f)
  {
    hide Inv, Step, FullPath, Initially;
    if CanEnd(c) {
      var states: seq<State>, turns: seq<Turn>, k: nat :| IsRun(c, states, turns) && k < |states| && states[k].ended;
      var f := EndedAtRoot(c, states, turns, k);
    }
    if f: nat :| RootWithoutStat(c, f) {
      var bit :| bit in STAT_BITS && bit !in c[f].bits;
      var states, turns := StatRun(c, f, bit);
    }
  }

  // ---------------------------------------------------------------- no deadlock

  /** From a blocked thread to the one that holds the lock, the files get older: so some thread is not blocked. */
  lemma {:induction false} SomeThreadRuns(c: seq<Origin>, s: State, t: nat) returns (u: nat)
    requires Inv(c, s) && t < |s.threads| && s.threads[t] != []
    ensures u < |s.threads| && s.threads[u] != [] && Top(s.threads[u]).file < |s.files|
    ensures Top(s.threads[u]).stage == Locking ==> s.files[Top(s.threads[u]).file].owner == None
    decreases Top(s.threads[t]).file
  {
    TopIsOk(c, s, t);
    var f := Top(s.threads[t]).file;
    if Top(s.threads[t]).stage == Locking && s.files[f].owner.Some? {
      assert LockOk(s, f);
      u := s.files[f].owner.value;
      var i :| 0 <= i < |s.threads[u]| && Holding(s, u, i, f);
      assert StackOk(c, s, u);
      TopIsOk(c, s, u);
      if Top(s.threads[u]).stage == Locking {
        u := SomeThreadRuns(c, s, u);
      }
    } else {
      u := t;
    }
  }

  /** While any getter is at work, some getter can move on: locking child before parent cannot deadlock. */
  lemma NeverDeadlocked(c: seq<Origin>, s: State, t: nat) returns (u: nat, s': State)
    requires Inv(c, s) && !s.ended && t < |s.threads| && s.threads[t] != []
    ensures Step(c, s, u, Advance, s')
  {
    u := SomeThreadRuns(c, s, t);
    TopIsOk(c, s, u);
    hide Inv, FileOk, FullPath;
    var Frame(f, bit, stage) := Top(s.threads[u]);
    var file := s.files[f];
    match stage
    case Entering => s' := To(s, u, if bit in file.bits then Returning(true) else Locking, file);
    case Locking => s' := To(s, u, Checking, file.(owner := Some(u)));
    case Checking => s' := To(s, u, if bit in file.bits then Unlocking(true) else Filling, file);
    case Filling =>
      if bit in STAT_BITS {
        s' := if c[f].parent.None? then s.(ended := true)
              else To(s, u, Publishing(STAT_BITS), file.(loads := file.loads + 1, id := c[f].onDisk));
      } else if file.path != [] || c[f].parent.None? {
        s' := To(s, u, Publishing(Filled(bit)), file);
      } else {
        s' := s.(threads := s.threads[u := Nested(c, s.threads[u])]);
      }
    case Joining =>
      s' := To(s, u, Publishing(Filled(bit)), file.(path := Join(s.files[c[f].parent.value].path, c[f].basename)));
    case Publishing(found) => s' := To(s, u, Unlocking(true), file.(bits := file.bits + found));
    case Unlocking(served) => s' := To(s, u, Returning(served), file.(owner := None));
    case Returning(_) => s' := s.(threads := s.threads[u := s.threads[u][..|s.threads[u]| - 1]]);
  }

  /** What a getter has yet to do; its parents' turn may still be to come. */
  function FrameWork(fr: Frame): nat {
    match fr.stage
    case Entering => 8 + 9 * fr.file
    case Locking => 7 + 9 * fr.file
    case Checking => 6 + 9 * fr.file
    case Filling => 5 + 9 * fr.file
    case Joining => 4
    case Publishing(_) => 3
    case Unlocking(_) => 2
    case Returning(_) => 1
  }

  function StackWork(stack: seq<Frame>): nat {
    if stack == [] then 0 else StackWork(stack[..|stack| - 1]) + FrameWork(Top(stack))
  }

  lemma SameBelow(stack: seq<Frame>, stage: Stage)
    requires stack != []
    ensures StackWork(AtStage(stack, stage)) ==
            StackWork(stack) - FrameWork(Top(stack)) + FrameWork(Top(stack).(stage := stage))
  {
    assert AtStage(stack, stage)[..|stack| - 1] == stack[..|stack| - 1];
  }

  /** Every step of a getter uses up some of its thread's work and leaves other threads' alone: getters return. */
  lemma StepsUseUpWork(c: seq<Origin>, s: State, t: nat, a: Action, s': State)
    requires Inv(c, s) && Step(c, s, t, a, s') && !a.Call? && !s'.ended
    ensures |s'.threads| == |s.threads| && StackWork(s'.threads[t]) < StackWork(s.threads[t])
    ensures forall u :: 0 <= u < |s.threads| && u != t ==> s'.threads[u] == s.threads[u]
  {
    hide Inv, FullPath, FileOk, FrameOk, StackOk;
    TopIsOk(c, s, t);
    var before, after := s.threads[t], s'.threads[t];
    if |after| == |before| {
      SameBelow(before, Top(after).stage);
    } else if |after| > |before| {
      assert after[..|after| - 1] == AtStage(before, Joining);
      SameBelow(before, Joining);
    }
  }
}
