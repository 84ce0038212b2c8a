/**
 * The loop of ScanFile() as a function, one round at a time, for every way it has of looking for the next
 * match; and what whole scans report.
 */
module ScanLoop {
  import opened Bytes
  import opened Lines
  import opened CodeUnitTables
  import opened ShortPattern
  import opened LiteralSearch
  import opened ScanSpec
  import opened ScanExact

  /** static_cast<PCRE2_SIZE>(-1). */
  const PCRE2_UNSET: nat := 0xFFFF_FFFF_FFFF_FFFF

  /** What lets the loop pass over text before it asks PCRE2; a table is its array and its length. */
  datatype Shortcut = NoShortcut | Prefix(literal: seq<Byte>) | Table(kind: Kind, bitmap: seq<Byte>, end: nat)

  /** How matches are looked for: by the literal search alone, or by PCRE2 behind a shortcut. */
  datatype Engine = Literally(literal: seq<Byte>) | Regex(m: Matcher, shortcut: Shortcut)

  /** The loop's variables between rounds; lineNo is the last line reported, 0 before the first. */
  datatype Cursor = Cursor(startOffset: nat, ov0: nat, ov1: nat, lineNo: nat)

  /**
   * A round leaves the loop, or goes on and has reported at most one match, or goes astray: what it found ends
   * in the padding, on a line that has been reported, and the next search would start behind the file.
   */
  datatype Outcome = Ends | Goes(next: Cursor, out: seq<Match>) | Astray

  function Start(): Cursor {
    Cursor(0, PCRE2_UNSET, 0, 0)
  }

  predicate ShortcutOk(shortcut: Shortcut) {
    shortcut.Table? ==> |shortcut.bitmap| == 256 && shortcut.end <= 256
  }

  predicate EngineOk(d: seq<Byte>, e: Engine) {
    e.Regex? ==> Valid(d, e.m) && ShortcutOk(e.shortcut)
  }

  /** Where the shortcut takes the search; None when it finds no place at which a match could start. */
  function Jump(shortcut: Shortcut, buf: seq<Byte>, n: nat, s: nat): (r: Option<nat>)
    requires ShortcutOk(shortcut) && s <= n && ZeroPadded(buf, n)
    ensures r.Some? ==> s <= r.value <= n
  {
    match shortcut
    case NoShortcut => Some(s)
    case Prefix(literal) =>
      LiteralFindMeaning(buf, n, literal, s);
      LiteralFind(buf, n, literal, s)
    case Table(kind, bitmap, end) =>
      var first := BlockSearch(kind, bitmap, end, buf, s, n - s, 0);
      if first == n then None else Some(first)
  }

  /** One search: the leftmost match from there on, or when recovering a non-empty match right there. */
  function Found(e: Engine, buf: seq<Byte>, n: nat, from: nat, recovering: bool): (r: Option<(nat, nat)>)
    requires ZeroPadded(buf, n) && EngineOk(buf[..n], e) && from <= n
    ensures r.Some? ==> from <= r.value.0 <= n && r.value.0 <= r.value.1
    ensures r.Some? && r.value.1 > n ==> e.Literally? && !Reliable(e.literal)
    ensures r.Some? && e.Literally? ==> r.value.1 == r.value.0 + |e.literal|
  {
    match e
    case Literally(literal) =>
      LiteralFindMeaning(buf, n, literal, from);
      (match LiteralFind(buf, n, literal, from)
       case None => None
       case Some(p) => Some((p, p + |literal|)))
    case Regex(m, _) =>
      if recovering then
        (match m.nonEmptyAt[from]
         case None => None
         case Some(end) => Some((from, end)))
      else
        (match NextStart(m, from)
         case None => None
         case Some(p) => Some((p, m.at[p].value)))
  }

  /**
   * One round. A match over a newline, or one that ends behind the file, makes the Match constructor throw,
   * which ends the scan.
   */
  function Round(e: Engine, buf: seq<Byte>, n: nat, c: Cursor): (r: Outcome)
    requires ZeroPadded(buf, n) && EngineOk(buf[..n], e) && c.ov1 <= n
    ensures r.Goes? ==> r.next.ov1 <= n
    ensures r.Astray? ==> e.Literally? && !Reliable(e.literal)
  {
    var d := buf[..n];
    var recovering := c.ov0 == c.ov1;
    if recovering && c.ov0 == n then Ends
    else
      var from := if recovering || e.Literally? then Some(c.ov1) else Jump(e.shortcut, buf, n, c.ov1);
      if from.None? then Ends
      else
        match Found(e, buf, n, from.value, recovering)
        case None =>
          if recovering then Goes(Cursor(from.value, c.ov0, SkipContinuation(d, from.value + 1), c.lineNo), [])
          else Ends
        case Some((start, end)) =>
          var line := LineOf(d, start);
          var next := Cursor(from.value, start, end, line);
          if line == c.lineNo then (if end > n then Astray else Goes(next, []))
          else if end > n || !NoNewline(d, start, end) then Ends
          else Goes(next, [MatchAt(d, start, end)])
  }

  // ---------------------------------------------------------------- when the loop ends

  /** The loop's variables after k rounds from the start; None once the loop has been left or has gone astray. */
  function After(e: Engine, buf: seq<Byte>, n: nat, k: nat): (r: Option<Cursor>)
    requires ZeroPadded(buf, n) && EngineOk(buf[..n], e)
    ensures r.Some? ==> r.value.ov1 <= n
  {
    if k == 0 then Some(Start())
    else
      match After(e, buf, n, k - 1)
      case None => None
      case Some(c) =>
        if c.startOffset >= n then None
        else
          match Round(e, buf, n, c)
          case Goes(next, _) => Some(next)
          case _ => None
  }

  /** With a literal the offsets differ after every round, unless it is empty. */
  predicate Fresh(e: Engine, c: Cursor) {
    e.Literally? ==> e.literal != [] && c.ov0 != c.ov1
  }

  /** Every round takes the search on, or turns a non-empty match into an empty one at the same place. */
  lemma RoundProgresses(e: Engine, buf: seq<Byte>, n: nat, c: Cursor)
    requires ZeroPadded(buf, n) && EngineOk(buf[..n], e) && c.ov1 <= n && Fresh(e, c)
    ensures var r := Round(e, buf, n, c);
            r.Goes? ==> Fresh(e, r.next) && (r.next.ov1 > c.ov1 ||
                        (r.next.ov1 == c.ov1 && c.ov0 != c.ov1 && r.next.ov0 == r.next.ov1))
  {
    hide LineOf, MatchAt, NextStart, LiteralFind, Jump;
  }

  lemma {:induction false} EndsFrom(e: Engine, buf: seq<Byte>, n: nat, k: nat, c: Cursor)
    requires ZeroPadded(buf, n) && EngineOk(buf[..n], e) && c.ov1 <= n && Fresh(e, c)
    requires After(e, buf, n, k) == Some(c)
    ensures exists l: nat :: After(e, buf, n, l).None?
    decreases n - c.ov1, if c.ov0 != c.ov1 then 1 else 0
  {
    hide Round;
    RoundProgresses(e, buf, n, c);
    if After(e, buf, n, k + 1).Some? {
      EndsFrom(e, buf, n, k + 1, After(e, buf, n, k + 1).value);
    }
  }

  /** The empty literal is found at the start of the file, and there again in every further round. */
  lemma {:induction false} EmptyLiteralNeverAdvances(buf: seq<Byte>, n: nat, k: nat)
    requires 0 < n < PCRE2_UNSET && ZeroPadded(buf, n)
    ensures After(Literally([]), buf, n, k + 1) == Some(Cursor(0, 0, 0, 1))
  {
    LiteralFindMeaning(buf, n, [], 0);
    assert After(Literally([]), buf, n, 0) == Some(Start());
    if k > 0 {
      EmptyLiteralNeverAdvances(buf, n, k - 1);
    }
  }

  /** On a file that is not empty the loop ends for every engine but the empty literal. */
  lemma LoopEndsIff(e: Engine, buf: seq<Byte>, n: nat)
    requires 0 < n < PCRE2_UNSET && ZeroPadded(buf, n) && EngineOk(buf[..n], e)
    ensures (exists k: nat :: After(e, buf, n, k).None?) <==> e != Literally([])
  {
    if e == Literally([]) {
      forall k: nat ensures After(e, buf, n, k).Some? {
        if k > 0 {
          EmptyLiteralNeverAdvances(buf, n, k - 1);
        }
      }
    } else {
      EndsFrom(e, buf, n, 0, Start());
    }
  }

  // ---------------------------------------------------------------- what the loop reports

  /** The matches that the rounds from a cursor on report. */
  function Rounds(e: Engine, buf: seq<Byte>, n: nat, c: Cursor): seq<Match>
    requires ZeroPadded(buf, n) && EngineOk(buf[..n], e) && c.ov1 <= n && Fresh(e, c)
    decreases n - c.ov1, if c.ov0 != c.ov1 then 1 else 0
  {
    RoundProgresses(e, buf, n, c);
    if c.startOffset >= n then []
    else
      match Round(e, buf, n, c)
      case Goes(next, out) => out + Rounds(e, buf, n, next)
      case _ => []
  }

  /** The rounds from a cursor on go astray in the end. */
  predicate Strays(e: Engine, buf: seq<Byte>, n: nat, c: Cursor)
    requires ZeroPadded(buf, n) && EngineOk(buf[..n], e) && c.ov1 <= n && Fresh(e, c)
    decreases n - c.ov1, if c.ov0 != c.ov1 then 1 else 0
  {
    RoundProgresses(e, buf, n, c);
    c.startOffset < n &&
    match Round(e, buf, n, c)
    case Ends => false
    case Astray => true
    case Goes(next, _) => Strays(e, buf, n, next)
  }

  /** What ScanFile() adds to the match list. */
  function Reported(e: Engine, buf: seq<Byte>, n: nat): seq<Match>
    requires ZeroPadded(buf, n) && EngineOk(buf[..n], e) && e != Literally([])
  {
    Rounds(e, buf, n, Start())
  }

  // ---------------------------------------------------------------- shortcuts that skip no match start

  /** No match can start where the shortcut does not look. */
  ghost predicate ShortcutSound(shortcut: Shortcut, d: seq<Byte>, m: Matcher)
    requires Valid(d, m) && ShortcutOk(shortcut)
  {
    match shortcut
    case NoShortcut => true
    case Prefix(literal) => forall p :: 0 <= p <= |d| && m.at[p].Some? ==> OccursAt(d, literal, p)
    case Table(kind, bitmap, end) =>
      forall p :: 0 <= p <= |d| && m.at[p].Some? ==> p < |d| && Member(kind, bitmap[..end], d[p])
  }

  /** The table, if there is one, fits one SSE register. */
  predicate Fits(shortcut: Shortcut) {
    shortcut.Table? ==> shortcut.end <= 16
  }

  /** Going on where a sound prefix is found skips no match start, even where only padding completes it. */
  lemma PrefixSkips(buf: seq<Byte>, n: nat, m: Matcher, prefix: seq<Byte>, s: nat)
    requires ZeroPadded(buf, n) && Valid(buf[..n], m) && s <= n
    requires forall p :: 0 <= p <= n && m.at[p].Some? ==> OccursAt(buf[..n], prefix, p)
    ensures match LiteralFind(buf, n, prefix, s)
            case Some(p) => NextStart(m, s) == NextStart(m, p)
            case None => NextStart(m, s) == None
  {
    hide LiteralFind;
    LiteralFindMeaning(buf, n, prefix, s);
    match LiteralFind(buf, n, prefix, s)
    case Some(p) => NextStartSkips(m, s, p);
    case None => NextStartSkips(m, s, n + 1);
  }

  /** Skipping to the next byte of a sound table skips no match start. */
  lemma TableSkips(kind: Kind, table: seq<Byte>, buf: seq<Byte>, n: nat, m: Matcher, s: nat, f: nat)
    requires n <= |buf| && Valid(buf[..n], m) && s <= n
    requires forall p :: 0 <= p <= n && m.at[p].Some? ==> p < n && Member(kind, table, buf[..n][p])
    requires f == FirstAccepted(kind, table, buf, s, n)
    ensures NextStart(m, s) == NextStart(m, f) && (f == n ==> NextStart(m, s) == None)
  {
    forall q | s <= q < f ensures m.at[q].None? {
      assert !Member(kind, table, buf[q]);
    }
    NextStartSkips(m, s, f);
  }

  /** A sound shortcut that fits finds the leftmost match that PCRE2 alone would have found. */
  lemma JumpSkipsNothing(shortcut: Shortcut, buf: seq<Byte>, n: nat, m: Matcher, s: nat)
    requires ZeroPadded(buf, n) && Valid(buf[..n], m) && ShortcutOk(shortcut) && s <= n
    requires ShortcutSound(shortcut, buf[..n], m) && Fits(shortcut)
    ensures var r := Jump(shortcut, buf, n, s);
            NextStart(m, s) == if r.Some? then NextStart(m, r.value) else None
  {
    match shortcut
    case NoShortcut =>
    case Prefix(literal) => PrefixSkips(buf, n, m, literal, s);
    case Table(kind, bitmap, end) =>
      BlockSearchIsLeftmost(kind, bitmap, end, buf, s, n - s);
      TableSkips(kind, bitmap[..end], buf, n, m, s, FirstAccepted(kind, bitmap[..end], buf, s, n));
  }

  // ---------------------------------------------------------------- the loop's invariant

  /**
   * Before the first match, or: ov0 is the start of the last match, lineNo is its line, and ov1 is on that
   * line, or behind its end where an empty match there has been passed.
   */
  ghost predicate OnTrack(d: seq<Byte>, m: Matcher, c: Cursor)
    requires Valid(d, m)
  {
    if c.lineNo == 0 then c == Start()
    else
      && c.ov0 <= c.ov1 <= |d| && c.lineNo == LineOf(d, c.ov0)
      && m.at[c.ov0].Some?
      && (c.ov0 == c.ov1 ==> m.at[c.ov0] == Some(c.ov0))
      && OnLineOrBehind(d, m, c.ov0, c.ov1)
      && (c.startOffset >= |d| ==> c.ov0 == |d|)
  }

  ghost predicate OnLineOrBehind(d: seq<Byte>, m: Matcher, ov0: nat, ov1: nat)
    requires Valid(d, m) && ov0 <= |d|
  {
    var n := LineEnd(d, ov0);
    ov1 <= n || (n < |d| && m.at[n].Some? && ov1 == Resume(d, m, n))
  }

  /** What the reference still has to report at a cursor. */
  ghost function Remaining(d: seq<Byte>, m: Matcher, c: Cursor): seq<Match>
    requires Valid(d, m) && OnTrack(d, m, c)
  {
    if c.lineNo == 0 then Scan(d, m, 0) else ScanAfter(d, m, c.ov0)
  }

  lemma {:induction false} SameEnd(d: seq<Byte>, p: nat, q: nat)
    requires p <= q <= |d| && q <= LineEnd(d, p)
    ensures LineEnd(d, q) == LineEnd(d, p)
    decreases q - p
  {
    if p < q {
      SameEnd(d, p + 1, q);
    }
  }

  /** A match ends on the line it starts on. */
  lemma MatchStaysOnLine(d: seq<Byte>, m: Matcher, p: nat)
    requires Valid(d, m) && p <= |d|
    ensures m.at[p].Some? ==> m.at[p].value <= LineEnd(d, p)
    ensures m.nonEmptyAt[p].Some? ==> m.nonEmptyAt[p].value <= LineEnd(d, p)
  {
    var n := LineEnd(d, p);
    assert n < |d| ==> d[n] == NEWLINE;
  }

  /** A match that a search finds: the cursor stays on track, and its line is the last one or a later one. */
  lemma MatchFound(d: seq<Byte>, m: Matcher, c: Cursor, from: nat, p: nat)
    requires Valid(d, m) && OnTrack(d, m, c) && c.ov1 <= from <= p <= |d| && m.at[p].Some?
    ensures OnTrack(d, m, Cursor(from, p, m.at[p].value, LineOf(d, p)))
    ensures NoNewline(d, p, m.at[p].value) && LineOf(d, p) >= 1 && LineOf(d, p) >= c.lineNo
  {
    MatchStaysOnLine(d, m, p);
    if c.lineNo != 0 {
      SameLine(d, c.ov0, p);
    }
  }

  /** A non-empty match where an empty one was stays on its line. */
  lemma RecoveredAtEmptyMatch(d: seq<Byte>, m: Matcher, c: Cursor)
    requires Valid(d, m) && OnTrack(d, m, c) && c.ov0 == c.ov1 < |d| && m.nonEmptyAt[c.ov0].Some?
    ensures OnTrack(d, m, Cursor(c.ov1, c.ov0, m.nonEmptyAt[c.ov0].value, c.lineNo))
  {
    MatchStaysOnLine(d, m, c.ov0);
  }

  /** One character forward from an empty match stays on its line, or passes the newline as the scan does. */
  lemma AdvancedFromEmptyMatch(d: seq<Byte>, m: Matcher, c: Cursor)
    requires Valid(d, m) && OnTrack(d, m, c) && c.ov0 == c.ov1 < |d|
    ensures OnTrack(d, m, Cursor(c.ov1, c.ov0, SkipContinuation(d, c.ov1 + 1), c.lineNo))
  {
    var n, q := LineEnd(d, c.ov0), SkipContinuation(d, c.ov0 + 1);
    if c.ov0 < n < |d| {
      assert !IsContinuation(NEWLINE);
    }
  }

  /** With no match start left on the last line, the rest of the scan begins at the next match start. */
  lemma BehindLastLine(d: seq<Byte>, m: Matcher, c: Cursor)
    requires Valid(d, m) && OnTrack(d, m, c) && c.lineNo != 0 && LineEnd(d, c.ov0) < |d|
    requires var next := NextStart(m, c.ov1); next.Some? ==> next.value > LineEnd(d, c.ov0)
    ensures ScanAfter(d, m, c.ov0) ==
            match NextStart(m, c.ov1)
            case None => []
            case Some(p) => [MatchAt(d, p, m.at[p].value)] + ScanAfter(d, m, p)
  {
    var n := LineEnd(d, c.ov0);
    if c.ov1 <= n {
      assert m.at[n].None?;
      NextStartSkips(m, c.ov1, n + 1);
    }
    assert NextStart(m, Resume(d, m, n)) == NextStart(m, c.ov1);
    assert ScanAfter(d, m, c.ov0) == Scan(d, m, Resume(d, m, n));
  }

  /** The leftmost match from the cursor on is the next one the reference reports, or is on the line of the last. */
  lemma NextReported(d: seq<Byte>, m: Matcher, c: Cursor, p: nat)
    requires Valid(d, m) && OnTrack(d, m, c) && c.ov1 <= p <= |d| && NextStart(m, c.ov1) == Some(p)
    requires NoNewline(d, p, m.at[p].value)
    ensures Remaining(d, m, c) ==
            (if LineOf(d, p) == c.lineNo then [] else [MatchAt(d, p, m.at[p].value)]) + ScanAfter(d, m, p)
  {
    if c.lineNo != 0 {
      BehindLineEnd(d, c.ov0, p);
      if LineOf(d, p) == c.lineNo {
        SameEnd(d, c.ov0, p);
        assert [] + ScanAfter(d, m, p) == ScanAfter(d, m, p);
      } else {
        BehindLastLine(d, m, c);
      }
    }
  }

  /** When no match is left the reference has nothing more to report. */
  lemma Finished(d: seq<Byte>, m: Matcher, c: Cursor)
    requires Valid(d, m) && OnTrack(d, m, c)
    requires |d| < PCRE2_UNSET && c.ov1 <= |d| && (c.ov0 == |d| || NextStart(m, c.ov1) == None)
    ensures Remaining(d, m, c) == []
  {
    if c.lineNo != 0 && c.ov0 < |d| && LineEnd(d, c.ov0) < |d| {
      BehindLastLine(d, m, c);
    }
  }

  /** Every reported match is one the matcher finds. */
  ghost predicate Real(d: seq<Byte>, m: Matcher, x: Match)
    requires Valid(d, m)
  {
    exists p: nat :: p <= |d| && m.at[p].Some? && x == MatchAt(d, p, m.at[p].value)
  }

  /** One round of PCRE2 behind any shortcut: on track, and a real match on a later line or none. */
  lemma RoundKeepsTrack(m: Matcher, shortcut: Shortcut, buf: seq<Byte>, n: nat, c: Cursor)
    requires ZeroPadded(buf, n) && n < PCRE2_UNSET && Valid(buf[..n], m) && ShortcutOk(shortcut) && c.ov1 <= n
    requires OnTrack(buf[..n], m, c) && c.startOffset < n
    ensures var d := buf[..n];
            match Round(Regex(m, shortcut), buf, n, c)
            case Ends => true
            case Astray => false
            case Goes(next, out) =>
              && OnTrack(d, m, next) && next.lineNo >= c.lineNo
              && (out == [] || (|out| == 1 && Real(d, m, out[0]) && c.lineNo < out[0].line == next.lineNo))
  {
    hide OnTrack, LineOf, NextStart, Jump;
    var d, r := buf[..n], Round(Regex(m, shortcut), buf, n, c);
    if r.Goes? {
      CursorShape(d, m, c);
      if c.ov0 != c.ov1 {
        MatchFound(d, m, c, r.next.startOffset, r.next.ov0);
        assert r.out != [] ==> r.out[0] == MatchAt(d, r.next.ov0, m.at[r.next.ov0].value);
      } else if m.nonEmptyAt[c.ov0].Some? {
        RecoveredAtEmptyMatch(d, m, c);
      } else {
        AdvancedFromEmptyMatch(d, m, c);
      }
    }
  }

  lemma CursorShape(d: seq<Byte>, m: Matcher, c: Cursor)
    requires Valid(d, m) && OnTrack(d, m, c)
    ensures c.lineNo == 0 ==> c == Start()
    ensures c.lineNo != 0 ==> c.ov0 <= c.ov1 <= |d| && c.lineNo == LineOf(d, c.ov0)
    ensures c.startOffset >= |d| && c.lineNo != 0 ==> c.ov0 == |d|
  {
  }

  /** With a sound shortcut that fits, one round reports what the reference does. */
  lemma RoundFollowsScan(m: Matcher, shortcut: Shortcut, buf: seq<Byte>, n: nat, c: Cursor)
    requires ZeroPadded(buf, n) && n < PCRE2_UNSET && Valid(buf[..n], m) && ShortcutOk(shortcut) && c.ov1 <= n
    requires OnTrack(buf[..n], m, c) && c.startOffset < n
    requires ShortcutSound(shortcut, buf[..n], m) && Fits(shortcut)
    ensures var d := buf[..n];
            match Round(Regex(m, shortcut), buf, n, c)
            case Ends => Remaining(d, m, c) == []
            case Astray => false
            case Goes(next, out) => OnTrack(d, m, next) && Remaining(d, m, c) == out + Remaining(d, m, next)
  {
    hide OnTrack, MatchAt, LineOf, NextStart, Jump, Remaining, ShortcutSound;
    var d := buf[..n];
    RoundKeepsTrack(m, shortcut, buf, n, c);
    CursorShape(d, m, c);
    JumpSkipsNothing(shortcut, buf, n, m, c.ov1);
    var next := NextStart(m, c.ov1);
    if c.ov0 == c.ov1 && c.ov0 < n {
      RemainingIs(d, m, c, Round(Regex(m, shortcut), buf, n, c).next);
    } else if c.ov0 == n || next.None? {
      Finished(d, m, c);
    } else {
      MatchFound(d, m, c, c.ov1, next.value);
      NextReported(d, m, c, next.value);
      RemainingAt(d, m, Round(Regex(m, shortcut), buf, n, c).next);
    }
  }

  lemma RemainingIs(d: seq<Byte>, m: Matcher, c: Cursor, c': Cursor)
    requires Valid(d, m) && OnTrack(d, m, c) && OnTrack(d, m, c') && c.lineNo == c'.lineNo && c.ov0 == c'.ov0
    ensures Remaining(d, m, c) == [] + Remaining(d, m, c')
  {
  }

  lemma RemainingAt(d: seq<Byte>, m: Matcher, c: Cursor)
    requires Valid(d, m) && OnTrack(d, m, c) && c.lineNo != 0
    ensures c.ov0 <= |d| && Remaining(d, m, c) == ScanAfter(d, m, c.ov0)
  {
  }

  /** With a sound shortcut that fits, the rounds report the rest of the reference scan. */
  lemma {:induction false} RoundsFollowScan(m: Matcher, shortcut: Shortcut, buf: seq<Byte>, n: nat, c: Cursor)
    requires ZeroPadded(buf, n) && 0 < n < PCRE2_UNSET && Valid(buf[..n], m) && ShortcutOk(shortcut) && c.ov1 <= n
    requires OnTrack(buf[..n], m, c)
    requires ShortcutSound(shortcut, buf[..n], m) && Fits(shortcut)
    ensures Rounds(Regex(m, shortcut), buf, n, c) == Remaining(buf[..n], m, c)
    decreases n - c.ov1, if c.ov0 != c.ov1 then 1 else 0
  {
    hide OnTrack, Round, Remaining, ShortcutSound, Valid;
    CursorShape(buf[..n], m, c);
    if c.startOffset < n {
      RoundFollowsScan(m, shortcut, buf, n, c);
      RoundProgresses(Regex(m, shortcut), buf, n, c);
      var r := Round(Regex(m, shortcut), buf, n, c);
      if r.Goes? {
        RoundsFollowScan(m, shortcut, buf, n, r.next);
      }
    } else {
      Finished(buf[..n], m, c);
    }
  }

  /** Shortcuts preserve meaning: a sound one that fits changes nothing of what is reported. */
  lemma ShortcutPreservesScan(m: Matcher, shortcut: Shortcut, buf: seq<Byte>, n: nat)
    requires ZeroPadded(buf, n) && 0 < n < PCRE2_UNSET && Valid(buf[..n], m) && ShortcutOk(shortcut)
    requires ShortcutSound(shortcut, buf[..n], m) && Fits(shortcut)
    ensures Reported(Regex(m, shortcut), buf, n) == Scan(buf[..n], m, 0)
  {
    RoundsFollowScan(m, shortcut, buf, n, Start());
  }

  // ---------------------------------------------------------------- any shortcut at all

  ghost predicate SoundFrom(d: seq<Byte>, m: Matcher, lineNo: nat, ms: seq<Match>)
    requires Valid(d, m)
  {
    StrictlyIncreasing(ms) && forall i :: 0 <= i < |ms| ==> ms[i].line > lineNo && Real(d, m, ms[i])
  }

  lemma {:induction false} RoundsAreSound(m: Matcher, shortcut: Shortcut, buf: seq<Byte>, n: nat, c: Cursor)
    requires ZeroPadded(buf, n) && 0 < n < PCRE2_UNSET && Valid(buf[..n], m) && ShortcutOk(shortcut) && c.ov1 <= n
    requires OnTrack(buf[..n], m, c)
    ensures SoundFrom(buf[..n], m, c.lineNo, Rounds(Regex(m, shortcut), buf, n, c))
    decreases n - c.ov1, if c.ov0 != c.ov1 then 1 else 0
  {
    hide OnTrack, Round, Valid, Real;
    if c.startOffset < n {
      RoundKeepsTrack(m, shortcut, buf, n, c);
      RoundProgresses(Regex(m, shortcut), buf, n, c);
      var r := Round(Regex(m, shortcut), buf, n, c);
      if r.Goes? {
        RoundsAreSound(m, shortcut, buf, n, r.next);
      }
    }
  }

  /** With a table of any length, sound or not: real matches, on strictly increasing lines. */
  lemma AnyScanIsSound(m: Matcher, shortcut: Shortcut, buf: seq<Byte>, n: nat)
    requires ZeroPadded(buf, n) && 0 < n < PCRE2_UNSET && Valid(buf[..n], m) && ShortcutOk(shortcut)
    ensures StrictlyIncreasing(Reported(Regex(m, shortcut), buf, n))
    ensures forall x :: x in Reported(Regex(m, shortcut), buf, n) ==> Real(buf[..n], m, x)
    ensures ReportedLines(Reported(Regex(m, shortcut), buf, n)) <= MatchLines(buf[..n], m)
  {
    RoundsAreSound(m, shortcut, buf, n, Start());
    var ms := Reported(Regex(m, shortcut), buf, n);
    forall i | 0 <= i < |ms| ensures ms[i].line in MatchLines(buf[..n], m) {
      assert Real(buf[..n], m, ms[i]);
    }
  }

  // ---------------------------------------------------------------- what a reported match shows

  /** The engine's match at start ends at end. */
  predicate MatchesAt(e: Engine, d: seq<Byte>, start: nat, end: nat)
    requires EngineOk(d, e)
  {
    match e
    case Literally(literal) => OccursAt(d, literal, start) && end == start + |literal|
    case Regex(m, _) => start <= |d| && m.at[start] == Some(end)
  }

  /** x is what the engine matches at some place: the whole line, with the match where it is, and its number. */
  ghost predicate Shown(e: Engine, d: seq<Byte>, x: Match)
    requires EngineOk(d, e)
  {
    exists lo: nat, start: nat, end: nat, hi: nat ::
      ShowsLine(d, x, lo, start, end, hi) && MatchesAt(e, d, start, end) && x.line == LineOf(d, start)
  }

  lemma ShownAt(e: Engine, d: seq<Byte>, start: nat, end: nat)
    requires EngineOk(d, e) && start <= end <= |d| && NoNewline(d, start, end) && MatchesAt(e, d, start, end)
    ensures Shown(e, d, MatchAt(d, start, end))
  {
    MatchAtShowsLine(d, start, end);
  }
}
