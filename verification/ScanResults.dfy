/** On which files, and with which shortcuts, ScanFile() reports every line that holds the start of a match. */
module ScanResults {
  import opened Bytes
  import opened Lines
  import opened ShortPattern
  import opened CodeUnitTables
  import opened ScanSpec
  import opened ScanExact
  import opened ScanLoop
  import opened Utf8

  /** A file in its buffer, an expression for it, and a shortcut that suits the expression. */
  ghost predicate Suits(shortcut: Shortcut, m: Matcher, buf: seq<Byte>, n: nat) {
    && n < PCRE2_UNSET && ZeroPadded(buf, n) && Valid(buf[..n], m)
    && ShortcutOk(shortcut) && ShortcutSound(shortcut, buf[..n], m)
  }

  /** The lines reported are exactly those on which a match starts. */
  ghost predicate Exact(shortcut: Shortcut, m: Matcher, buf: seq<Byte>, n: nat)
    requires Suits(shortcut, m, buf, n)
  {
    ReportedLines(Reported(Regex(m, shortcut), buf, n)) == MatchLines(buf[..n], m)
  }

  /** With a shortcut that fits: exact on files that are not empty and free of stray continuation bytes. */
  lemma FittingScanIsExact(shortcut: Shortcut, m: Matcher, buf: seq<Byte>, n: nat)
    requires Suits(shortcut, m, buf, n) && Fits(shortcut)
    requires n > 0 && NoContinuationAfterNewline(buf[..n])
    ensures Exact(shortcut, m, buf, n)
    ensures StrictlyIncreasing(Reported(Regex(m, shortcut), buf, n))
  {
    ShortcutPreservesScan(m, shortcut, buf, n);
    ScanIsLineByLine(buf[..n], m, 0);
    LineByLineReportsMatchLines(buf[..n], m);
    LineByLineIsExact(buf[..n], m, 0);
  }

  /**
   * A file is scanned exactly for every expression, whatever fitting shortcut the expression has, if and only
   * if it is not empty and no continuation byte directly follows a newline in it.
   */
  lemma ScanIsExactIff(buf: seq<Byte>, n: nat)
    requires n < PCRE2_UNSET && ZeroPadded(buf, n)
    ensures n > 0 && NoContinuationAfterNewline(buf[..n]) <==>
            forall m: Matcher, shortcut: Shortcut :: Suits(shortcut, m, buf, n) && Fits(shortcut) ==>
              Exact(shortcut, m, buf, n)
  {
    var d := buf[..n];
    if n == 0 {
      var m := Matcher([Some(0)], [None]);
      assert Suits(NoShortcut, m, buf, n) && Reported(Regex(m, NoShortcut), buf, n) == [];
      assert m.at[0].Some? && LineOf(d, 0) in MatchLines(d, m);
    } else if NoContinuationAfterNewline(d) {
      forall m: Matcher, shortcut: Shortcut | Suits(shortcut, m, buf, n) && Fits(shortcut)
        ensures Exact(shortcut, m, buf, n)
      {
        FittingScanIsExact(shortcut, m, buf, n);
      }
    } else {
      var k :| 0 <= k < |d| - 1 && d[k] == NEWLINE && IsContinuation(d[k + 1]);
      StrayContinuationLosesALine(d, k);
      assert Suits(NoShortcut, EmptyAround(d, k), buf, n);
      ShortcutPreservesScan(EmptyAround(d, k), NoShortcut, buf, n);
    }
  }

  // ---------------------------------------------------------------- files in UTF-8

  /** On UTF-8 the scan reports, in order, exactly the lines on which a match starts. */
  lemma Utf8ScanIsExact(d: seq<Byte>, m: Matcher, cps: seq<int>)
    requires Valid(d, m) && Text(cps) && d == EncodeAll(cps)
    ensures NoContinuationAfterNewline(d)
    ensures StrictlyIncreasing(Scan(d, m, 0)) && ReportedLines(Scan(d, m, 0)) == MatchLines(d, m)
  {
    hide Valid, EncodeAll, IsContinuation, ReportedLines, MatchLines;
    forall k | 0 <= k < |d| - 1 && d[k] == NEWLINE ensures !IsContinuation(d[k + 1]) {
      TextNewlines(cps, k);
    }
    ScanIsLineByLine(d, m, 0);
    LineByLineReportsMatchLines(d, m);
    LineByLineIsExact(d, m, 0);
  }

  /** Every UTF-8 file that is not empty is scanned exactly, with any shortcut that suits the expression and fits. */
  lemma Utf8FileIsScannedExactly(shortcut: Shortcut, m: Matcher, buf: seq<Byte>, n: nat, cps: seq<int>)
    requires Suits(shortcut, m, buf, n) && Fits(shortcut)
    requires n > 0 && Text(cps) && buf[..n] == EncodeAll(cps)
    ensures Exact(shortcut, m, buf, n)
    ensures StrictlyIncreasing(Reported(Regex(m, shortcut), buf, n))
  {
    Utf8ScanIsExact(buf[..n], m, cps);
    FittingScanIsExact(shortcut, m, buf, n);
  }

  // ---------------------------------------------------------------- tables of more than one register

  /** Two lines, each of which begins or ends with a byte of the table: one of its second chunk, its first one. */
  function SplitText(bitmap: seq<Byte>): seq<Byte>
    requires |bitmap| == 256
  {
    [bitmap[16], NEWLINE, 0, bitmap[0]] + seq(16, i => 0)
  }

  /** An expression that matches at just those two bytes. */
  function SplitMatcher(bitmap: seq<Byte>): Matcher
    requires |bitmap| == 256
  {
    Matcher([Some(1), None, None, Some(if bitmap[0] == NEWLINE then 3 else 4), None], [None, None, None, None, None])
  }

  lemma SecondChunkIsLarge(kind: Kind, table: seq<Byte>)
    requires WellFormed(kind, table) && |table| > 16
    ensures table[16] >= 16
  {
    match kind
    case Singles => AscendingGrows(table, 16);
    case Pairs => SeparatedGrows(table, 8);
  }

  lemma {:induction false} AscendingGrows(table: seq<Byte>, i: nat)
    requires Ascending(table) && i < |table|
    ensures table[i] >= i
  {
    if i > 0 {
      AscendingGrows(table, i - 1);
    }
  }

  lemma {:induction false} SeparatedGrows(table: seq<Byte>, i: nat)
    requires Separated(table) && 2 * i < |table|
    ensures table[2 * i] >= 2 * i
  {
    if i > 0 {
      SeparatedGrows(table, i - 1);
      assert table[2 * (i - 1)] <= table[2 * (i - 1) + 1];
      assert table[2 * (i - 1) + 1] as int + 1 < table[2 * (i - 1) + 2];
    }
  }

  /** The search passes over the first of the two bytes. */
  lemma SearchPassesOver(kind: Kind, bitmap: seq<Byte>, end: nat)
    requires |bitmap| == 256 && 16 < end <= 256 && WellFormed(kind, bitmap[..end])
    ensures var r := Jump(Table(kind, bitmap, end), SplitText(bitmap), 4, 0); r.Some? && 1 <= r.value <= 3
  {
    hide Cmp, Member;
    var table, mem := bitmap[..end], SplitText(bitmap);
    SecondChunkIsNew(kind, table);
    var block, chunk := mem[0..16], bitmap[0..16];
    assert chunk[..16] == table[..16];
    CmpMeaning(kind, chunk, 16, block, 4);
    assert block[0] == table[16] && block[3] == table[0];
    var hit := FirstChunkHit(kind, bitmap, end, block, 4, 0);
    assert hit == Cmp(kind, chunk, 16, block, 4);
    assert BlockSearch(kind, bitmap, end, mem, 0, 4, 0) == hit;
  }

  lemma SplitSuits(kind: Kind, bitmap: seq<Byte>, end: nat)
    requires |bitmap| == 256 && 16 < end <= 256 && WellFormed(kind, bitmap[..end])
    ensures Suits(Table(kind, bitmap, end), SplitMatcher(bitmap), SplitText(bitmap), 4)
    ensures NoContinuationAfterNewline(SplitText(bitmap)[..4])
    ensures LineOf(SplitText(bitmap)[..4], 0) == 1 && LineOf(SplitText(bitmap)[..4], 3) == 2
  {
    var table, d := bitmap[..end], SplitText(bitmap)[..4];
    assert d == [bitmap[16], NEWLINE, 0, bitmap[0]];
    SecondChunkIsLarge(kind, table);
    SecondChunkIsNew(kind, table);
    MemberOfPart(kind, table, table[0]);
    SameLine(d, 0, 1);
    SameLine(d, 2, 3);
    assert CountIn(d, 0, 2) == CountIn(d, 0, 1) + 1;
  }

  lemma MemberOfPart(kind: Kind, table: seq<Byte>, b: Byte)
    requires |table| > 16 && Member(kind, table[..16], b)
    ensures Member(kind, table, b)
  {
    assert table == table[..16] + table[16..];
    MemberSplit(kind, table[..16], table[16..], b);
  }

  /** With any longer table there is a file without stray bytes of which a line is not reported. */
  lemma LongTableLosesALine(kind: Kind, bitmap: seq<Byte>, end: nat)
    requires |bitmap| == 256 && 16 < end <= 256 && WellFormed(kind, bitmap[..end])
    ensures Suits(Table(kind, bitmap, end), SplitMatcher(bitmap), SplitText(bitmap), 4)
    ensures 1 in MatchLines(SplitText(bitmap)[..4], SplitMatcher(bitmap))
    ensures 1 !in ReportedLines(Reported(Regex(SplitMatcher(bitmap), Table(kind, bitmap, end)), SplitText(bitmap), 4))
  {
    var m, buf, shortcut := SplitMatcher(bitmap), SplitText(bitmap), Table(kind, bitmap, end);
    var d := buf[..4];
    SplitSuits(kind, bitmap, end);
    SearchPassesOver(kind, bitmap, end);
    assert m.at[0].Some?;
    var from := Jump(shortcut, buf, 4, 0).value;
    NextStartSkips(m, from, 3);
    hide Suits, Jump, ShortcutOk, SplitText, SplitMatcher, LineOf, NextStart;
    FirstRound(m, shortcut, buf, from);
  }

  lemma FirstRound(m: Matcher, shortcut: Shortcut, buf: seq<Byte>, from: nat)
    requires ZeroPadded(buf, 4) && Valid(buf[..4], m) && ShortcutOk(shortcut) && Jump(shortcut, buf, 4, 0) == Some(from)
    requires NextStart(m, from) == Some(3) && LineOf(buf[..4], 3) == 2
    ensures 1 !in ReportedLines(Reported(Regex(m, shortcut), buf, 4))
  {
    hide Jump, LineOf, NextStart;
    var e := Regex(m, shortcut);
    RoundKeepsTrack(m, shortcut, buf, 4, Start());
    assert Round(e, buf, 4, Start()) == Goes(Cursor(from, 3, m.at[3].value, 2), [MatchAt(buf[..4], 3, m.at[3].value)]);
    var next, out := Round(e, buf, 4, Start()).next, Round(e, buf, 4, Start()).out;
    RoundProgresses(e, buf, 4, Start());
    RoundsAreSound(m, shortcut, buf, 4, next);
    assert Reported(e, buf, 4) == out + Rounds(e, buf, 4, next);
  }

  /**
   * With a table as shortcut, scans of files free of stray bytes are exact for all expressions the table
   * suits, if and only if it has at most 16 entries.
   */
  lemma TableScanIsExactIff(kind: Kind, bitmap: seq<Byte>, end: nat)
    requires |bitmap| == 256 && end <= 256 && WellFormed(kind, bitmap[..end])
    ensures end <= 16 <==>
            forall m: Matcher, buf: seq<Byte>, n: nat ::
              Suits(Table(kind, bitmap, end), m, buf, n) && n > 0 && NoContinuationAfterNewline(buf[..n]) ==>
                Exact(Table(kind, bitmap, end), m, buf, n)
  {
    var shortcut := Table(kind, bitmap, end);
    if end <= 16 {
      forall m: Matcher, buf: seq<Byte>, n: nat |
        Suits(shortcut, m, buf, n) && n > 0 && NoContinuationAfterNewline(buf[..n])
        ensures Exact(shortcut, m, buf, n)
      {
        FittingScanIsExact(shortcut, m, buf, n);
      }
    } else {
      LongTableLosesALine(kind, bitmap, end);
      SplitSuits(kind, bitmap, end);
      assert !Exact(shortcut, SplitMatcher(bitmap), SplitText(bitmap), 4);
    }
  }
}
