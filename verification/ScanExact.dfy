/**
 * The reference reports what it should, and a scan without shortcuts reports what the reference does on files
 * in which no continuation byte follows a newline.
 */
module ScanExact {
  import opened Bytes
  import opened Lines
  import opened ScanSpec

  // ---------------------------------------------------------------- the reference is exact

  lemma ReportedLinesCons(x: Match, rest: seq<Match>)
    ensures ReportedLines([x] + rest) == {x.line} + ReportedLines(rest)
  {
    var ms := [x] + rest;
    assert ms[0] == x;
    forall i | 0 <= i < |rest| ensures rest[i].line in ReportedLines(ms) {
      assert ms[i + 1] == rest[i];
    }
  }

  lemma StrictlyIncreasingCons(x: Match, rest: seq<Match>)
    requires StrictlyIncreasing(rest)
    requires forall l :: l in ReportedLines(rest) ==> x.line < l
    ensures StrictlyIncreasing([x] + rest)
  {
    forall i | 0 <= i < |rest| ensures x.line < rest[i].line {
      assert rest[i].line in ReportedLines(rest);
    }
  }

  /** Some match starts on line l at or after s. */
  ghost predicate StartsOn(d: seq<Byte>, m: Matcher, s: nat, l: nat)
    requires Valid(d, m)
  {
    exists p :: s <= p <= |d| && m.at[p].Some? && LineOf(d, p) == l
  }

  /** Behind the end of a line all positions have larger line numbers. */
  lemma BehindLineEnd(d: seq<Byte>, p: nat, q: nat)
    requires p <= q <= |d|
    ensures q <= LineEnd(d, p) <==> LineOf(d, q) == LineOf(d, p)
    ensures q > LineEnd(d, p) <==> LineOf(d, q) > LineOf(d, p)
  {
    SameLine(d, p, q);
  }

  /** Match starts from s on lie on the line of the leftmost one, or behind its end. */
  lemma StartsOnSplit(d: seq<Byte>, m: Matcher, s: nat, p: nat, l: nat)
    requires Valid(d, m) && s <= |d| && NextStart(m, s) == Some(p)
    ensures StartsOn(d, m, s, l) <==> l == LineOf(d, p) || StartsOn(d, m, LineEnd(d, p) + 1, l)
    ensures StartsOn(d, m, LineEnd(d, p) + 1, l) ==> LineOf(d, p) < l
  {
    if StartsOn(d, m, s, l) {
      var q :| s <= q <= |d| && m.at[q].Some? && LineOf(d, q) == l;
      assert p <= q;
      BehindLineEnd(d, p, q);
    }
    if StartsOn(d, m, LineEnd(d, p) + 1, l) {
      var q :| LineEnd(d, p) + 1 <= q <= |d| && m.at[q].Some? && LineOf(d, q) == l;
      BehindLineEnd(d, p, q);
    }
  }

  /** Everything the reference reports from s on: in order, and exactly the lines with a match start from s on. */
  lemma {:induction false} LineByLineIsExact(d: seq<Byte>, m: Matcher, s: nat)
    requires Valid(d, m) && s <= |d|
    ensures StrictlyIncreasing(LineByLine(d, m, s))
    ensures forall l :: l in ReportedLines(LineByLine(d, m, s)) <==> StartsOn(d, m, s, l)
    decreases |d| - s
  {
    var start := NextStart(m, s);
    if start.Some? {
      var p := start.value;
      var n := LineEnd(d, p);
      var rest := LinesBehind(d, m, n);
      if n < |d| {
        LineByLineIsExact(d, m, n + 1);
      }
      forall l: nat ensures StartsOn(d, m, s, l) <==> l == LineOf(d, p) || l in ReportedLines(rest)
                    ensures l in ReportedLines(rest) ==> LineOf(d, p) < l {
        StartsOnSplit(d, m, s, p, l);
      }
      var x := MatchAt(d, p, m.at[p].value);
      StrictlyIncreasingCons(x, rest);
      ReportedLinesCons(x, rest);
    }
  }

  /** p is the leftmost match start of its line, counting from s. */
  ghost predicate FirstOfLine(d: seq<Byte>, m: Matcher, s: nat, p: nat)
    requires Valid(d, m)
  {
    && s <= p <= |d| && m.at[p].Some?
    && (forall q :: s <= q <= |d| && m.at[q].Some? && LineOf(d, q) == LineOf(d, p) ==> p <= q)
  }

  /** The reported match is the one at the leftmost start of its line. */
  ghost predicate IsFirstOfLine(d: seq<Byte>, m: Matcher, s: nat, x: Match)
    requires Valid(d, m)
  {
    exists p: nat :: FirstOfLine(d, m, s, p) && x == MatchAt(d, p, m.at[p].value)
  }

  lemma FirstOfLaterLine(d: seq<Byte>, m: Matcher, s: nat, p: nat, t: nat)
    requires Valid(d, m) && s <= |d| && NextStart(m, s) == Some(p)
    requires FirstOfLine(d, m, LineEnd(d, p) + 1, t)
    ensures FirstOfLine(d, m, s, t)
  {
    forall q | s <= q <= |d| && m.at[q].Some? && LineOf(d, q) == LineOf(d, t) ensures t <= q {
      assert p <= q;
      BehindLineEnd(d, p, t);
      BehindLineEnd(d, p, q);
    }
  }

  /** What is reported of a line is its leftmost match. */
  lemma {:induction false} LineByLineTakesLeftmost(d: seq<Byte>, m: Matcher, s: nat)
    requires Valid(d, m) && s <= |d|
    ensures forall x :: x in LineByLine(d, m, s) ==> IsFirstOfLine(d, m, s, x)
    decreases |d| - s
  {
    var start := NextStart(m, s);
    if start.Some? {
      var p := start.value;
      var n := LineEnd(d, p);
      var rest := LinesBehind(d, m, n);
      assert FirstOfLine(d, m, s, p);
      if n < |d| {
        LineByLineTakesLeftmost(d, m, n + 1);
      }
      forall x | x in rest ensures IsFirstOfLine(d, m, s, x) {
        assert IsFirstOfLine(d, m, n + 1, x);
        var t: nat :| FirstOfLine(d, m, n + 1, t) && x == MatchAt(d, t, m.at[t].value);
        FirstOfLaterLine(d, m, s, p, t);
      }
    }
  }

  /** The reference reports exactly the lines on which a match starts. */
  lemma LineByLineReportsMatchLines(d: seq<Byte>, m: Matcher)
    requires Valid(d, m)
    ensures ReportedLines(LineByLine(d, m, 0)) == MatchLines(d, m)
  {
    LineByLineIsExact(d, m, 0);
    forall l ensures l in MatchLines(d, m) <==> StartsOn(d, m, 0, l) {
    }
  }

  // ---------------------------------------------------------------- the scan loop against the reference

  /** On a file without stray continuation bytes the loop's skipping changes nothing. */
  lemma {:induction false} ScanIsLineByLine(d: seq<Byte>, m: Matcher, s: nat)
    requires Valid(d, m) && s <= |d|
    requires NoContinuationAfterNewline(d)
    ensures Scan(d, m, s) == LineByLine(d, m, s)
    decreases |d| - s
  {
    var start := NextStart(m, s);
    if start.Some? {
      var n := LineEnd(d, start.value);
      if n < |d| {
        assert Resume(d, m, n) == n + 1;
        ScanIsLineByLine(d, m, n + 1);
      }
    }
  }

  /** The expression that matches the empty string just at the newline n and just behind it. */
  function EmptyAround(d: seq<Byte>, n: nat): Matcher
    requires n < |d|
  {
    Matcher(seq(|d| + 1, i => if i == n || i == n + 1 then Some(i) else None), seq(|d| + 1, i => None))
  }

  /** With that expression the line behind a newline followed by a continuation byte is lost. */
  lemma StrayContinuationLosesALine(d: seq<Byte>, n: nat)
    requires n + 1 < |d| && d[n] == NEWLINE && IsContinuation(d[n + 1])
    ensures Valid(d, EmptyAround(d, n))
    ensures LineOf(d, n + 1) in MatchLines(d, EmptyAround(d, n))
    ensures LineOf(d, n + 1) !in ReportedLines(Scan(d, EmptyAround(d, n), 0))
  {
    var m := EmptyAround(d, n);
    assert m.at[n + 1].Some?;
    NextStartSkips(m, 0, n);
    assert NextStart(m, 0) == Some(n);
    assert LineEnd(d, n) == n;
    var r := Resume(d, m, n);
    assert r == SkipContinuation(d, n + 1) && r > n + 1;
    assert NextStart(m, r) == None;
    assert Scan(d, m, r) == [];
    assert Scan(d, m, 0) == [MatchAt(d, n, n)];
    SameLine(d, n, n + 1);
  }
}
