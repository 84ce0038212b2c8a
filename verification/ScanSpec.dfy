/**
 * What scanning one file must report, for any regular expression.
 *
 * PCRE2 is a table with one entry per start position.  The reference scan finds the leftmost match
 * start, reports it, and goes on behind the end of its line.
 */
module ScanSpec {
  import opened Bytes
  import opened Lines

  /** at[p]: end of the match found at p, if any.  nonEmptyAt[p]: end of the non-empty match tried at p. */
  datatype Matcher = Matcher(at: seq<Option<nat>>, nonEmptyAt: seq<Option<nat>>)

  /** Match ends lie in the file and, as the callout enforces, no match contains a newline. */
  predicate Valid(d: seq<Byte>, m: Matcher) {
    && |m.at| == |d| + 1
    && |m.nonEmptyAt| == |d| + 1
    && (forall p :: 0 <= p <= |d| && m.at[p].Some? ==> p <= m.at[p].value <= |d| && NoNewline(d, p, m.at[p].value))
    && (forall p :: 0 <= p <= |d| && m.nonEmptyAt[p].Some? ==>
          p < m.nonEmptyAt[p].value <= |d| && NoNewline(d, p, m.nonEmptyAt[p].value))
  }

  /** A reported match: the matched text, what its line holds before and after it, and the line number. */
  datatype Match = Match(pre: seq<Byte>, text: seq<Byte>, post: seq<Byte>, line: nat)

  function MatchAt(d: seq<Byte>, start: nat, end: nat): Match
    requires start <= end <= |d| && NoNewline(d, start, end)
  {
    var n := LineEnd(d, start);
    assert end <= n;
    Match(d[LineStart(d, start)..start], d[start..end], d[end..n], LineOf(d, start))
  }

  /** x shows the line [lo, hi) with the text [start, end) picked out: its parts make up the line, in order. */
  predicate ShowsLine(d: seq<Byte>, x: Match, lo: nat, start: nat, end: nat, hi: nat) {
    && lo <= start <= end <= hi <= |d| && NoNewline(d, lo, hi)
    && (lo == 0 || d[lo - 1] == NEWLINE) && (hi == |d| || d[hi] == NEWLINE)
    && x.pre + x.text + x.post == d[lo..hi] && |x.pre| == start - lo && |x.text| == end - start
  }

  lemma MatchAtShowsLine(d: seq<Byte>, start: nat, end: nat)
    requires start <= end <= |d| && NoNewline(d, start, end)
    ensures ShowsLine(d, MatchAt(d, start, end), LineStart(d, start), start, end, LineEnd(d, start))
  {
  }

  /** Leftmost match start at or after s. */
  function NextStart(m: Matcher, s: nat): (r: Option<nat>)
    ensures r.Some? ==> s <= r.value < |m.at| && m.at[r.value].Some?
    ensures r.Some? ==> forall q :: s <= q < r.value ==> m.at[q].None?
    ensures r.None? ==> forall q :: s <= q < |m.at| ==> m.at[q].None?
    decreases |m.at| - s
  {
    if s >= |m.at| then None else if m.at[s].Some? then Some(s) else NextStart(m, s + 1)
  }

  /** Positions without a match start can be skipped. */
  lemma NextStartSkips(m: Matcher, s: nat, t: nat)
    requires s <= t
    requires forall q :: s <= q < t && q < |m.at| ==> m.at[q].None?
    ensures NextStart(m, s) == NextStart(m, t)
  {
    var a, b := NextStart(m, s), NextStart(m, t);
    if a.Some? && b.Some? {
      assert a.value >= t;
    }
  }

  /** The reference: one match a line, the leftmost, line after line. */
  function LineByLine(d: seq<Byte>, m: Matcher, s: nat): seq<Match>
    requires Valid(d, m) && s <= |d|
    decreases |d| - s, 1
  {
    match NextStart(m, s)
    case None => []
    case Some(p) => [MatchAt(d, p, m.at[p].value)] + LinesBehind(d, m, LineEnd(d, p))
  }

  /** The lines behind the one that ends at n. */
  function LinesBehind(d: seq<Byte>, m: Matcher, n: nat): seq<Match>
    requires Valid(d, m) && n <= |d|
    decreases |d| - n, 0
  {
    if n == |d| then [] else LineByLine(d, m, n + 1)
  }

  /**
   * Where the scan loop goes on behind newline n.  When the expression matches the empty string at n, the
   * loop first retries there, then advances by a whole UTF-8 character: it skips continuation bytes.
   */
  function Resume(d: seq<Byte>, m: Matcher, n: nat): (r: nat)
    requires Valid(d, m) && n < |d|
    ensures n < r <= |d|
  {
    if m.at[n].Some? then SkipContinuation(d, n + 1) else n + 1
  }

  /** What the scan loop computes on every file that is not empty, if no shortcut makes it skip a match. */
  function Scan(d: seq<Byte>, m: Matcher, s: nat): seq<Match>
    requires Valid(d, m) && s <= |d|
    decreases |d| - s
  {
    match NextStart(m, s)
    case None => []
    case Some(p) => [MatchAt(d, p, m.at[p].value)] + ScanAfter(d, m, p)
  }

  /** The rest of the scan once the line of position p has been reported. */
  function ScanAfter(d: seq<Byte>, m: Matcher, p: nat): seq<Match>
    requires Valid(d, m) && p <= |d|
    decreases |d| - p, 0
  {
    var n := LineEnd(d, p);
    if n == |d| then [] else Scan(d, m, Resume(d, m, n))
  }

  /** Lines on which some match starts. */
  function MatchLines(d: seq<Byte>, m: Matcher): set<nat>
    requires Valid(d, m)
  {
    set p | 0 <= p <= |d| && m.at[p].Some? :: LineOf(d, p)
  }

  function ReportedLines(ms: seq<Match>): set<nat> {
    set i | 0 <= i < |ms| :: ms[i].line
  }

  predicate StrictlyIncreasing(ms: seq<Match>) {
    forall i, j :: 0 <= i < j < |ms| ==> ms[i].line < ms[j].line
  }

  /** No line starts with a stray continuation byte. */
  predicate NoContinuationAfterNewline(d: seq<Byte>) {
    forall n :: 0 <= n < |d| - 1 && d[n] == NEWLINE ==> !IsContinuation(d[n + 1])
  }
}
