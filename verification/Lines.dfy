/** Lines of a file: a newline byte belongs to the line it ends. */
module Lines {
  import opened Bytes

  /** Number of newlines in d[lo..hi]. */
  function CountIn(d: seq<Byte>, lo: nat, hi: nat): nat
    requires lo <= hi <= |d|
    decreases hi - lo
  {
    if lo == hi then 0 else CountIn(d, lo, hi - 1) + (if d[hi - 1] == NEWLINE then 1 else 0)
  }

  predicate NoNewline(d: seq<Byte>, lo: nat, hi: nat)
    requires lo <= hi <= |d|
  {
    forall q :: lo <= q < hi ==> d[q] != NEWLINE
  }

  lemma {:induction false} CountSplit(d: seq<Byte>, a: nat, b: nat, c: nat)
    requires a <= b <= c <= |d|
    ensures CountIn(d, a, c) == CountIn(d, a, b) + CountIn(d, b, c)
    decreases c - b
  {
    if b < c {
      CountSplit(d, a, b, c - 1);
    }
  }

  lemma {:induction false} CountZero(d: seq<Byte>, lo: nat, hi: nat)
    requires lo <= hi <= |d|
    ensures CountIn(d, lo, hi) == 0 <==> NoNewline(d, lo, hi)
    decreases hi - lo
  {
    if lo < hi {
      CountZero(d, lo, hi - 1);
    }
  }

  /** Line number of position p, counting from 1. */
  function LineOf(d: seq<Byte>, p: nat): nat
    requires p <= |d|
  {
    1 + CountIn(d, 0, p)
  }

  lemma FirstLine(d: seq<Byte>)
    ensures LineOf(d, 0) == 1
  {
  }

  /** Two positions are on one line exactly when no newline lies between them. */
  lemma SameLine(d: seq<Byte>, p: nat, q: nat)
    requires p <= q <= |d|
    ensures LineOf(d, p) <= LineOf(d, q)
    ensures LineOf(d, q) == LineOf(d, p) + CountIn(d, p, q)
    ensures LineOf(d, p) == LineOf(d, q) <==> NoNewline(d, p, q)
  {
    CountSplit(d, 0, p, q);
    CountZero(d, p, q);
  }

  /** First newline at or after p; |d| when the line is the last one. */
  function LineEnd(d: seq<Byte>, p: nat): (n: nat)
    requires p <= |d|
    ensures p <= n <= |d|
    ensures NoNewline(d, p, n)
    ensures n < |d| ==> d[n] == NEWLINE
    decreases |d| - p
  {
    if p == |d| || d[p] == NEWLINE then p else LineEnd(d, p + 1)
  }

  /** Start of the line holding p. */
  function LineStart(d: seq<Byte>, p: nat): (b: nat)
    requires p <= |d|
    ensures b <= p
    ensures NoNewline(d, b, p)
    ensures b > 0 ==> d[b - 1] == NEWLINE
    decreases p
  {
    if p == 0 || d[p - 1] == NEWLINE then p else LineStart(d, p - 1)
  }

  /** The first byte at or after p that does not continue a UTF-8 character. */
  function SkipContinuation(d: seq<Byte>, p: nat): (q: nat)
    requires p <= |d|
    ensures p <= q <= |d|
    ensures forall i :: p <= i < q ==> IsContinuation(d[i])
    ensures q < |d| ==> !IsContinuation(d[q])
    decreases |d| - p
  {
    if p == |d| || !IsContinuation(d[p]) then p else SkipContinuation(d, p + 1)
  }
}
