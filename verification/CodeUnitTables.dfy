/** The first-code-unit table and the range table of a pattern, and the SSE searches over them. */
module CodeUnitTables {
  import opened Bytes
  import opened Bits
  import opened Sse

  // ---------------------------------------------------------------- what a table holds

  /** A table of single bytes, or of byte pairs that stand for inclusive ranges. */
  datatype Kind = Singles | Pairs

  ghost predicate Member(kind: Kind, table: seq<Byte>, b: Byte) {
    match kind
    case Singles => exists i :: 0 <= i < |table| && table[i] == b
    case Pairs => exists i :: 0 <= 2 * i < |table| - 1 && table[2 * i] <= b <= table[2 * i + 1]
  }

  /** The leftmost position in [lo, hi) whose byte the table accepts; hi when there is none. */
  ghost function FirstAccepted(kind: Kind, table: seq<Byte>, mem: seq<Byte>, lo: nat, hi: nat): (r: nat)
    requires lo <= hi <= |mem|
    ensures lo <= r <= hi
    ensures forall q :: lo <= q < r ==> !Member(kind, table, mem[q])
    ensures r < hi ==> Member(kind, table, mem[r])
    decreases hi - lo
  {
    if lo == hi || Member(kind, table, mem[lo]) then lo else FirstAccepted(kind, table, mem, lo + 1, hi)
  }

  lemma FirstAcceptedIs(kind: Kind, table: seq<Byte>, mem: seq<Byte>, lo: nat, hi: nat, r: nat)
    requires lo <= r <= hi <= |mem|
    requires forall q :: lo <= q < r ==> !Member(kind, table, mem[q])
    requires r < hi ==> Member(kind, table, mem[r])
    ensures FirstAccepted(kind, table, mem, lo, hi) == r
  {
    var f := FirstAccepted(kind, table, mem, lo, hi);
  }

  // ---------------------------------------------------------------- building the tables

  function Pow2(n: nat): (p: nat)
    ensures p > 0
  {
    if n == 0 then 1 else 2 * Pow2(n - 1)
  }

  /** Bit i of PCRE2's 256-bit map of possible first code units. */
  predicate BitSet(bitmap: seq<Byte>, i: nat)
    requires |bitmap| == 32 && i < 256
  {
    bitmap[i / 8] / Pow2(i % 8) % 2 == 1
  }

  lemma HalfThenDivide(x: nat, j: nat)
    requires j < 7
    ensures x / Pow2(j + 1) == x / 2 / Pow2(j)
  {
    assert Pow2(0) == 1 && Pow2(1) == 2 && Pow2(2) == 4 && Pow2(3) == 8;
    assert Pow2(4) == 16 && Pow2(5) == 32 && Pow2(6) == 64 && Pow2(7) == 128;
  }

  lemma HalfFits(x: nat, n: nat)
    requires n > 0 && x < Pow2(n)
    ensures x / 2 < Pow2(n - 1) && x / Pow2(0) == x
  {
  }

  /** The n lowest bits of a number, the least significant first, are the number. */
  lemma {:induction false} LowBits(x: nat, n: nat)
    requires n <= 8 && x < Pow2(n)
    ensures Value(seq(n, j requires 0 <= j < n => x / Pow2(j) % 2 == 1)) == x
  {
    var bits := seq(n, j requires 0 <= j < n => x / Pow2(j) % 2 == 1);
    if n == 0 {
      assert x < Pow2(0);
    } else {
      hide Pow2;
      var half := seq(n - 1, j requires 0 <= j < n - 1 => x / 2 / Pow2(j) % 2 == 1);
      HalfFits(x, n);
      forall j | 0 <= j < n - 1 ensures bits[1..][j] == half[j] {
        HalfThenDivide(x, j);
      }
      assert bits[1..] == half;
      LowBits(x / 2, n - 1);
      assert bits[0] == (x % 2 == 1);
    }
  }

  function BitsOf(bitmap: seq<Byte>, k: nat): seq<bool>
    requires |bitmap| == 32 && k < 32
  {
    seq(8, j requires 0 <= j < 8 => BitSet(bitmap, 8 * k + j))
  }

  lemma BitOfByte(bitmap: seq<Byte>, k: nat, j: nat)
    requires |bitmap| == 32 && k < 32 && j < 8
    ensures BitSet(bitmap, 8 * k + j) <==> bitmap[k] / Pow2(j) % 2 == 1
  {
    assert (8 * k + j) / 8 == k && (8 * k + j) % 8 == j;
  }

  /** Eight bits make up each byte of the map, the least significant first. */
  lemma BitsMakeUpTheMap(bitmap: seq<Byte>, k: nat)
    requires |bitmap| == 32 && k < 32
    ensures Value(BitsOf(bitmap, k)) == bitmap[k]
  {
    assert Pow2(4) == 16 && Pow2(8) == 256;
    LowBits(bitmap[k], 8);
    var bits := seq(8, j requires 0 <= j < 8 => bitmap[k] / Pow2(j) % 2 == 1);
    forall j | 0 <= j < 8 ensures BitsOf(bitmap, k)[j] == bits[j] {
      BitOfByte(bitmap, k, j);
    }
    assert BitsOf(bitmap, k) == bits;
  }

  predicate Ascending(s: seq<Byte>) {
    forall i, j :: 0 <= i < j < |s| ==> s[i] < s[j]
  }

  /** The bytes from i on whose bit is set, in ascending order. */
  function SetBytes(bitmap: seq<Byte>, i: nat): seq<Byte>
    requires |bitmap| == 32 && i <= 256
    decreases 256 - i
  {
    if i == 256 then [] else if BitSet(bitmap, i) then [i] + SetBytes(bitmap, i + 1) else SetBytes(bitmap, i + 1)
  }

  lemma SetBytesStep(bitmap: seq<Byte>, i: nat, before: seq<Byte>)
    requires |bitmap| == 32 && i < 256
    ensures before + SetBytes(bitmap, i) ==
            (if BitSet(bitmap, i) then before + [i] else before) + SetBytes(bitmap, i + 1)
  {
    hide BitSet;
    if BitSet(bitmap, i) {
      assert before + ([i] + SetBytes(bitmap, i + 1)) == (before + [i]) + SetBytes(bitmap, i + 1);
    }
  }

  lemma SetBytesEnd(bitmap: seq<Byte>, before: seq<Byte>)
    requires |bitmap| == 32
    ensures before + SetBytes(bitmap, 256) == before
  {
  }

  /** The code unit table is the sorted list of the bits set. */
  lemma {:induction false} SetBytesAreTheBits(bitmap: seq<Byte>, i: nat)
    requires |bitmap| == 32 && i <= 256
    ensures Ascending(SetBytes(bitmap, i)) && |SetBytes(bitmap, i)| <= 256 - i
    ensures forall b: Byte :: Member(Singles, SetBytes(bitmap, i), b) <==> i <= b && BitSet(bitmap, b)
    decreases 256 - i
  {
    if i < 256 {
      var rest := SetBytes(bitmap, i + 1);
      SetBytesAreTheBits(bitmap, i + 1);
      forall k | 0 <= k < |rest| ensures i < rest[k] {
        assert Member(Singles, rest, rest[k]);
      }
      if BitSet(bitmap, i) {
        var all := [i] + rest;
        forall b: Byte ensures Member(Singles, all, b) <==> b == i || Member(Singles, rest, b) {
          if Member(Singles, rest, b) {
            var k :| 0 <= k < |rest| && rest[k] == b;
            assert all[k + 1] == b;
          }
          assert all[0] == i;
        }
      }
    }
  }

  lemma AscendingStep(s: seq<Byte>, i: nat)
    requires Ascending(s) && 0 < i < |s|
    ensures s[i - 1] < s[i]
  {
  }

  /** The runs of consecutive bytes of a table, as pairs: the run [first, last] is open, entry i is next. */
  function RunsFrom(table: seq<Byte>, i: nat, first: Byte, last: Byte): seq<Byte>
    requires i <= |table|
    decreases |table| - i
  {
    if i == |table| then [first, last]
    else if table[i] == last + 1 then RunsFrom(table, i + 1, first, table[i])
    else [first, last] + RunsFrom(table, i + 1, table[i], table[i])
  }

  function Runs(table: seq<Byte>): seq<Byte> {
    if table == [] then [] else RunsFrom(table, 1, table[0], table[0])
  }

  /** Whole pairs, in ascending order, neither overlapping nor touching: the runs are maximal. */
  ghost predicate Separated(r: seq<Byte>) {
    && |r| % 2 == 0
    && (forall k :: 0 <= 2 * k < |r| - 1 ==> r[2 * k] <= r[2 * k + 1])
    && (forall k :: 0 <= 2 * k < |r| - 2 ==> r[2 * k + 1] as int + 1 < r[2 * k + 2])
  }

  lemma SeparatedCons(first: Byte, last: Byte, rest: seq<Byte>)
    requires first <= last && Separated(rest) && (rest != [] ==> last + 1 < rest[0])
    ensures Separated([first, last] + rest)
    ensures forall b: Byte :: Member(Pairs, [first, last] + rest, b) <==> first <= b <= last || Member(Pairs, rest, b)
  {
    var r := [first, last] + rest;
    forall k | 0 <= 2 * k < |r| - 1 ensures r[2 * k] <= r[2 * k + 1] {
      if k > 0 {
        assert r[2 * k] == rest[2 * (k - 1)];
        assert r[2 * k + 1] == rest[2 * (k - 1) + 1];
      }
    }
    forall k | 0 <= 2 * k < |r| - 2 ensures r[2 * k + 1] as int + 1 < r[2 * k + 2] {
      if k > 0 {
        assert r[2 * k + 1] == rest[2 * (k - 1) + 1];
        assert r[2 * k + 2] == rest[2 * (k - 1) + 2];
      }
    }
    hide Separated;
    forall b: Byte ensures Member(Pairs, r, b) <==> first <= b <= last || Member(Pairs, rest, b) {
      MemberCons(first, last, rest, b);
    }
  }

  /** One more pair in front accepts its own bytes as well. */
  lemma MemberCons(first: Byte, last: Byte, rest: seq<Byte>, b: Byte)
    ensures Member(Pairs, [first, last] + rest, b) <==> first <= b <= last || Member(Pairs, rest, b)
  {
    var r := [first, last] + rest;
    if first <= b <= last {
      assert r[2 * 0] <= b <= r[2 * 0 + 1];
    }
    if Member(Pairs, rest, b) {
      var k :| 0 <= 2 * k < |rest| - 1 && rest[2 * k] <= b <= rest[2 * k + 1];
      assert r[2 * (k + 1)] <= b <= r[2 * (k + 1) + 1];
    }
    if Member(Pairs, r, b) {
      var k :| 0 <= 2 * k < |r| - 1 && r[2 * k] <= b <= r[2 * k + 1];
      if k > 0 {
        assert rest[2 * (k - 1)] <= b <= rest[2 * (k - 1) + 1];
      }
    }
  }

  lemma {:induction false} RunsFromAreMaximal(table: seq<Byte>, i: nat, first: Byte, last: Byte)
    requires Ascending(table) && i <= |table| && first <= last
    requires i < |table| ==> last < table[i]
    ensures Separated(RunsFrom(table, i, first, last))
    ensures RunsFrom(table, i, first, last) != [] && RunsFrom(table, i, first, last)[0] == first
    ensures forall b: Byte :: Member(Pairs, RunsFrom(table, i, first, last), b) <==>
                              first <= b <= last || Member(Singles, table[i..], b)
    decreases |table| - i
  {
    if i == |table| {
      SeparatedCons(first, last, []);
      assert [first, last] + [] == [first, last];
    } else {
      forall b: Byte ensures Member(Singles, table[i..], b) <==> b == table[i] || Member(Singles, table[i + 1..], b) {
        assert table[i..] == [table[i]] + table[i + 1..];
        if Member(Singles, table[i + 1..], b) {
          var k :| 0 <= k < |table[i + 1..]| && table[i + 1..][k] == b;
          assert table[i..][k + 1] == b;
        }
        assert table[i..][0] == table[i];
      }
      if table[i] == last + 1 {
        RunsFromAreMaximal(table, i + 1, first, table[i]);
      } else {
        RunsFromAreMaximal(table, i + 1, table[i], table[i]);
        SeparatedCons(first, last, RunsFrom(table, i + 1, table[i], table[i]));
      }
    }
  }

  lemma RunsStart(table: seq<Byte>)
    requires table != []
    ensures Runs(table) == RunsFrom(table, 1, table[0], table[0])
  {
  }

  lemma RunsFromStep(table: seq<Byte>, i: nat, first: Byte, last: Byte)
    requires i < |table|
    ensures RunsFrom(table, i, first, last) ==
            if table[i] == last + 1 then RunsFrom(table, i + 1, first, table[i])
            else [first, last] + RunsFrom(table, i + 1, table[i], table[i])
  {
  }

  lemma RunsEnd(table: seq<Byte>, first: Byte, last: Byte)
    ensures RunsFrom(table, |table|, first, last) == [first, last]
  {
  }

  lemma Regroup(a: seq<Byte>, b: seq<Byte>, c: seq<Byte>)
    ensures a + (b + c) == (a + b) + c
  {
  }

  /** The range table: maximal, disjoint, non-adjacent runs that accept just the bytes of the code unit table. */
  lemma RunsAreMaximal(table: seq<Byte>)
    requires Ascending(table)
    ensures Separated(Runs(table))
    ensures forall b: Byte :: Member(Pairs, Runs(table), b) <==> Member(Singles, table, b)
  {
    if table != [] {
      RunsFromAreMaximal(table, 1, table[0], table[0]);
      forall b: Byte ensures Member(Singles, table, b) <==> b == table[0] || Member(Singles, table[1..], b) {
        if Member(Singles, table[1..], b) {
          var k :| 0 <= k < |table[1..]| && table[1..][k] == b;
          assert table[k + 1] == b;
        }
      }
    }
  }

  // ---------------------------------------------------------------- searching

  /** One PCMPESTRI: the first lane of the text block that the chunk of the table accepts; 16 when none is. */
  function Cmp(kind: Kind, chunk: Reg, la: nat, block: Reg, lb: nat): (r: nat)
    ensures r <= 16
  {
    match kind
    case Singles => CmpEqualAny(chunk, la, block, lb)
    case Pairs => CmpRanges(chunk, la, block, lb)
  }

  /** The chunks of the table in turn; the first chunk with a hit decides. */
  function FirstChunkHit(kind: Kind, bitmap: seq<Byte>, end: nat, block: Reg, lb: nat, j: nat): (r: nat)
    requires |bitmap| == 256 && end <= 256 && j % 16 == 0
    ensures r <= 16
    decreases end - j
  {
    if j + 16 <= end then
      var r := Cmp(kind, bitmap[j..j + 16], 16, block, lb);
      if r < 16 then r else FirstChunkHit(kind, bitmap, end, block, lb, j + 16)
    else if j < end then
      Cmp(kind, bitmap[j..j + 16], end % 16, block, lb)
    else 16
  }

  function Min(a: nat, b: nat): nat {
    if a < b then a else b
  }

  /** The blocks of the text in turn, from offset i on. */
  function BlockSearch(kind: Kind, bitmap: seq<Byte>, end: nat, mem: seq<Byte>, begin: nat, len: nat, i: nat): (r: nat)
    requires |bitmap| == 256 && end <= 256 && begin + len + 15 <= |mem|
    ensures begin + Min(i, len) <= r <= begin + len
    decreases len - i
  {
    if i >= len then begin + len
    else
      var hit := FirstChunkHit(kind, bitmap, end, mem[begin + i..begin + i + 16], Min(16, len - i), 0);
      if hit < 16 then Min(begin + i + hit, begin + len)
      else BlockSearch(kind, bitmap, end, mem, begin, len, i + 16)
  }

  // ---------------------------------------------------------------- what the search finds

  lemma MemberSplit(kind: Kind, s: seq<Byte>, t: seq<Byte>, b: Byte)
    requires |s| % 2 == 0
    ensures Member(kind, s + t, b) <==> Member(kind, s, b) || Member(kind, t, b)
  {
    var st := s + t;
    match kind
    case Singles =>
      if Member(kind, t, b) {
        var i :| 0 <= i < |t| && t[i] == b;
        assert st[|s| + i] == b;
      }
      if Member(kind, s, b) {
        var i :| 0 <= i < |s| && s[i] == b;
        assert st[i] == b;
      }
    case Pairs =>
      var h := |s| / 2;
      if Member(kind, t, b) {
        var i :| 0 <= 2 * i < |t| - 1 && t[2 * i] <= b <= t[2 * i + 1];
        assert st[2 * (h + i)] <= b <= st[2 * (h + i) + 1];
      }
      if Member(kind, s, b) {
        var i :| 0 <= 2 * i < |s| - 1 && s[2 * i] <= b <= s[2 * i + 1];
        assert st[2 * i] <= b <= st[2 * i + 1];
      }
      if Member(kind, st, b) {
        var i :| 0 <= 2 * i < |st| - 1 && st[2 * i] <= b <= st[2 * i + 1];
        if i >= h {
          assert st[2 * i] == t[2 * (i - h)] && st[2 * i + 1] == t[2 * (i - h) + 1];
        }
      }
  }

  /** A lane is set when it is text and the valid part of the chunk accepts it. */
  lemma CmpMeaning(kind: Kind, chunk: Reg, la: nat, block: Reg, lb: nat)
    requires la <= 16
    ensures forall t :: 0 <= t < Cmp(kind, chunk, la, block, lb) && t < lb ==> !Member(kind, chunk[..la], block[t])
    ensures var r := Cmp(kind, chunk, la, block, lb); r < 16 ==> r < lb && Member(kind, chunk[..la], block[r])
  {
    var r := Cmp(kind, chunk, la, block, lb);
    forall t | 0 <= t < 16 && t < lb
      ensures EqualAny(chunk, la, block, lb, t) <==> Member(Singles, chunk[..la], block[t])
      ensures Ranges(chunk, la, block, lb, t) <==> Member(Pairs, chunk[..la], block[t])
    {
      LaneIsMember(chunk, la, block, lb, t);
    }
  }

  lemma LaneIsMember(chunk: Reg, la: nat, block: Reg, lb: nat, t: nat)
    requires la <= 16 && t < 16 && t < lb
    ensures EqualAny(chunk, la, block, lb, t) <==> Member(Singles, chunk[..la], block[t])
    ensures Ranges(chunk, la, block, lb, t) <==> Member(Pairs, chunk[..la], block[t])
  {
    var b := block[t];
    if EqualAny(chunk, la, block, lb, t) {
      var i :| 0 <= i < 16 && i < la && chunk[i] == b;
      assert chunk[..la][i] == b;
    }
    if Member(Pairs, chunk[..la], b) {
      var i :| 0 <= 2 * i < la - 1 && chunk[..la][2 * i] <= b <= chunk[..la][2 * i + 1];
      assert 0 <= i < 8 && 2 * i + 1 < la && chunk[2 * i] <= b <= chunk[2 * i + 1];
    }
    if Ranges(chunk, la, block, lb, t) {
      var i :| 0 <= i < 8 && 2 * i + 1 < la && chunk[2 * i] <= b <= chunk[2 * i + 1];
      assert chunk[..la][2 * i] <= b <= chunk[..la][2 * i + 1];
    }
  }

  /** One block: a hit is accepted text, no hit means none, and with one chunk the hit is the first. */
  lemma {:induction false} ChunkHitMeaning(kind: Kind, bitmap: seq<Byte>, end: nat, block: Reg, lb: nat, j: nat)
    requires |bitmap| == 256 && j <= end <= 256 && j % 16 == 0
    ensures var r := FirstChunkHit(kind, bitmap, end, block, lb, j);
            && (r < 16 ==> r < lb && Member(kind, bitmap[j..end], block[r]))
            && (forall t :: 0 <= t < 16 && t < lb && (r == 16 || (end - j <= 16 && t < r)) ==>
                  !Member(kind, bitmap[j..end], block[t]))
    decreases end - j
  {
    hide Cmp, Member;
    var r := FirstChunkHit(kind, bitmap, end, block, lb, j);
    if j + 16 <= end {
      var chunk := bitmap[j..j + 16];
      assert chunk[..16] == chunk;
      CmpMeaning(kind, chunk, 16, block, lb);
      ChunkHitMeaning(kind, bitmap, end, block, lb, j + 16);
      assert bitmap[j..end] == chunk + bitmap[j + 16..end];
      forall b: Byte ensures Member(kind, bitmap[j..end], b) <==>
                             Member(kind, chunk, b) || Member(kind, bitmap[j + 16..end], b) {
        MemberSplit(kind, chunk, bitmap[j + 16..end], b);
      }
      if end - j <= 16 {
        EmptyTable(kind, bitmap[j + 16..end]);
      }
    } else if j < end {
      CmpMeaning(kind, bitmap[j..j + 16], end % 16, block, lb);
      assert bitmap[j..j + 16][..end % 16] == bitmap[j..end];
    } else {
      EmptyTable(kind, bitmap[j..end]);
    }
  }

  lemma EmptyTable(kind: Kind, table: seq<Byte>)
    requires |table| == 0
    ensures forall b: Byte :: !Member(kind, table, b)
  {
  }

  /**
   * The whole search.  In every case a hit is accepted, no earlier block holds an accepted byte, and the end
   * is returned only when there is none; a table of one chunk gives the leftmost position.
   */
  lemma {:induction false} BlockSearchMeaning(kind: Kind, bitmap: seq<Byte>, end: nat, mem: seq<Byte>,
                                              begin: nat, len: nat, i: nat)
    requires |bitmap| == 256 && end <= 256 && begin + len + 15 <= |mem| && i % 16 == 0
    ensures var r := BlockSearch(kind, bitmap, end, mem, begin, len, i);
            && begin + Min(i, len) <= r <= begin + len
            && (r < begin + len ==> Member(kind, bitmap[..end], mem[r]))
            && (forall q :: begin + i <= q < begin + len &&
                  (r == begin + len || (q - begin) / 16 < (r - begin) / 16 || (end <= 16 && q < r))
                  ==> !Member(kind, bitmap[..end], mem[q]))
    decreases len - i
  {
    hide FirstChunkHit, Member;
    if i < len {
      var block := mem[begin + i..begin + i + 16];
      var lb := Min(16, len - i);
      ChunkHitMeaning(kind, bitmap, end, block, lb, 0);
      assert bitmap[0..end] == bitmap[..end];
      BlockSearchMeaning(kind, bitmap, end, mem, begin, len, i + 16);
      forall q | begin + i <= q < begin + i + 16 && q < begin + len ensures mem[q] == block[q - begin - i] {
      }
    }
  }

  /** With at most 16 entries the search is leftmost. */
  lemma BlockSearchIsLeftmost(kind: Kind, bitmap: seq<Byte>, end: nat, mem: seq<Byte>, begin: nat, len: nat)
    requires |bitmap| == 256 && end <= 16 && begin + len + 15 <= |mem|
    ensures BlockSearch(kind, bitmap, end, mem, begin, len, 0)
         == FirstAccepted(kind, bitmap[..end], mem, begin, begin + len)
  {
    var r := BlockSearch(kind, bitmap, end, mem, begin, len, 0);
    BlockSearchMeaning(kind, bitmap, end, mem, begin, len, 0);
    FirstAcceptedIs(kind, bitmap[..end], mem, begin, begin + len, r);
  }

  /** The tables the builders make: ascending bytes, or separated pairs. */
  ghost predicate WellFormed(kind: Kind, table: seq<Byte>) {
    match kind
    case Singles => Ascending(table)
    case Pairs => Separated(table)
  }

  lemma {:induction false} SeparatedPairsAscend(r: seq<Byte>, i: nat, j: nat)
    requires Separated(r) && i < j && 2 * j < |r|
    ensures r[2 * i + 1] < r[2 * j]
    decreases j
  {
    assert r[2 * (j - 1) + 1] as int + 1 < r[2 * (j - 1) + 2];
    if i < j - 1 {
      SeparatedPairsAscend(r, i, j - 1);
    }
  }

  /** The first chunk of a longer table does not accept the first byte of the second chunk. */
  lemma SecondChunkIsNew(kind: Kind, table: seq<Byte>)
    requires WellFormed(kind, table) && |table| > 16
    ensures !Member(kind, table[..16], table[16]) && Member(kind, table[..16], table[0])
    ensures Member(kind, table, table[16])
  {
    match kind
    case Singles =>
      assert table[..16][0] == table[0];
    case Pairs =>
      forall i | 0 <= 2 * i < 15 ensures table[2 * i + 1] < table[2 * 8] {
        SeparatedPairsAscend(table, i, 8);
      }
      assert table[..16][2 * 0] <= table[0] <= table[..16][2 * 0 + 1];
      assert table[2 * 8] <= table[16] <= table[2 * 8 + 1];
  }

  /** A text on which a longer table skips an accepted byte: the second chunk's byte, then the first chunk's. */
  lemma LongTableSkips(kind: Kind, bitmap: seq<Byte>, end: nat, mem: seq<Byte>)
    requires |bitmap| == 256 && 16 < end <= 256 && WellFormed(kind, bitmap[..end])
    requires mem == [bitmap[16], bitmap[0]] + seq(16, i => 0)
    ensures BlockSearch(kind, bitmap, end, mem, 0, 2, 0) == 1
    ensures FirstAccepted(kind, bitmap[..end], mem, 0, 2) == 0
  {
    hide Cmp, Member;
    var table := bitmap[..end];
    SecondChunkIsNew(kind, table);
    var block := mem[0..16];
    var chunk := bitmap[0..16];
    assert chunk[..16] == table[..16];
    CmpMeaning(kind, chunk, 16, block, 2);
    assert block[0] == table[16] && block[1] == table[0];
    assert Cmp(kind, chunk, 16, block, 2) == 1;
    assert FirstChunkHit(kind, bitmap, end, block, 2, 0) == 1;
    assert mem[0] == table[16];
  }

  /** On all texts the search is leftmost exactly when the table has at most 16 entries. */
  lemma BlockSearchIsLeftmostIff(kind: Kind, bitmap: seq<Byte>, end: nat)
    requires |bitmap| == 256 && end <= 256 && WellFormed(kind, bitmap[..end])
    ensures end <= 16 <==>
            forall mem: seq<Byte>, begin: nat, len: nat :: begin + len + 15 <= |mem| ==>
              FirstAccepted(kind, bitmap[..end], mem, begin, begin + len) ==
              BlockSearch(kind, bitmap, end, mem, begin, len, 0)
  {
    if end <= 16 {
      forall mem: seq<Byte>, begin: nat, len: nat | begin + len + 15 <= |mem|
        ensures BlockSearch(kind, bitmap, end, mem, begin, len, 0)
             == FirstAccepted(kind, bitmap[..end], mem, begin, begin + len)
      {
        BlockSearchIsLeftmost(kind, bitmap, end, mem, begin, len);
      }
    } else {
      var mem: seq<Byte> := [bitmap[16], bitmap[0]] + seq(16, i => 0);
      LongTableSkips(kind, bitmap, end, mem);
      assert BlockSearch(kind, bitmap, end, mem, 0, 2, 0) != FirstAccepted(kind, bitmap[..end], mem, 0, 0 + 2);
    }
  }

  /** Short tables of both kinds for one code unit set find the same position. */
  lemma BothTablesAgree(cu: seq<Byte>, cuEnd: nat, ranges: seq<Byte>, rangesEnd: nat,
                        mem: seq<Byte>, begin: nat, len: nat)
    requires |cu| == |ranges| == 256 && cuEnd <= 16 && rangesEnd <= 16 && begin + len + 15 <= |mem|
    requires Ascending(cu[..cuEnd]) && ranges[..rangesEnd] == Runs(cu[..cuEnd])
    ensures BlockSearch(Singles, cu, cuEnd, mem, begin, len, 0)
         == BlockSearch(Pairs, ranges, rangesEnd, mem, begin, len, 0)
  {
    BlockSearchIsLeftmost(Singles, cu, cuEnd, mem, begin, len);
    BlockSearchIsLeftmost(Pairs, ranges, rangesEnd, mem, begin, len);
    RunsAreMaximal(cu[..cuEnd]);
    FirstAcceptedIs(Pairs, ranges[..rangesEnd], mem, begin, begin + len,
                    FirstAccepted(Singles, cu[..cuEnd], mem, begin, begin + len));
  }

  class Tables {
    const compiledCuBitmap: array<Byte>
    var endFpcuTable: nat
    const compiledRangeBitmap: array<Byte>
    var endRangesTable: nat

    ghost predicate Valid()
      reads this
    {
      && compiledCuBitmap != compiledRangeBitmap
      && compiledCuBitmap.Length == 256 && compiledRangeBitmap.Length == 256
      && endFpcuTable <= 256 && endRangesTable <= 256
    }

    ghost function CodeUnits(): seq<Byte>
      reads this, compiledCuBitmap
      requires Valid()
    {
      compiledCuBitmap[..endFpcuTable]
    }

    ghost function RangePairs(): seq<Byte>
      reads this, compiledRangeBitmap
      requires Valid()
    {
      compiledRangeBitmap[..endRangesTable]
    }

    constructor ()
      ensures Valid() && CodeUnits() == [] && RangePairs() == []
      ensures fresh(compiledCuBitmap) && fresh(compiledRangeBitmap)
    {
      compiledCuBitmap := new Byte[256];
      compiledRangeBitmap := new Byte[256];
      endFpcuTable := 0;
      endRangesTable := 0;
    }

    method ConstructCodeUnitTable(bitmap: seq<Byte>)
      requires Valid() && |bitmap| == 32
      modifies this`endFpcuTable, compiledCuBitmap
      ensures Valid() && CodeUnits() == SetBytes(bitmap, 0)
    {
      hide BitSet, SetBytes;
      var outIndex: nat := 0;
      for i: nat := 0 to 256
        invariant outIndex <= i
        invariant compiledCuBitmap[..outIndex] + SetBytes(bitmap, i) == SetBytes(bitmap, 0)
      {
        ghost var before := compiledCuBitmap[..outIndex];
        SetBytesStep(bitmap, i, before);
        if BitSet(bitmap, i) {
          compiledCuBitmap[outIndex] := i;
          outIndex := outIndex + 1;
          assert compiledCuBitmap[..outIndex] == before + [i];
        }
      }
      SetBytesEnd(bitmap, compiledCuBitmap[..outIndex]);
      endFpcuTable := outIndex;
    }

    method ConstructRangePairTable()
      requires Valid() && Ascending(CodeUnits())
      modifies this`endRangesTable, compiledRangeBitmap
      ensures Valid() && CodeUnits() == old(CodeUnits()) && RangePairs() == Runs(CodeUnits())
    {
      if endFpcuTable == 0 {
        endRangesTable := 0;
        return;
      }
      hide Ascending, RunsFrom, Runs;
      ghost var table := CodeUnits();
      RunsStart(table);
      var outPairIndex: nat := 0;
      var firstRangeChar: Byte := compiledCuBitmap[0];
      var lastRangeChar: Byte := firstRangeChar;
      for i: nat := 1 to endFpcuTable
        invariant Valid() && table == CodeUnits()
        invariant outPairIndex % 2 == 0 && outPairIndex <= firstRangeChar <= lastRangeChar == table[i - 1]
        invariant compiledRangeBitmap[..outPairIndex] + RunsFrom(table, i, firstRangeChar, lastRangeChar) == Runs(table)
      {
        assert table[i] == compiledCuBitmap[i] && table[i - 1] < table[i] by {
          AscendingStep(table, i);
        }
        RunsFromStep(table, i, firstRangeChar, lastRangeChar);
        if compiledCuBitmap[i] == lastRangeChar + 1 {
          // One more consecutive byte.
          lastRangeChar := lastRangeChar + 1;
        } else {
          // A gap closes the pair.
          ghost var done := compiledRangeBitmap[..outPairIndex];
          outPairIndex := PutPair(outPairIndex, firstRangeChar, lastRangeChar);
          Regroup(done, [firstRangeChar, lastRangeChar], RunsFrom(table, i + 1, table[i], table[i]));
          firstRangeChar := compiledCuBitmap[i];
          lastRangeChar := firstRangeChar;
        }
      }
      // What is open at the end is a pair too.
      RunsEnd(table, firstRangeChar, lastRangeChar);
      outPairIndex := PutPair(outPairIndex, firstRangeChar, lastRangeChar);
      endRangesTable := outPairIndex;
    }

    method PutPair(outPairIndex: nat, first: Byte, last: Byte) returns (next: nat)
      requires Valid() && outPairIndex + 2 <= 256
      modifies compiledRangeBitmap
      ensures next == outPairIndex + 2
      ensures compiledRangeBitmap[..next] == old(compiledRangeBitmap[..outPairIndex]) + [first, last]
    {
      compiledRangeBitmap[outPairIndex] := first;
      compiledRangeBitmap[outPairIndex + 1] := last;
      next := outPairIndex + 2;
    }

    /** The table of one code unit that PCRE2 names itself. */
    method SetSingleCodeUnit(b: Byte)
      requires Valid()
      modifies this`endFpcuTable, compiledCuBitmap
      ensures Valid() && CodeUnits() == [b]
    {
      compiledCuBitmap[0] := b;
      endFpcuTable := 1;
    }

    /** find_first_of() and find_first_in_ranges(): the same two loops over the two tables. */
    method FindFirst(kind: Kind, mem: seq<Byte>, begin: nat, len: nat) returns (r: nat)
      requires Valid() && begin + len + 15 <= |mem|
      ensures kind.Singles? ==> r == BlockSearch(kind, compiledCuBitmap[..], endFpcuTable, mem, begin, len, 0)
      ensures kind.Pairs? ==> r == BlockSearch(kind, compiledRangeBitmap[..], endRangesTable, mem, begin, len, 0)
    {
      hide FirstChunkHit;
      var bitmap, end := compiledCuBitmap, endFpcuTable;
      if kind.Pairs? {
        bitmap, end := compiledRangeBitmap, endRangesTable;
      }
      var i := 0;
      while i < len
        invariant BlockSearch(kind, bitmap[..], end, mem, begin, len, 0)
               == BlockSearch(kind, bitmap[..], end, mem, begin, len, i)
      {
        var lsbSet := FirstHitInBlock(kind, bitmap, end, mem[begin + i..begin + i + 16], Min(16, len - i));
        if lsbSet < 16 {
          return Min(begin + i + lsbSet, begin + len);
        }
        i := i + 16;
      }
      return begin + len;
    }

    /** The loop over the whole chunks of the table, and the partial one. */
    static method FirstHitInBlock(kind: Kind, bitmap: array<Byte>, end: nat, block: Reg, lenA: nat) returns (r: nat)
      requires bitmap.Length == 256 && end <= 256
      ensures r == FirstChunkHit(kind, bitmap[..], end, block, lenA, 0)
    {
      hide Cmp;
      var j := 0;
      while j < end - end % 16
        invariant j % 16 == 0 && j <= end - end % 16
        invariant FirstChunkHit(kind, bitmap[..], end, block, lenA, 0)
               == FirstChunkHit(kind, bitmap[..], end, block, lenA, j)
      {
        r := Cmp(kind, bitmap[j..j + 16], 16, block, lenA);
        assert bitmap[j..j + 16] == bitmap[..][j..j + 16];
        if r < 16 {
          return;
        }
        j := j + 16;
      }
      if j < end {
        r := Cmp(kind, bitmap[j..j + 16], end % 16, block, lenA);
        assert bitmap[j..j + 16] == bitmap[..][j..j + 16];
      } else {
        r := 16;
      }
    }

    /** find(): the search for one code unit, by compare, movemask and find-first-set. */
    method Find(mem: seq<Byte>, begin: nat, len: nat) returns (r: nat)
      requires Valid() && endFpcuTable == 1 && begin + len + 15 <= |mem|
      ensures r == FirstAccepted(Singles, CodeUnits(), mem, begin, begin + len)
    {
      ghost var table := CodeUnits();
      var sought := compiledCuBitmap[0];
      assert table[0] == sought;
      var i: nat := 0;
      while i < len
        invariant forall q :: begin <= q < begin + Min(i, len) ==> mem[q] != sought
      {
        var lanes := seq(16, k requires 0 <= k < 16 => mem[begin + i + k] == sought);
        if Value(lanes) > 0 {
          var lowestBit := FindFirstSetBit(lanes);
          if lowestBit > 0 && i + lowestBit - 1 < len {
            r := Min(begin + i + lowestBit - 1, begin + len);
            forall q | begin + i <= q < r ensures mem[q] != sought {
              assert lanes[q - begin - i] == (mem[q] == sought);
            }
            FirstAcceptedIs(Singles, table, mem, begin, begin + len, r);
            return;
          }
        }
        ZeroHasNoBits(lanes);
        forall q | begin + i <= q < begin + i + 16 && q < begin + len ensures mem[q] != sought {
          assert lanes[q - begin - i] == (mem[q] == sought);
        }
        i := i + 16;
      }
      FirstAcceptedIs(Singles, table, mem, begin, begin + len, begin + len);
      return begin + len;
    }

    /** FindFirstPossibleCodeUnit_default(): the search by the code unit table. */
    method FindFirstPossibleCodeUnit(mem: seq<Byte>, begin: nat, len: nat) returns (r: nat)
      requires Valid() && begin + len + 15 <= |mem|
      ensures begin <= r <= begin + len
      ensures r < begin + len ==> Member(Singles, CodeUnits(), mem[r])
      ensures r == BlockSearch(Singles, compiledCuBitmap[..], endFpcuTable, mem, begin, len, 0)
      ensures endFpcuTable <= 16 ==> r == FirstAccepted(Singles, CodeUnits(), mem, begin, begin + len)
    {
      assert compiledCuBitmap[..][..endFpcuTable] == CodeUnits();
      if endFpcuTable <= 16 {
        BlockSearchIsLeftmost(Singles, compiledCuBitmap[..], endFpcuTable, mem, begin, len);
      }
      if endFpcuTable > 1 {
        r := FindFirst(Singles, mem, begin, len);
        BlockSearchMeaning(Singles, compiledCuBitmap[..], endFpcuTable, mem, begin, len, 0);
      } else if endFpcuTable == 1 {
        r := Find(mem, begin, len);
      } else {
        r := begin + len;
        EmptyTable(Singles, CodeUnits());
        FirstAcceptedIs(Singles, CodeUnits(), mem, begin, begin + len, r);
      }
    }

    /** The search by the range table, as the scan loop calls it. */
    method FindFirstInRanges(mem: seq<Byte>, begin: nat, len: nat) returns (r: nat)
      requires Valid() && begin + len + 15 <= |mem|
      ensures begin <= r <= begin + len
      ensures r < begin + len ==> Member(Pairs, RangePairs(), mem[r])
      ensures r == BlockSearch(Pairs, compiledRangeBitmap[..], endRangesTable, mem, begin, len, 0)
      ensures endRangesTable <= 16 ==> r == FirstAccepted(Pairs, RangePairs(), mem, begin, begin + len)
    {
      r := FindFirst(Pairs, mem, begin, len);
      BlockSearchMeaning(Pairs, compiledRangeBitmap[..], endRangesTable, mem, begin, len, 0);
      if endRangesTable <= 16 {
        BlockSearchIsLeftmost(Pairs, compiledRangeBitmap[..], endRangesTable, mem, begin, len);
      }
      assert compiledRangeBitmap[..][..endRangesTable] == RangePairs();
    }
  }
}
