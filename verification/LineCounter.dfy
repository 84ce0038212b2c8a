/**
 * Counting newlines between two addresses: the memchr() loop and the vectorised form.
 *
 * Memory is a sequence that starts at a 16-byte boundary, so an index has the alignment of its address.
 */
module LineCounter {
  import opened Bytes
  import opened Lines
  import opened Bits

  /** First newline in [lo, hi), as memchr() finds it. */
  function MemChrNewline(mem: seq<Byte>, lo: nat, hi: nat): (r: Option<nat>)
    requires lo <= hi <= |mem|
    ensures r.None? ==> NoNewline(mem, lo, hi)
    ensures r.Some? ==> lo <= r.value < hi && mem[r.value] == NEWLINE && NoNewline(mem, lo, r.value)
    decreases hi - lo
  {
    if lo == hi then None else if mem[lo] == NEWLINE then Some(lo) else MemChrNewline(mem, lo + 1, hi)
  }

  /** CountLinesSinceLastMatch_default(). */
  method CountLinesDefault(mem: seq<Byte>, begin: nat, end: nat) returns (lines: nat)
    requires begin <= end <= |mem|
    ensures lines == CountIn(mem, begin, end)
  {
    lines := 0;
    var last := begin;
    while true
      invariant begin <= last <= end
      invariant lines == CountIn(mem, begin, last)
      decreases end - last
    {
      var hit := MemChrNewline(mem, last, end);
      CountSplit(mem, begin, last, end);
      if hit.None? {
        CountZero(mem, last, end);
        break;
      }
      CountZero(mem, last, hit.value);
      CountSplit(mem, begin, last, hit.value);
      lines := lines + 1;
      last := hit.value + 1;
    }
  }

  /** _mm_cmpeq_epi8() and _mm_movemask_epi8(): which bytes of mem[lo..hi] are '\n'. */
  function NewlineLanes(mem: seq<Byte>, lo: nat, hi: nat): (lanes: seq<bool>)
    requires lo <= hi <= |mem|
    ensures |lanes| == hi - lo
  {
    seq(hi - lo, i requires 0 <= i < hi - lo => mem[lo + i] == NEWLINE)
  }

  lemma {:induction false} BitCountOfLanes(mem: seq<Byte>, lo: nat, hi: nat)
    requires lo <= hi <= |mem|
    ensures BitCount(NewlineLanes(mem, lo, hi)) == CountIn(mem, lo, hi)
    decreases hi - lo
  {
    if lo < hi {
      BitCountOfLanes(mem, lo + 1, hi);
      assert NewlineLanes(mem, lo, hi)[1..] == NewlineLanes(mem, lo + 1, hi);
      CountSplit(mem, lo, lo + 1, hi);
      assert CountIn(mem, lo, lo) == 0;
    }
  }

  /** The lanes before the start masked off, and those behind the end when the text ends inside the block. */
  function PrologueMask(lanes: Mask, numUnaligned: nat, len: nat): Mask
    requires numUnaligned < 16
  {
    var mask := And(lanes, OnesShiftedLeft(16 - numUnaligned));
    if len < numUnaligned then And(mask, OnesShiftedRight(numUnaligned - len)) else mask
  }

  /** What the masks leave are exactly the lanes of the text. */
  lemma PrologueMaskCounts(mem: seq<Byte>, block: nat, numUnaligned: nat, len: nat)
    requires block + 16 <= |mem| && 0 < numUnaligned < 16
    ensures BitCount(PrologueMask(NewlineLanes(mem, block, block + 16), numUnaligned, len)) ==
            CountIn(mem, block + 16 - numUnaligned,
                    block + 16 - numUnaligned + if len < numUnaligned then len else numUnaligned)
  {
    hide BitCount, CountIn, NewlineLanes, PrologueMask;
    var lo := 16 - numUnaligned;
    var hi := lo + if len < numUnaligned then len else numUnaligned;
    PrologueLanes(mem, block, numUnaligned, len);
    BitCountWithin(PrologueMask(NewlineLanes(mem, block, block + 16), numUnaligned, len), lo, hi);
    BitCountOfLanes(mem, block + lo, block + hi);
  }

  /** Lane by lane: the newlines of the text inside it, nothing outside it. */
  lemma PrologueLanes(mem: seq<Byte>, block: nat, numUnaligned: nat, len: nat)
    requires block + 16 <= |mem| && 0 < numUnaligned < 16
    ensures var lo := 16 - numUnaligned;
            var hi := lo + if len < numUnaligned then len else numUnaligned;
            var mask := PrologueMask(NewlineLanes(mem, block, block + 16), numUnaligned, len);
            && |mask| == 16 && mask[lo..hi] == NewlineLanes(mem, block + lo, block + hi)
            && forall i :: 0 <= i < 16 && !(lo <= i < hi) ==> !mask[i]
  {
    var lo := 16 - numUnaligned;
    var hi := lo + if len < numUnaligned then len else numUnaligned;
    var lanes := NewlineLanes(mem, block, block + 16);
    var mask := PrologueMask(lanes, numUnaligned, len);
    forall i | lo <= i < hi ensures mask[i] == NewlineLanes(mem, block + lo, block + hi)[i - lo] {
      assert mask[i] == lanes[i];
    }
  }

  /**
   * memcnt_prologue() for '\n': reads the aligned block that holds the unaligned start and ignores what lies
   * before the start and behind the end.
   */
  method MemCntPrologue(mem: seq<Byte>, start: nat, numUnaligned: nat, len: nat) returns (count: nat)
    requires 0 < numUnaligned < 16 && start % 16 == 16 - numUnaligned
    requires start + numUnaligned <= |mem|
    ensures count == CountIn(mem, start, start + if len < numUnaligned then len else numUnaligned)
  {
    var block := start - (16 - numUnaligned);
    var lanes := NewlineLanes(mem, block, block + 16);
    count := PopCount16(PrologueMask(lanes, numUnaligned, len));
    PrologueMaskCounts(mem, block, numUnaligned, len);
  }

  lemma CountStep(mem: seq<Byte>, lo: nat, hi: nat)
    requires lo <= hi < |mem|
    ensures CountIn(mem, lo, hi + 1) == CountIn(mem, lo, hi) + (if mem[hi] == NEWLINE then 1 else 0)
  {
  }

  /** The vectorised CountLinesSinceLastMatch(): prologue, aligned blocks, epilogue. */
  method CountLines(mem: seq<Byte>, begin: nat, end: nat) returns (lines: nat)
    requires begin <= end && end + 15 <= |mem|
    ensures lines == CountIn(mem, begin, end)
  {
    hide CountIn, BitCount, NewlineLanes;
    CountZero(mem, begin, begin);
    lines := 0;
    var last := begin;
    var len := end - begin;
    var startOffset := begin % 16;

    if startOffset != 0 {
      var numUnaligned := 16 - startOffset;
      var n := MemCntPrologue(mem, begin, numUnaligned, len);
      lines := lines + n;
      var consumed := if len < numUnaligned then len else numUnaligned;
      len := len - consumed;
      last := last + consumed;
    }
    assert last + len == end && lines == CountIn(mem, begin, last);
    if len == 0 {
      return;
    }

    var numEpilogue := end % 16;
    var onePastLastAligned := end - numEpilogue;
    assert last % 16 == 0;
    if last < onePastLastAligned {
      var numAligned := onePastLastAligned - last;
      while last < onePastLastAligned
        invariant begin <= last <= onePastLastAligned && last % 16 == 0
        invariant lines == CountIn(mem, begin, last)
      {
        var n := PopCount16(NewlineLanes(mem, last, last + 16));
        BitCountOfLanes(mem, last, last + 16);
        CountSplit(mem, begin, last, last + 16);
        lines := lines + n;
        last := last + 16;
      }
      len := len - numAligned;
    }
    assert len < 16;

    while len > 0
      invariant begin <= last && 0 <= len && last + len == end
      invariant lines == CountIn(mem, begin, last)
    {
      CountStep(mem, begin, last);
      if mem[last] == NEWLINE {
        lines := lines + 1;
      }
      last := last + 1;
      len := len - 1;
    }
  }
}
