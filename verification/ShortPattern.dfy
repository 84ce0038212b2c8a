/** memmem_short_pattern(): SSE4.2 search for a pattern of at most 16 bytes in zero-padded memory. */
module ShortPattern {
  import opened Bytes
  import opened Sse

  const VEC_SIZE: nat := 16

  /** At least 15 zero bytes follow the memory to search. */
  predicate ZeroPadded(mem: seq<Byte>, memLen: nat) {
    memLen + 15 <= |mem| && forall i :: memLen <= i < memLen + 15 ==> mem[i] == 0
  }

  /** End of the whole 16-byte blocks: memlen & vec_size_mask. */
  function WholeBlocks(memLen: nat): nat {
    memLen - memLen % VEC_SIZE
  }

  function Load(mem: seq<Byte>, p: nat): Reg
    requires p + VEC_SIZE <= |mem|
  {
    mem[p..p + VEC_SIZE]
  }

  /** What the block loops and the tail find from p1 on. */
  function SearchFrom(mem: seq<Byte>, memLen: nat, patt: Reg, pattLen: nat, p1: nat): Option<nat>
    requires 1 <= pattLen <= VEC_SIZE && memLen + 15 <= |mem|
    decreases memLen - p1
  {
    if p1 < WholeBlocks(memLen) then
      var frag := Load(mem, p1);
      var fsb := CmpEqualOrdered(patt, pattLen, frag, VEC_SIZE);
      if patt[0] !in frag || fsb == VEC_SIZE then SearchFrom(mem, memLen, patt, pattLen, p1 + VEC_SIZE)
      else if fsb + pattLen <= VEC_SIZE then Some(p1 + fsb)
      else SearchFrom(mem, memLen, patt, pattLen, p1 + fsb)
    else if p1 < memLen && pattLen <= memLen - p1 then
      var last := CmpEqualOrdered(patt, pattLen, Load(mem, p1), memLen - p1);
      if last != VEC_SIZE then Some(p1 + last) else None
    else None
  }

  function ShortMemmem(mem: seq<Byte>, memLen: nat, patt: Reg, pattLen: nat): Option<nat>
    requires pattLen <= VEC_SIZE && memLen + 15 <= |mem|
  {
    if pattLen > memLen || memLen == 0 || pattLen == 0 then None else SearchFrom(mem, memLen, patt, pattLen, 0)
  }

  /** One round of the search. */
  lemma SearchStep(mem: seq<Byte>, memLen: nat, patt: Reg, pattLen: nat, p1: nat)
    requires 1 <= pattLen <= VEC_SIZE && memLen + 15 <= |mem|
    ensures p1 < WholeBlocks(memLen) ==>
              var frag := Load(mem, p1);
              var fsb := CmpEqualOrdered(patt, pattLen, frag, VEC_SIZE);
              SearchFrom(mem, memLen, patt, pattLen, p1) ==
              if patt[0] !in frag || fsb == VEC_SIZE then SearchFrom(mem, memLen, patt, pattLen, p1 + VEC_SIZE)
              else if fsb + pattLen <= VEC_SIZE then Some(p1 + fsb)
              else SearchFrom(mem, memLen, patt, pattLen, p1 + fsb)
    ensures p1 >= WholeBlocks(memLen) ==>
              SearchFrom(mem, memLen, patt, pattLen, p1) ==
              if p1 < memLen && pattLen <= memLen - p1 then
                var last := CmpEqualOrdered(patt, pattLen, Load(mem, p1), memLen - p1);
                if last != VEC_SIZE then Some(p1 + last) else None
              else None
  {
    hide CmpEqualOrdered, Load;
  }

  /** The nested loops. */
  method MemmemShortPattern(mem: seq<Byte>, memLen: nat, patt: Reg, pattLen: nat) returns (r: Option<nat>)
    requires pattLen <= VEC_SIZE && memLen + 15 <= |mem|
    ensures r == ShortMemmem(mem, memLen, patt, pattLen)
  {
    hide CmpEqualOrdered, EqualOrdered, Load, SearchFrom;
    if pattLen > memLen || memLen == 0 || pattLen == 0 {
      return None;
    }
    var p1 := 0;
    while p1 < WholeBlocks(memLen)
      invariant SearchFrom(mem, memLen, patt, pattLen, 0) == SearchFrom(mem, memLen, patt, pattLen, p1)
      decreases memLen - p1
    {
      ghost var before := p1;
      // Block by block until one holds a hit.
      while p1 < WholeBlocks(memLen)
        invariant before <= p1
        invariant SearchFrom(mem, memLen, patt, pattLen, 0) == SearchFrom(mem, memLen, patt, pattLen, p1)
        decreases memLen - p1
      {
        SearchStep(mem, memLen, patt, pattLen, p1);
        var frag := Load(mem, p1);
        // Prefilter: is the first pattern byte in the block at all?
        if patt[0] !in frag {
          p1 := p1 + VEC_SIZE;
          continue;
        }
        var fsb := CmpEqualOrdered(patt, pattLen, frag, VEC_SIZE);
        if fsb < VEC_SIZE {
          if fsb + pattLen <= VEC_SIZE {
            return Some(p1 + fsb);
          } else {
            // Only a partial match: look again with the block aligned on it.
            p1 := p1 + fsb;
            break;
          }
        }
        p1 := p1 + VEC_SIZE;
      }
    }
    SearchStep(mem, memLen, patt, pattLen, p1);
    if p1 < memLen {
      var remaining := memLen - p1;
      if pattLen > remaining {
        return None;
      }
      var last := CmpEqualOrdered(patt, pattLen, Load(mem, p1), remaining);
      if last != VEC_SIZE {
        return Some(p1 + last);
      } else {
        return None;
      }
    }
    return None;
  }

  // ---------------------------------------------------------------- when it is a leftmost search

  /** The patterns for which zero padding cannot pretend to be text. */
  predicate ShortSearchable(patt: Reg, pattLen: nat)
    requires 1 <= pattLen <= VEC_SIZE
  {
    pattLen == 1 || patt[pattLen - 1] != 0
  }

  lemma LeftmostSkips(text: seq<Byte>, pattern: seq<Byte>, s: nat, t: nat)
    requires s <= t
    requires forall q :: s <= q < t ==> !OccursAt(text, pattern, q)
    ensures LeftmostFrom(text, pattern, s) == LeftmostFrom(text, pattern, t)
  {
    var r := LeftmostFrom(text, pattern, t);
    if r.Some? {
      LeftmostIsUnique(text, pattern, s, r.value);
    }
  }

  /** An occurrence in the text sets its lane, in every block that starts at most 15 bytes before it. */
  lemma OccurrenceSetsLane(mem: seq<Byte>, memLen: nat, patt: Reg, pattLen: nat, p: nat, q: nat, lb: nat)
    requires 1 <= pattLen <= VEC_SIZE && memLen <= |mem| && p + VEC_SIZE <= |mem|
    requires p <= q < p + VEC_SIZE && OccursAt(mem[..memLen], patt[..pattLen], q)
    requires lb == VEC_SIZE || p + lb == memLen
    ensures EqualOrdered(patt, pattLen, Load(mem, p), lb, q - p)
    ensures patt[0] in Load(mem, p)
  {
    var b := Load(mem, p);
    forall i | 0 <= i < VEC_SIZE - (q - p) && i < pattLen
      ensures q - p + i < lb && patt[i] == b[q - p + i]
    {
      assert mem[..memLen][q..q + pattLen][i] == patt[..pattLen][i];
    }
    assert b[q - p] == patt[0];
  }

  /** Every pattern byte that falls into the register matches, and none lies behind the explicit length. */
  lemma LaneByte(a: Reg, la: nat, b: Reg, lb: nat, j: nat, i: nat)
    requires EqualOrdered(a, la, b, lb, j) && i < 16 - j && i < la
    ensures j + i < lb && a[i] == b[j + i]
  {
  }

  /** With an explicit length below 16 only whole patterns set a lane. */
  lemma LaneFits(a: Reg, la: nat, b: Reg, lb: nat, j: nat)
    requires EqualOrdered(a, la, b, lb, j) && 1 <= la && j < 16 && lb < 16
    ensures j + la <= lb
  {
    LaneByte(a, la, b, lb, j, if la <= 16 - j then la - 1 else 15 - j);
  }

  lemma OccurrenceStarts(text: seq<Byte>, pattern: seq<Byte>, p: nat)
    requires OccursAt(text, pattern, p) && pattern != []
    ensures text[p] == pattern[0]
  {
    assert text[p..p + |pattern|][0] == pattern[0];
  }

  lemma OccurrenceEnds(text: seq<Byte>, pattern: seq<Byte>, p: nat)
    requires OccursAt(text, pattern, p) && pattern != []
    ensures text[p + |pattern| - 1] == pattern[|pattern| - 1]
  {
    assert text[p..p + |pattern|][|pattern| - 1] == pattern[|pattern| - 1];
  }

  /** A whole pattern in a register is an occurrence in memory. */
  lemma LaneIsOccurrence(mem: seq<Byte>, patt: Reg, pattLen: nat, p: nat, lb: nat, j: nat)
    requires 1 <= pattLen && p + VEC_SIZE <= |mem| && j + pattLen <= VEC_SIZE && lb <= VEC_SIZE
    requires EqualOrdered(patt, pattLen, Load(mem, p), lb, j)
    ensures OccursAt(mem, patt[..pattLen], p + j) && j + pattLen <= lb
  {
    var b := Load(mem, p);
    forall i | 0 <= i < pattLen ensures mem[p + j + i] == patt[i] {
      LaneByte(patt, pattLen, b, lb, j, i);
    }
    LaneByte(patt, pattLen, b, lb, j, pattLen - 1);
    assert mem[p + j..p + j + pattLen] == patt[..pattLen];
  }

  lemma OccursInText(mem: seq<Byte>, memLen: nat, pattern: seq<Byte>, q: nat)
    requires memLen <= |mem| && OccursAt(mem, pattern, q) && q + |pattern| <= memLen
    ensures OccursAt(mem[..memLen], pattern, q)
  {
    assert mem[..memLen][q..q + |pattern|] == mem[q..q + |pattern|];
  }

  /** A hit that the block loop reports lies within the text. */
  lemma HitInText(mem: seq<Byte>, memLen: nat, patt: Reg, pattLen: nat, p: nat, j: nat)
    requires 1 <= pattLen <= VEC_SIZE && ZeroPadded(mem, memLen)
    requires p < WholeBlocks(memLen) && j + pattLen <= VEC_SIZE
    requires patt[pattLen - 1] != 0 || (pattLen == 1 && p % VEC_SIZE == 0)
    requires EqualOrdered(patt, pattLen, Load(mem, p), VEC_SIZE, j)
    ensures OccursAt(mem[..memLen], patt[..pattLen], p + j)
  {
    LaneIsOccurrence(mem, patt, pattLen, p, VEC_SIZE, j);
    OccurrenceEnds(mem, patt[..pattLen], p + j);
    assert p % VEC_SIZE == 0 ==> p + VEC_SIZE <= WholeBlocks(memLen);
    OccursInText(mem, memLen, patt[..pattLen], p + j);
  }

  /** No occurrence starts in a block before its first lane, nor anywhere when the prefilter rejects it. */
  lemma NothingBeforeLane(mem: seq<Byte>, memLen: nat, patt: Reg, pattLen: nat, p: nat)
    requires 1 <= pattLen <= VEC_SIZE && memLen <= |mem| && p + VEC_SIZE <= |mem|
    ensures var none := if patt[0] !in Load(mem, p) then VEC_SIZE
                        else CmpEqualOrdered(patt, pattLen, Load(mem, p), VEC_SIZE);
            forall q :: p <= q < p + none ==> !OccursAt(mem[..memLen], patt[..pattLen], q)
  {
    forall q | p <= q < p + VEC_SIZE && OccursAt(mem[..memLen], patt[..pattLen], q)
      ensures EqualOrdered(patt, pattLen, Load(mem, p), VEC_SIZE, q - p) && patt[0] in Load(mem, p)
    {
      OccurrenceSetsLane(mem, memLen, patt, pattLen, p, q, VEC_SIZE);
    }
  }

  /** From any point on, the block search is the leftmost search. */
  lemma {:induction false} SearchFromIsLeftmost(mem: seq<Byte>, memLen: nat, patt: Reg, pattLen: nat, p1: nat)
    requires 1 <= pattLen <= VEC_SIZE && ZeroPadded(mem, memLen)
    requires patt[pattLen - 1] != 0 || (pattLen == 1 && (p1 < WholeBlocks(memLen) ==> p1 % VEC_SIZE == 0))
    ensures SearchFrom(mem, memLen, patt, pattLen, p1) == LeftmostFrom(mem[..memLen], patt[..pattLen], p1)
    decreases memLen - p1
  {
    hide CmpEqualOrdered, EqualOrdered, LeftmostFrom, OccursAt;
    var text, pattern := mem[..memLen], patt[..pattLen];
    if p1 < WholeBlocks(memLen) {
      var frag := Load(mem, p1);
      var fsb := CmpEqualOrdered(patt, pattLen, frag, VEC_SIZE);
      NothingBeforeLane(mem, memLen, patt, pattLen, p1);
      if patt[0] !in frag || fsb == VEC_SIZE {
        LeftmostSkips(text, pattern, p1, p1 + VEC_SIZE);
        SearchFromIsLeftmost(mem, memLen, patt, pattLen, p1 + VEC_SIZE);
      } else if fsb + pattLen <= VEC_SIZE {
        HitInText(mem, memLen, patt, pattLen, p1, fsb);
        LeftmostIsUnique(text, pattern, p1, p1 + fsb);
      } else {
        LeftmostSkips(text, pattern, p1, p1 + fsb);
        SearchFromIsLeftmost(mem, memLen, patt, pattLen, p1 + fsb);
      }
    } else if p1 < memLen && pattLen <= memLen - p1 {
      TailIsLeftmost(mem, memLen, patt, pattLen, p1);
    } else {
      NoRoom(text, pattern, p1);
    }
  }

  lemma NoRoom(text: seq<Byte>, pattern: seq<Byte>, p: nat)
    requires p + |pattern| > |text|
    ensures LeftmostFrom(text, pattern, p) == None
  {
  }

  /** The last, partial block. */
  lemma TailIsLeftmost(mem: seq<Byte>, memLen: nat, patt: Reg, pattLen: nat, p1: nat)
    requires 1 <= pattLen <= VEC_SIZE && memLen + 15 <= |mem|
    requires WholeBlocks(memLen) <= p1 < memLen && pattLen <= memLen - p1
    ensures SearchFrom(mem, memLen, patt, pattLen, p1) == LeftmostFrom(mem[..memLen], patt[..pattLen], p1)
  {
    hide EqualOrdered, OccursAt, LeftmostFrom, Load;
    SearchStep(mem, memLen, patt, pattLen, p1);
    var text, pattern := mem[..memLen], patt[..pattLen];
    var rest := memLen - p1;
    var last := CmpEqualOrdered(patt, pattLen, Load(mem, p1), rest);
    forall q | p1 <= q < p1 + last ensures !OccursAt(text, pattern, q) {
      if OccursAt(text, pattern, q) {
        OccurrenceSetsLane(mem, memLen, patt, pattLen, p1, q, rest);
      }
    }
    if last < VEC_SIZE {
      LaneFits(patt, pattLen, Load(mem, p1), rest, last);
      LaneIsOccurrence(mem, patt, pattLen, p1, rest, last);
      OccursInText(mem, memLen, pattern, p1 + last);
      LeftmostIsUnique(text, pattern, p1, p1 + last);
    } else {
      LeftmostSkips(text, pattern, p1, p1 + VEC_SIZE);
      NoRoom(text, pattern, p1 + VEC_SIZE);
    }
  }

  /** Where padding alone sets a lane, it sets the one before too. */
  lemma EarlierLane(mem: seq<Byte>, memLen: nat, patt: Reg, pattLen: nat, p: nat, j: nat)
    requires 1 <= pattLen <= VEC_SIZE && ZeroPadded(mem, memLen)
    requires p < WholeBlocks(memLen) && j + pattLen <= VEC_SIZE && p + j > memLen
    requires EqualOrdered(patt, pattLen, Load(mem, p), VEC_SIZE, j)
    ensures EqualOrdered(patt, pattLen, Load(mem, p), VEC_SIZE, j - 1)
  {
    forall i | 0 <= i < pattLen ensures patt[i] == 0 && Load(mem, p)[j - 1 + i] == 0 {
      LaneByte(patt, pattLen, Load(mem, p), VEC_SIZE, j, i);
    }
  }

  /** A whole pattern is never found behind the end of the text. */
  lemma HitNotBehindEnd(mem: seq<Byte>, memLen: nat, patt: Reg, pattLen: nat, p: nat, j: nat)
    requires 1 <= pattLen <= VEC_SIZE && ZeroPadded(mem, memLen)
    requires p < WholeBlocks(memLen) && j + pattLen <= VEC_SIZE
    requires j == CmpEqualOrdered(patt, pattLen, Load(mem, p), VEC_SIZE)
    ensures p + j <= memLen
  {
    hide EqualOrdered;
    if p + j > memLen {
      EarlierLane(mem, memLen, patt, pattLen, p, j);
    }
  }

  /** What the search means for every pattern: leftmost, or found half in the padding when there is no other. */
  ghost predicate Meaning(text: seq<Byte>, pattern: seq<Byte>, s: nat, r: Option<nat>) {
    match r
    case None => LeftmostFrom(text, pattern, s) == None
    case Some(p) =>
      s <= p <= |text| && LeftmostFrom(text, pattern, s) == if p + |pattern| <= |text| then Some(p) else None
  }

  /** A full hit with nothing before it. */
  lemma HitMeaning(mem: seq<Byte>, memLen: nat, patt: Reg, pattLen: nat, p: nat, j: nat)
    requires 1 <= pattLen <= VEC_SIZE && ZeroPadded(mem, memLen)
    requires p < WholeBlocks(memLen) && j + pattLen <= VEC_SIZE
    requires j == CmpEqualOrdered(patt, pattLen, Load(mem, p), VEC_SIZE)
    requires forall q :: p <= q < p + j ==> !OccursAt(mem[..memLen], patt[..pattLen], q)
    ensures Meaning(mem[..memLen], patt[..pattLen], p, Some(p + j))
  {
    hide EqualOrdered, CmpEqualOrdered, OccursAt, LeftmostFrom;
    var text, pattern := mem[..memLen], patt[..pattLen];
    HitNotBehindEnd(mem, memLen, patt, pattLen, p, j);
    if p + j + pattLen <= memLen {
      LaneIsOccurrence(mem, patt, pattLen, p, VEC_SIZE, j);
      OccursInText(mem, memLen, pattern, p + j);
      LeftmostIsUnique(text, pattern, p, p + j);
    } else {
      LeftmostSkips(text, pattern, p, p + j);
      NoRoom(text, pattern, p + j);
    }
  }

  lemma MeaningSkips(text: seq<Byte>, pattern: seq<Byte>, s: nat, t: nat, r: Option<nat>)
    requires s <= t && Meaning(text, pattern, t, r)
    requires forall q :: s <= q < t ==> !OccursAt(text, pattern, q)
    ensures Meaning(text, pattern, s, r)
  {
    LeftmostSkips(text, pattern, s, t);
  }

  lemma {:induction false} SearchFromMeaning(mem: seq<Byte>, memLen: nat, patt: Reg, pattLen: nat, p1: nat)
    requires 1 <= pattLen <= VEC_SIZE && ZeroPadded(mem, memLen)
    ensures Meaning(mem[..memLen], patt[..pattLen], p1, SearchFrom(mem, memLen, patt, pattLen, p1))
    decreases memLen - p1
  {
    hide CmpEqualOrdered, EqualOrdered, LeftmostFrom, OccursAt, Meaning;
    var text, pattern := mem[..memLen], patt[..pattLen];
    SearchStep(mem, memLen, patt, pattLen, p1);
    if p1 < WholeBlocks(memLen) {
      var frag := Load(mem, p1);
      var fsb := CmpEqualOrdered(patt, pattLen, frag, VEC_SIZE);
      NothingBeforeLane(mem, memLen, patt, pattLen, p1);
      if patt[0] !in frag || fsb == VEC_SIZE {
        SearchFromMeaning(mem, memLen, patt, pattLen, p1 + VEC_SIZE);
        MeaningSkips(text, pattern, p1, p1 + VEC_SIZE, SearchFrom(mem, memLen, patt, pattLen, p1 + VEC_SIZE));
      } else if fsb + pattLen <= VEC_SIZE {
        HitMeaning(mem, memLen, patt, pattLen, p1, fsb);
      } else {
        SearchFromMeaning(mem, memLen, patt, pattLen, p1 + fsb);
        MeaningSkips(text, pattern, p1, p1 + fsb, SearchFrom(mem, memLen, patt, pattLen, p1 + fsb));
      }
    } else if p1 < memLen && pattLen <= memLen - p1 {
      TailIsLeftmost(mem, memLen, patt, pattLen, p1);
      LeftmostMeaning(text, pattern, p1);
    } else {
      NoRoom(text, pattern, p1);
      LeftmostMeaning(text, pattern, p1);
    }
  }

  lemma LeftmostMeaning(text: seq<Byte>, pattern: seq<Byte>, s: nat)
    ensures Meaning(text, pattern, s, LeftmostFrom(text, pattern, s))
  {
    var r := LeftmostFrom(text, pattern, s);
  }

  /** Whatever the pattern, no occurrence is missed; one found that is none has no occurrence behind it. */
  lemma ShortMemmemMeaning(mem: seq<Byte>, memLen: nat, patt: Reg, pattLen: nat)
    requires 1 <= pattLen <= VEC_SIZE && ZeroPadded(mem, memLen)
    ensures Meaning(mem[..memLen], patt[..pattLen], 0, ShortMemmem(mem, memLen, patt, pattLen))
  {
    if pattLen > memLen {
      NoRoom(mem[..memLen], patt[..pattLen], 0);
    } else {
      SearchFromMeaning(mem, memLen, patt, pattLen, 0);
    }
  }

  /** For searchable patterns and zero-padded memory the routine is memmem(). */
  lemma ShortMemmemIsLeftmost(mem: seq<Byte>, memLen: nat, patt: Reg, pattLen: nat)
    requires 1 <= pattLen <= VEC_SIZE && ShortSearchable(patt, pattLen) && ZeroPadded(mem, memLen)
    ensures ShortMemmem(mem, memLen, patt, pattLen) == LeftmostFrom(mem[..memLen], patt[..pattLen], 0)
  {
    SearchFromIsLeftmost(mem, memLen, patt, pattLen, 0);
  }

  /** Sixteen bytes that end with all of the pattern but its last byte, and zero padding. */
  function PretendingMemory(patt: Reg, pattLen: nat): seq<Byte>
    requires 2 <= pattLen <= VEC_SIZE
  {
    var filler: Byte := if patt[0] == 1 then 2 else 1;
    seq(17 - pattLen, i => filler) + patt[..pattLen - 1] + seq(16, i => 0)
  }

  /** The pretended occurrence, in the first block and in the block aligned on it. */
  lemma PretendedLanes(patt: Reg, pattLen: nat)
    requires 2 <= pattLen <= VEC_SIZE && patt[pattLen - 1] == 0
    ensures var mem, q := PretendingMemory(patt, pattLen), 17 - pattLen;
            && |mem| == 32 && (forall i :: 16 <= i < 32 ==> mem[i] == 0)
            && (forall i :: 0 <= i < q ==> mem[i] != patt[0])
            && mem[q] == patt[0]
            && EqualOrdered(patt, pattLen, Load(mem, 0), VEC_SIZE, q)
            && EqualOrdered(patt, pattLen, Load(mem, q), VEC_SIZE, 0)
  {
    var mem, q := PretendingMemory(patt, pattLen), 17 - pattLen;
    forall i | 0 <= i < pattLen ensures mem[q + i] == patt[i] {
    }
  }

  lemma FirstLaneIs(patt: Reg, pattLen: nat, frag: Reg, j: nat)
    requires 1 <= pattLen <= VEC_SIZE && j < VEC_SIZE
    requires EqualOrdered(patt, pattLen, frag, VEC_SIZE, j)
    requires forall i :: 0 <= i < j ==> frag[i] != patt[0]
    ensures CmpEqualOrdered(patt, pattLen, frag, VEC_SIZE) == j && patt[0] in frag
  {
    var r := CmpEqualOrdered(patt, pattLen, frag, VEC_SIZE);
    LaneByte(patt, pattLen, frag, VEC_SIZE, r, 0);
    LaneByte(patt, pattLen, frag, VEC_SIZE, j, 0);
  }

  /** A longer pattern that ends in NUL is found where only padding completes it. */
  lemma PaddingPretends(patt: Reg, pattLen: nat)
    requires 2 <= pattLen <= VEC_SIZE && patt[pattLen - 1] == 0
    ensures ZeroPadded(PretendingMemory(patt, pattLen), 16)
    ensures ShortMemmem(PretendingMemory(patt, pattLen), 16, patt, pattLen) == Some(17 - pattLen)
    ensures LeftmostFrom(PretendingMemory(patt, pattLen)[..16], patt[..pattLen], 0) == None
  {
    hide EqualOrdered, CmpEqualOrdered, SearchFrom, PretendingMemory;
    var mem, q := PretendingMemory(patt, pattLen), 17 - pattLen;
    PretendedLanes(patt, pattLen);
    FirstLaneIs(patt, pattLen, Load(mem, 0), q);
    FirstLaneIs(patt, pattLen, Load(mem, q), 0);
    SearchStep(mem, 16, patt, pattLen, 0);
    SearchStep(mem, 16, patt, pattLen, q);
    var text, pattern := mem[..16], patt[..pattLen];
    forall p: nat ensures !OccursAt(text, pattern, p) {
      if OccursAt(text, pattern, p) {
        OccurrenceStarts(text, pattern, p);
      }
    }
  }

  /** The routine is a leftmost search on all zero-padded memory exactly for the searchable patterns. */
  lemma ShortMemmemIsLeftmostIff(patt: Reg, pattLen: nat)
    requires 1 <= pattLen <= VEC_SIZE
    ensures ShortSearchable(patt, pattLen) <==>
            forall mem: seq<Byte>, memLen: nat :: ZeroPadded(mem, memLen) ==>
              ShortMemmem(mem, memLen, patt, pattLen) == LeftmostFrom(mem[..memLen], patt[..pattLen], 0)
  {
    if ShortSearchable(patt, pattLen) {
      forall mem: seq<Byte>, memLen: nat | ZeroPadded(mem, memLen)
        ensures ShortMemmem(mem, memLen, patt, pattLen) == LeftmostFrom(mem[..memLen], patt[..pattLen], 0)
      {
        ShortMemmemIsLeftmost(mem, memLen, patt, pattLen);
      }
    } else {
      PaddingPretends(patt, pattLen);
    }
  }
}
