/** The PCRE2 file scanner: choice of search mode, literal search, and the scan loop. */
module Scanner {
  import opened Bytes
  import opened Lines
  import opened ShortPattern
  import opened CodeUnitTables
  import opened LiteralPrefix
  import opened LiteralSearch
  import opened ScanSpec
  import opened ScanLoop
  import opened ScanResults
  import opened LiteralLines
  import opened Utf8
  import LineCounter

  const PCRE2_ERROR_NOMATCH: int := -1

  class MatchList {
    var filename: string
    var matches: seq<Match>

    constructor ()
      ensures matches == [] && filename == ""
    {
      filename := "";
      matches := [];
    }

    method AddMatch(m: Match)
      modifies this`matches
      ensures matches == old(matches) + [m]
    {
      matches := matches + [m];
    }
  }

  /** The Match constructor; None when it throws because the match ends behind its line or behind the file. */
  method MakeMatch(buf: seq<Byte>, fileSize: nat, start: nat, end: nat, line: nat) returns (r: Option<Match>)
    requires start <= end && start <= fileSize <= |buf|
    ensures var d := buf[..fileSize];
            && (r.Some? <==> end <= fileSize && NoNewline(d, start, end))
            && (end <= fileSize && NoNewline(d, start, end) && line == LineOf(d, start) ==>
                  r == Some(MatchAt(d, start, end)))
            // The parts make up the line.
            && (r.Some? ==> r.value.line == line
                            && exists lo: nat, hi: nat :: ShowsLine(d, r.value, lo, start, end, hi))
  {
    ghost var d := buf[..fileSize];
    // Backwards to the newline before.
    var lineStart: nat := start;
    while lineStart > 0 && buf[lineStart - 1] != NEWLINE
      invariant lineStart <= start && LineStart(d, lineStart) == LineStart(d, start)
    {
      lineStart := lineStart - 1;
    }
    // Forwards to the newline behind, or to the end.
    var lineEnd: nat := start;
    while lineEnd < fileSize && buf[lineEnd] != NEWLINE
      invariant start <= lineEnd <= fileSize && LineEnd(d, lineEnd) == LineEnd(d, start)
    {
      lineEnd := lineEnd + 1;
    }
    assert lineEnd == LineEnd(d, start) && lineStart == LineStart(d, start);
    assert end <= lineEnd <==> end <= fileSize && NoNewline(d, start, end);
    if lineEnd < end {
      return None;
    }
    r := Some(Match(buf[lineStart..start], buf[start..end], buf[end..lineEnd], line));
    SliceOfPrefix(buf, fileSize, lineStart, start);
    SliceOfPrefix(buf, fileSize, start, end);
    SliceOfPrefix(buf, fileSize, end, lineEnd);
    MatchAtShowsLine(d, start, end);
    assert ShowsLine(d, r.value, lineStart, start, end, lineEnd);
  }

  lemma SliceOfPrefix(buf: seq<Byte>, size: nat, lo: nat, hi: nat)
    requires lo <= hi <= size <= |buf|
    ensures buf[..size][lo..hi] == buf[lo..hi]
  {
  }

  /** What pcre2_pattern_info() says about where a match can begin. */
  datatype PatternInfo = PatternInfo(firstBitmap: Option<seq<Byte>>, firstCodeType: nat, firstCodeUnit: Byte)

  /** The matcher keeps what PCRE2 says; a single first code unit means nothing when case is ignored. */
  ghost predicate Conforms(d: seq<Byte>, m: Matcher, info: PatternInfo, ignoreCase: bool)
    requires Valid(d, m) && (info.firstBitmap.Some? ==> |info.firstBitmap.value| == 32)
  {
    && (info.firstBitmap.Some? ==>
          forall p :: 0 <= p <= |d| && m.at[p].Some? ==> p < |d| && BitSet(info.firstBitmap.value, d[p]))
    && (info.firstBitmap.None? && info.firstCodeType == 1 && !ignoreCase ==>
          forall p :: 0 <= p <= |d| && m.at[p].Some? ==> p < |d| && d[p] == info.firstCodeUnit)
  }

  /** What the expression stands for: its own bytes with -Q, otherwise a pattern with that text. */
  ghost predicate Expresses(regex: seq<Byte>, patternIsLiteral: bool, p: Pattern) {
    if patternIsLiteral then p == [LiteralItems(regex)] else WellFormedPattern(p) && regex == Render(p)
  }

  /** The matcher of a pattern: what it matches, the pattern's syntax allows. */
  ghost predicate Implements(d: seq<Byte>, m: Matcher, p: Pattern)
    requires Valid(d, m)
  {
    forall q :: 0 <= q <= |d| && m.at[q].Some? ==> PatternMatches(p, d[q..m.at[q].value])
  }

  /** The engine does PCRE2's work for this matcher: in its place, or by skipping only where nothing can match. */
  ghost predicate Serves(e: Engine, d: seq<Byte>, m: Matcher)
    requires Valid(d, m) && EngineOk(d, e)
  {
    match e
    case Literally(literal) => FindsExactly(d, m, [LiteralItems(literal)])
    case Regex(own, shortcut) => own == m && ShortcutSound(shortcut, d, m)
  }

  /** A table that is not longer than one register, or no table. */
  predicate EngineFits(e: Engine) {
    e.Regex? ==> Fits(e.shortcut)
  }

  /** The shorter of the bitmap's two tables; the pairs when they are equally long. */
  function TableFor(bitmap: seq<Byte>): seq<Byte>
    requires |bitmap| == 32
  {
    var units := SetBytes(bitmap, 0);
    if |units| < |Runs(units)| then units else Runs(units)
  }

  // ---------------------------------------------------------------- long tables

  lemma RunsOfSome(table: seq<Byte>)
    requires Ascending(table)
    ensures Runs(table) == [] <==> table == []
  {
    if table != [] {
      RunsFromAreMaximal(table, 1, table[0], table[0]);
    }
  }

  /** No two consecutive bytes. */
  predicate Apart(table: seq<Byte>) {
    forall k :: 0 <= k < |table| - 1 ==> table[k] as int + 1 < table[k + 1]
  }

  lemma {:induction false} RunsOfApart(table: seq<Byte>, i: nat)
    requires Apart(table) && 0 < i <= |table|
    ensures |RunsFrom(table, i, table[i - 1], table[i - 1])| == 2 * (|table| - i) + 2
    decreases |table| - i
  {
    if i < |table| {
      RunsOfApart(table, i + 1);
    }
  }

  /** Of possible first bytes of which no two are consecutive, the table of single bytes is used. */
  lemma ApartUsesSingles(bitmap: seq<Byte>)
    requires |bitmap| == 32 && forall i :: 0 <= i < 255 ==> !(BitSet(bitmap, i) && BitSet(bitmap, i + 1))
    requires SetBytes(bitmap, 0) != []
    ensures TableFor(bitmap) == SetBytes(bitmap, 0)
  {
    hide BitSet, SetBytes;
    var units := SetBytes(bitmap, 0);
    SetBytesAreTheBits(bitmap, 0);
    forall k | 0 <= k < |units| - 1 ensures units[k] as int + 1 < units[k + 1] {
      assert Member(Singles, units, units[k]) && Member(Singles, units, units[k + 1]);
    }
    RunsOfApart(units, 1);
  }

  /** The bits of the bytes 1, 3, and so on up to 33. */
  function SeventeenBits(): (r: seq<Byte>)
    ensures |r| == 32
  {
    [170, 170, 170, 170, 2] + seq(27, i => 0)
  }

  lemma SeventeenBitsAre(i: nat)
    requires i < 256
    ensures BitSet(SeventeenBits(), i) <==> i % 2 == 1 && i < 34
  {
    assert Pow2(0) == 1 && Pow2(1) == 2 && Pow2(2) == 4 && Pow2(3) == 8;
    assert Pow2(4) == 16 && Pow2(5) == 32 && Pow2(6) == 64 && Pow2(7) == 128;
    var b := SeventeenBits();
    assert i / 8 > 4 ==> b[i / 8] == 0;
  }

  lemma {:induction false} ManyBits(bitmap: seq<Byte>, k: nat)
    requires |bitmap| == 32 && k <= 17 && forall i :: 0 <= i < 17 ==> BitSet(bitmap, 2 * i + 1)
    ensures |SetBytes(bitmap, 2 * k)| >= 17 - k
    decreases 17 - k
  {
    hide BitSet;
    if k < 17 {
      ManyBits(bitmap, k + 1);
      assert |SetBytes(bitmap, 2 * k + 1)| == 1 + |SetBytes(bitmap, 2 * k + 2)|;
    }
  }

  /** An expression that can begin with 17 bytes, no two of them consecutive, gets a table of more than 16. */
  lemma LongTablesAreUsed()
    ensures |TableFor(SeventeenBits())| > 16
    ensures TableFor(SeventeenBits()) == SetBytes(SeventeenBits(), 0)
  {
    hide BitSet, SetBytes, SeventeenBits, TableFor;
    forall i: nat | i < 256 ensures BitSet(SeventeenBits(), i) <==> i % 2 == 1 && i < 34 {
      SeventeenBitsAre(i);
    }
    ManyBits(SeventeenBits(), 0);
    ApartUsesSingles(SeventeenBits());
  }

  class FileScannerPCRE2 {
    const ignoreCase: bool
    const wordRegexp: bool
    const patternIsLiteral: bool
    const tables: Tables
    var useFirstCodeUnitTable: bool
    var useRangePairTable: bool
    var useLiteral: bool
    var useLitPrefix: bool
    var literalSearchString: seq<Byte>

    ghost predicate Valid()
      reads this, tables
    {
      tables.Valid()
    }

    /** The branch the scan loop takes to pass over text. */
    ghost function ShortcutInUse(): (r: Shortcut)
      requires Valid()
      reads this, tables, tables.compiledCuBitmap, tables.compiledRangeBitmap
      ensures ShortcutOk(r)
    {
      if useLitPrefix then Prefix(literalSearchString)
      else if useFirstCodeUnitTable then Table(Singles, tables.compiledCuBitmap[..], tables.endFpcuTable)
      else if useRangePairTable then Table(Pairs, tables.compiledRangeBitmap[..], tables.endRangesTable)
      else NoShortcut
    }

    /** How the scan loop finds the matches of an expression. */
    ghost function EngineFor(m: Matcher): Engine
      requires Valid()
      reads this, tables, tables.compiledCuBitmap, tables.compiledRangeBitmap
    {
      if useLiteral then Literally(literalSearchString) else Regex(m, ShortcutInUse())
    }

    /** The loop ends for every literal but the empty one. */
    predicate Searchable()
      reads this
    {
      useLiteral ==> literalSearchString != []
    }

    constructor (ignoreCase: bool, wordRegexp: bool, patternIsLiteral: bool)
      ensures Valid() && !useLiteral && ShortcutInUse() == NoShortcut
      ensures this.ignoreCase == ignoreCase && this.wordRegexp == wordRegexp
      ensures this.patternIsLiteral == patternIsLiteral
      ensures fresh(tables) && fresh(tables.compiledCuBitmap) && fresh(tables.compiledRangeBitmap)
      ensures tables.CodeUnits() == [] && tables.RangePairs() == []
    {
      this.ignoreCase := ignoreCase;
      this.wordRegexp := wordRegexp;
      this.patternIsLiteral := patternIsLiteral;
      useFirstCodeUnitTable, useRangePairTable, useLiteral, useLitPrefix := false, false, false, false;
      literalSearchString := [];
      var t := new Tables();
      tables := t;
    }

    /** The first half of AnalyzeRegex(): the tables of first code units, and whether one is used. */
    method ChooseTable(info: PatternInfo)
      requires Valid() && ShortcutInUse() == NoShortcut
      requires tables.CodeUnits() == [] && tables.RangePairs() == []
      requires info.firstBitmap.Some? ==> |info.firstBitmap.value| == 32
      modifies this`useFirstCodeUnitTable, this`useRangePairTable, tables
      modifies tables.compiledCuBitmap, tables.compiledRangeBitmap
      ensures Valid()
      ensures useRangePairTable ==> info.firstBitmap.Some? && !useFirstCodeUnitTable
      ensures info.firstBitmap.Some? ==> (ShortcutInUse().Table? <==> SetBytes(info.firstBitmap.value, 0) != [])
      ensures info.firstBitmap.None? ==> (ShortcutInUse().Table? <==> info.firstCodeType == 1 && !ignoreCase)
      ensures ShortcutInUse().Table? && info.firstBitmap.Some? ==>
                ShortcutInUse().bitmap[..ShortcutInUse().end] == TableFor(info.firstBitmap.value)
      ensures ShortcutInUse().Table? ==>
                WellFormed(ShortcutInUse().kind, ShortcutInUse().bitmap[..ShortcutInUse().end])
      ensures forall d: seq<Byte>, m: Matcher :: ScanSpec.Valid(d, m) && Conforms(d, m, info, ignoreCase) ==>
                ShortcutSound(ShortcutInUse(), d, m)
    {
      hide SetBytes, BitSet;
      if info.firstBitmap.Some? {
        ghost var bitmap := info.firstBitmap.value;
        tables.ConstructCodeUnitTable(info.firstBitmap.value);
        SetBytesAreTheBits(bitmap, 0);
        tables.ConstructRangePairTable();
        RunsAreMaximal(tables.CodeUnits());
        RunsOfSome(tables.CodeUnits());
        // The shorter of the two tables needs fewer comparisons.
        if tables.endFpcuTable > 0 && tables.endFpcuTable < tables.endRangesTable {
          useFirstCodeUnitTable := true;
        } else if tables.endRangesTable > 0 {
          useRangePairTable := true;
        }
      } else if info.firstCodeType == 1 && !ignoreCase {
        tables.SetSingleCodeUnit(info.firstCodeUnit);
        assert tables.CodeUnits()[0] == info.firstCodeUnit;
        useFirstCodeUnitTable := true;
      }
      TableInUse();
    }

    /** AnalyzeRegex(), from the state the constructor leaves. */
    method AnalyzeRegex(regex: seq<Byte>, info: PatternInfo)
      requires Valid() && !useLiteral && ShortcutInUse() == NoShortcut
      requires tables.CodeUnits() == [] && tables.RangePairs() == []
      requires info.firstBitmap.Some? ==> |info.firstBitmap.value| == 32
      modifies this, tables, tables.compiledCuBitmap, tables.compiledRangeBitmap
      ensures Valid()
      // The literal search replaces PCRE2 exactly for caseful whole patterns without metacharacters or with -Q.
      ensures useLiteral <==> !ignoreCase && !wordRegexp && (patternIsLiteral || IsPatternLiteral(regex))
      ensures useLiteral ==> literalSearchString == regex
      ensures info.firstBitmap.Some? && !useLitPrefix ==>
                (ShortcutInUse().Table? <==> SetBytes(info.firstBitmap.value, 0) != [])
      // A single first code unit says nothing when case is ignored.
      ensures info.firstBitmap.None? && !useLitPrefix ==>
                (ShortcutInUse().Table? <==> info.firstCodeType == 1 && !ignoreCase)
      ensures useLitPrefix ==> !useLiteral && 1 < GetLiteralPrefixLen(regex) <= |regex|
                               && literalSearchString == regex[..GetLiteralPrefixLen(regex)]
      ensures ShortcutInUse().Table? && info.firstBitmap.Some? ==>
                ShortcutInUse().bitmap[..ShortcutInUse().end] == TableFor(info.firstBitmap.value)
      ensures ShortcutInUse().Table? ==>
                WellFormed(ShortcutInUse().kind, ShortcutInUse().bitmap[..ShortcutInUse().end])
      // Whatever is chosen does PCRE2's work for every matcher of the expression.
      ensures forall d: seq<Byte>, m: Matcher, p: Pattern ::
                ScanSpec.Valid(d, m) && Conforms(d, m, info, ignoreCase) && Expresses(regex, patternIsLiteral, p)
                && (useLiteral ==> FindsExactly(d, m, p)) && (useLitPrefix ==> Implements(d, m, p))
                ==> Serves(EngineFor(m), d, m)
    {
      hide SetBytes, Runs, BitSet, GetLiteralPrefixLen, IsPatternLiteral, FindsExactly, Implements, Conforms;
      hide WellFormed, TableFor, Render, LiteralItems;
      ChooseTable(info);
      if !ignoreCase && !wordRegexp {
        if patternIsLiteral || IsPatternLiteral(regex) {
          literalSearchString := regex;
          useLiteral := true;
          if !patternIsLiteral {
            LiteralPatternIsItsText(regex);
          }
        } else if useFirstCodeUnitTable {
          var litPrefixLen := GetLiteralPrefixLen(regex);
          if litPrefixLen > 1 {
            PrefixFits(regex);
            literalSearchString := regex[..litPrefixLen];
            useLitPrefix := true;
            forall d: seq<Byte>, m: Matcher, p: Pattern |
              ScanSpec.Valid(d, m) && WellFormedPattern(p) && regex == Render(p) && Implements(d, m, p)
              ensures ShortcutSound(Prefix(literalSearchString), d, m)
            {
              PrefixOpensMatches(d, m, p);
            }
          }
        }
      }
    }

    /** The table that the shortcut holds, in terms of what the tables accept. */
    lemma TableInUse()
      requires Valid() && !useLitPrefix
      ensures var r := ShortcutInUse();
              r.Table? ==> r.bitmap[..r.end] == if r.kind.Singles? then tables.CodeUnits() else tables.RangePairs()
    {
    }

    /** LiteralMatch_sse4_2(): the SSE search for up to 16 bytes, memmem() for more.  Sets both offsets. */
    method LiteralMatch(buf: seq<Byte>, fileSize: nat, startOffset: nat) returns (rc: int, ov0: nat, ov1: nat)
      requires ZeroPadded(buf, fileSize) && startOffset <= fileSize
      ensures match LiteralFind(buf, fileSize, literalSearchString, startOffset)
              case Some(p) => rc == 1 && ov0 == p && ov1 == p + |literalSearchString|
              case None => rc == PCRE2_ERROR_NOMATCH && ov0 == fileSize && ov1 == fileSize
      ensures Reliable(literalSearchString) ==>
                LeftmostFrom(buf[..fileSize], literalSearchString, startOffset) ==
                if rc == 1 then Some(ov0) else None
    {
      hide SearchFrom, LeftmostFrom;
      var strMatch: Option<nat>;
      var len := |literalSearchString|;
      if 1 <= len <= 16 {
        var patt := PatternRegister(literalSearchString);
        strMatch := MemmemShortPattern(buf[startOffset..], fileSize - startOffset, patt, len);
      } else {
        strMatch := LeftmostFrom(buf[startOffset..fileSize], literalSearchString, 0);
        LeftmostShift(buf[..fileSize], literalSearchString, startOffset);
        assert buf[startOffset..fileSize] == buf[..fileSize][startOffset..];
      }
      if Reliable(literalSearchString) {
        LiteralFindIsLeftmost(buf, fileSize, literalSearchString, startOffset);
      }
      if strMatch.None? {
        return PCRE2_ERROR_NOMATCH, fileSize, fileSize;
      } else {
        return 1, startOffset + strMatch.value, startOffset + strMatch.value + len;
      }
    }

    /** The part of the loop that passes over text where the shortcut finds nothing to start a match. */
    method SkipAhead(buf: seq<Byte>, fileSize: nat, startOffset: nat) returns (possible: bool, newStart: nat)
      requires Valid() && ZeroPadded(buf, fileSize) && startOffset <= fileSize < PCRE2_UNSET
      requires !useLiteral
      ensures startOffset <= newStart <= fileSize
      ensures Jump(ShortcutInUse(), buf, fileSize, startOffset) == if possible then Some(newStart) else None
    {
      hide BlockSearch, LeftmostFrom, LiteralFind;
      if useLitPrefix {
        LiteralFindMeaning(buf, fileSize, literalSearchString, startOffset);
        var rc, ov0, ov1 := LiteralMatch(buf, fileSize, startOffset);
        if ov0 > fileSize || rc <= 0 {
          // No prefix, hence no match.
          return false, startOffset;
        }
        // PCRE2 goes on from the prefix.
        return true, ov0;
      } else if useFirstCodeUnitTable {
        var first := tables.FindFirstPossibleCodeUnit(buf, startOffset, fileSize - startOffset);
        return first != fileSize, first;
      } else if useRangePairTable {
        var first := tables.FindFirstInRanges(buf, startOffset, fileSize - startOffset);
        return first != fileSize, first;
      }
      return true, startOffset;
    }

    /** Recovery from a zero-length match: one byte on, and on over the continuation bytes of the character. */
    method AdvanceOneCharacter(buf: seq<Byte>, fileSize: nat, startOffset: nat) returns (next: nat)
      requires startOffset < fileSize <= |buf|
      ensures startOffset < next <= fileSize && next == SkipContinuation(buf[..fileSize], startOffset + 1)
      // Anywhere in a UTF-8 character, it goes on behind that character.
      ensures forall pre: seq<Byte>, cp: int, rest: seq<int> ::
                HasCharacter(buf[..fileSize], pre, cp, rest) && |pre| <= startOffset < |pre| + |Encode(cp)| ==>
                  next == |pre| + |Encode(cp)|
    {
      forall pre: seq<Byte>, cp: int, rest: seq<int> |
        HasCharacter(buf[..fileSize], pre, cp, rest) && |pre| <= startOffset < |pre| + |Encode(cp)|
        ensures SkipContinuation(buf[..fileSize], startOffset + 1) == |pre| + |Encode(cp)|
      {
        SkipsOneCharacter(buf[..fileSize], pre, cp, rest, startOffset);
      }
      next := startOffset + 1;
      while next < fileSize
        invariant startOffset < next <= fileSize
        invariant SkipContinuation(buf[..fileSize], next) == SkipContinuation(buf[..fileSize], startOffset + 1)
      {
        if !IsContinuation(buf[next]) {
          break;
        } else {
          next := next + 1;
        }
      }
    }

    /** Packaging up a match: count the lines since the last one, skip further matches on one line, add the match. */
    method RecordMatch(buf: seq<Byte>, fileSize: nat, searchEnd: nat, ov0: nat, ov1: nat, oldLineNo: nat,
                       oldPrevLineNo: nat, ml: MatchList)
      returns (lineNo: nat, prevLineNo: nat, threw: bool)
      requires fileSize + 15 <= |buf| && searchEnd <= ov0 <= fileSize && ov0 <= ov1
      requires oldLineNo == LineOf(buf[..fileSize], searchEnd)
      modifies ml`matches
      ensures lineNo == LineOf(buf[..fileSize], ov0) >= 1
      ensures lineNo == oldPrevLineNo ==> ml.matches == old(ml.matches) && prevLineNo == oldPrevLineNo && !threw
      ensures lineNo != oldPrevLineNo ==> prevLineNo == lineNo
                                            && (threw <==> ov1 > fileSize || !NoNewline(buf[..fileSize], ov0, ov1))
      ensures threw ==> ml.matches == old(ml.matches)
      ensures lineNo != oldPrevLineNo && !threw ==> ml.matches == old(ml.matches) + [MatchAt(buf[..fileSize], ov0, ov1)]
    {
      CountInPrefix(buf, fileSize, searchEnd, ov0);
      SameLine(buf[..fileSize], searchEnd, ov0);
      var newLines := LineCounter.CountLines(buf, searchEnd, ov0);
      lineNo, prevLineNo, threw := oldLineNo + newLines, oldPrevLineNo, false;
      if lineNo == prevLineNo {
        // This line is on the list already.
        return;
      }
      prevLineNo := lineNo;
      var m := MakeMatch(buf, fileSize, ov0, ov1, lineNo);
      if m.None? {
        threw := true;
        return;
      }
      ml.AddMatch(m.value);
    }

    lemma EngineInUse(d: seq<Byte>, m: Matcher)
      requires Valid() && ScanSpec.Valid(d, m)
      ensures EngineOk(d, EngineFor(m)) && (Searchable() ==> EngineFor(m) != Literally([]))
      ensures useLiteral ==> EngineFor(m).Literally?
      ensures !useLiteral ==> EngineFor(m) == Regex(m, ShortcutInUse())
    {
    }

    /** One search: pcre2_match(), or the literal search in its place. */
    method Search(buf: seq<Byte>, fileSize: nat, startOffset: nat, recovering: bool, m: Matcher,
                  oldOv0: nat, oldOv1: nat)
      returns (rc: int, ov0: nat, ov1: nat)
      requires Valid() && ZeroPadded(buf, fileSize) && startOffset <= fileSize
      requires ScanSpec.Valid(buf[..fileSize], m)
      ensures Found(EngineFor(m), buf, fileSize, startOffset, recovering) ==
              if rc == PCRE2_ERROR_NOMATCH then None else Some((ov0, ov1))
      ensures rc == PCRE2_ERROR_NOMATCH && recovering && !useLiteral ==> ov0 == oldOv0 && ov1 == oldOv1
    {
      hide LeftmostFrom, LiteralFind;
      if !useLiteral {
        rc, ov0, ov1 := Pcre2Match(m, startOffset, recovering, oldOv0, oldOv1);
      } else {
        rc, ov0, ov1 := LiteralMatch(buf, fileSize, startOffset);
      }
    }

    /**
      * The loop of ScanFile(): what is added to the list is what the rounds report, for every engine. It has gone
      * astray if the next search would start behind the end of the file.
      */
    method Loop(buf: seq<Byte>, fileSize: nat, m: Matcher, ml: MatchList) returns (astray: bool)
      requires Valid() && ZeroPadded(buf, fileSize) && fileSize < PCRE2_UNSET && Searchable()
      requires ScanSpec.Valid(buf[..fileSize], m)
      modifies ml`matches
      ensures ml.matches == old(ml.matches) + Reported(EngineFor(m), buf, fileSize)
      ensures astray == Strays(EngineFor(m), buf, fileSize, Start())
    {
      hide Round, Rounds, Strays, Reliable, Reported, Found, Jump;
      hide LineOf, MatchAt, NoNewline, SkipContinuation, ScanSpec.Valid;
      hide EngineOk, ShortcutInUse, Searchable, ZeroPadded, Valid;
      PaddedSize(buf, fileSize);
      EngineInUse(buf[..fileSize], m);
      ghost var d := buf[..fileSize];
      ghost var e := EngineFor(m);
      ghost var before := ml.matches;
      ghost var out: seq<Match> := [];
      ghost var done := false;
      astray := false;
      FirstLine(d);
      ReportedFromStart(e, buf, fileSize);

      var lineNo: nat := 1;
      var prevLineNo: nat := 0;
      var prevLineNoSearchEnd: nat := 0;
      var startOffset: nat := 0;
      // No match has been found yet, in particular no empty one.
      var ov0: nat, ov1: nat := PCRE2_UNSET, 0;

      while startOffset < fileSize
        invariant !done && !astray && ml.matches == before + out
        invariant ov1 <= fileSize && Fresh(e, Cursor(startOffset, ov0, ov1, prevLineNo))
        invariant Reported(e, buf, fileSize) ==
                  out + Rounds(e, buf, fileSize, Cursor(startOffset, ov0, ov1, prevLineNo))
        invariant Strays(e, buf, fileSize, Start()) ==
                  Strays(e, buf, fileSize, Cursor(startOffset, ov0, ov1, prevLineNo))
        invariant prevLineNoSearchEnd <= ov1 && (prevLineNo != 0 ==> prevLineNoSearchEnd <= ov0)
        invariant lineNo == LineOf(d, prevLineNoSearchEnd)
        invariant if prevLineNo == 0 then ov0 == PCRE2_UNSET && lineNo == 1 else lineNo == prevLineNo
        decreases fileSize - ov1, if ov0 != ov1 then 1 else 0
      {
        ghost var c := Cursor(startOffset, ov0, ov1, prevLineNo);
        ghost var r := Round(e, buf, fileSize, c);
        RoundProgresses(e, buf, fileSize, c);
        RoundsStep(e, buf, fileSize, c, out);
        var recovering := false;
        startOffset := ov1;

        if ov0 == ov1 {
          // The last match was empty.
          if ov0 == fileSize {
            RoundAtEnd(e, buf, fileSize, c);
            done := true;
            break;
          }
          // Something longer may match here.
          recovering := true;
        }

        var rc: int := 0;
        if !recovering && !useLiteral {
          var possible;
          possible, startOffset := SkipAhead(buf, fileSize, startOffset);
          if !possible {
            RoundFindsNothing(e, buf, fileSize, c);
            done := true;
            break;
          }
        }
        RoundSearches(e, buf, fileSize, c, startOffset);
        rc, ov0, ov1 := Search(buf, fileSize, startOffset, recovering, m, ov0, ov1);

        if rc == PCRE2_ERROR_NOMATCH {
          if !recovering {
            done := true;
            break;
          }
          ov1 := AdvanceOneCharacter(buf, fileSize, startOffset);
          continue;
        }

        var threw;
        lineNo, prevLineNo, threw := RecordMatch(buf, fileSize, prevLineNoSearchEnd, ov0, ov1, lineNo, prevLineNo, ml);
        prevLineNoSearchEnd := ov0;
        if threw {
          done := true;
          break;
        }
        if ov1 > fileSize {
          // file_size less start_offset would wrap around in the next round.
          astray, done := true, true;
          break;
        }
        out := out + r.out;
      }
      if !done {
        RoundsAtEnd(e, buf, fileSize, Cursor(startOffset, ov0, ov1, prevLineNo));
      }
      assert out == Reported(e, buf, fileSize);
    }

    /**
      * ScanFile().  If the engine serves the expression and its table fits, what is added is the reference scan
      * of what PCRE2 would find.
      */
    method ScanFile(buf: seq<Byte>, fileSize: nat, m: Matcher, ml: MatchList) returns (astray: bool)
      requires Valid() && ZeroPadded(buf, fileSize) && fileSize < PCRE2_UNSET && Searchable()
      requires ScanSpec.Valid(buf[..fileSize], m)
      modifies ml`matches
      ensures ml.matches == old(ml.matches) + Reported(EngineFor(m), buf, fileSize)
      ensures astray == Strays(EngineFor(m), buf, fileSize, Start())
      ensures astray ==> useLiteral && !Reliable(literalSearchString)
      ensures fileSize > 0 && Serves(EngineFor(m), buf[..fileSize], m) && EngineFits(EngineFor(m)) ==>
                ml.matches == old(ml.matches) + Scan(buf[..fileSize], m, 0)
      // In a UTF-8 file that is each line on which a match starts, and in every file what is added shows its line.
      ensures fileSize > 0 && Serves(EngineFor(m), buf[..fileSize], m) && EngineFits(EngineFor(m)) ==>
                forall cps: seq<int> :: Text(cps) && buf[..fileSize] == EncodeAll(cps) ==>
                  ReportedLines(ml.matches[|old(ml.matches)|..]) == MatchLines(buf[..fileSize], m)
      ensures forall i :: |old(ml.matches)| <= i < |ml.matches| ==> Shown(EngineFor(m), buf[..fileSize], ml.matches[i])
    {
      hide Reported, Strays, Scan, EngineFits, Serves, Shown, ReportedLines, MatchLines, EncodeAll;
      EngineInUse(buf[..fileSize], m);
      if !(useLiteral && !Reliable(literalSearchString)) {
        ReliableNeverStrays(EngineFor(m), buf, fileSize, Start());
      }
      if fileSize > 0 && Serves(EngineFor(m), buf[..fileSize], m) && EngineFits(EngineFor(m)) {
        EngineIsPcre2(EngineFor(m), buf, fileSize, m);
      }
      astray := Loop(buf, fileSize, m, ml);
      assert ml.matches[|old(ml.matches)|..] == Reported(EngineFor(m), buf, fileSize);
      forall x | x in Reported(EngineFor(m), buf, fileSize) ensures Shown(EngineFor(m), buf[..fileSize], x) {
        ReportedShowsItsLine(EngineFor(m), buf, fileSize, x);
      }
      forall cps: seq<int> | Text(cps) && buf[..fileSize] == EncodeAll(cps)
        ensures ReportedLines(Scan(buf[..fileSize], m, 0)) == MatchLines(buf[..fileSize], m)
      {
        Utf8ScanIsExact(buf[..fileSize], m, cps);
      }
    }
  }

  lemma PaddedSize(buf: seq<Byte>, fileSize: nat)
    requires ZeroPadded(buf, fileSize)
    ensures fileSize + 15 <= |buf|
  {
  }

  // ---------------------------------------------------------------- the rounds, as the loop takes them

  lemma ReportedFromStart(e: Engine, buf: seq<Byte>, n: nat)
    requires ZeroPadded(buf, n) && EngineOk(buf[..n], e) && e != Literally([])
    ensures Reported(e, buf, n) == [] + Rounds(e, buf, n, Start())
  {
  }

  lemma RoundsStep(e: Engine, buf: seq<Byte>, n: nat, c: Cursor, before: seq<Match>)
    requires ZeroPadded(buf, n) && EngineOk(buf[..n], e) && c.ov1 <= n && Fresh(e, c) && c.startOffset < n
    requires Round(e, buf, n, c).Goes? ==> Fresh(e, Round(e, buf, n, c).next)
    ensures Rounds(e, buf, n, c) ==
            var r := Round(e, buf, n, c); if r.Goes? then r.out + Rounds(e, buf, n, r.next) else []
    ensures Strays(e, buf, n, c) ==
            var r := Round(e, buf, n, c); if r.Goes? then Strays(e, buf, n, r.next) else r.Astray?
    ensures Round(e, buf, n, c).Goes? ==>
              before + Rounds(e, buf, n, c) ==
              (before + Round(e, buf, n, c).out) + Rounds(e, buf, n, Round(e, buf, n, c).next)
  {
    hide Round;
    RoundProgresses(e, buf, n, c);
  }

  lemma RoundsAtEnd(e: Engine, buf: seq<Byte>, n: nat, c: Cursor)
    requires ZeroPadded(buf, n) && EngineOk(buf[..n], e) && c.ov1 <= n && Fresh(e, c) && c.startOffset >= n
    ensures Rounds(e, buf, n, c) == [] && !Strays(e, buf, n, c)
  {
  }

  lemma RoundAtEnd(e: Engine, buf: seq<Byte>, n: nat, c: Cursor)
    requires ZeroPadded(buf, n) && EngineOk(buf[..n], e) && c.ov0 == c.ov1 == n
    ensures Round(e, buf, n, c) == Ends
  {
  }

  lemma RoundFindsNothing(e: Engine, buf: seq<Byte>, n: nat, c: Cursor)
    requires ZeroPadded(buf, n) && EngineOk(buf[..n], e) && c.ov0 != c.ov1 <= n
    requires e.Regex? && Jump(e.shortcut, buf, n, c.ov1) == None
    ensures Round(e, buf, n, c) == Ends
  {
  }

  /** What a round does once it knows where to search. */
  lemma RoundSearches(e: Engine, buf: seq<Byte>, n: nat, c: Cursor, from: nat)
    requires ZeroPadded(buf, n) && EngineOk(buf[..n], e) && c.ov1 <= n && !(c.ov0 == c.ov1 == n)
    requires Some(from) == if c.ov0 == c.ov1 || e.Literally? then Some(c.ov1) else Jump(e.shortcut, buf, n, c.ov1)
    ensures from <= n && (c.ov0 == c.ov1 ==> from < n)
    ensures Round(e, buf, n, c) ==
            var d := buf[..n];
            match Found(e, buf, n, from, c.ov0 == c.ov1)
            case None =>
              if c.ov0 == c.ov1 then Goes(Cursor(from, c.ov0, SkipContinuation(d, from + 1), c.lineNo), []) else Ends
            case Some((start, end)) =>
              var line := LineOf(d, start);
              if line == c.lineNo then (if end > n then Astray else Goes(Cursor(from, start, end, line), []))
              else if end > n || !NoNewline(d, start, end) then Ends
              else Goes(Cursor(from, start, end, line), [MatchAt(d, start, end)])
  {
  }

  /** An engine that serves a matcher, with a table that fits, reports what PCRE2 alone would. */
  lemma EngineIsPcre2(e: Engine, buf: seq<Byte>, n: nat, m: Matcher)
    requires ZeroPadded(buf, n) && 0 < n < PCRE2_UNSET && Valid(buf[..n], m) && EngineOk(buf[..n], e)
    requires e != Literally([]) && Serves(e, buf[..n], m) && EngineFits(e)
    ensures Reported(e, buf, n) == Scan(buf[..n], m, 0)
  {
    match e
    case Literally(literal) => LiteralModeIsPcre2(literal, buf, n, m);
    case Regex(_, shortcut) => ShortcutPreservesScan(m, shortcut, buf, n);
  }

  lemma PrefixFits(regex: seq<Byte>)
    ensures GetLiteralPrefixLen(regex) > 1 ==> GetLiteralPrefixLen(regex) <= |regex|
  {
  }

  /** In the file, every match of the pattern starts with its literal prefix. */
  lemma PrefixOpensMatches(d: seq<Byte>, m: Matcher, p: Pattern)
    requires Valid(d, m) && WellFormedPattern(p) && Implements(d, m, p) && GetLiteralPrefixLen(Render(p)) > 1
    ensures GetLiteralPrefixLen(Render(p)) <= |Render(p)|
    ensures forall q :: 0 <= q <= |d| && m.at[q].Some? ==> OccursAt(d, Render(p)[..GetLiteralPrefixLen(Render(p))], q)
  {
    PrefixFits(Render(p));
    var prefix := Render(p)[..GetLiteralPrefixLen(Render(p))];
    forall q | 0 <= q <= |d| && m.at[q].Some? ensures OccursAt(d, prefix, q) {
      var text := d[q..m.at[q].value];
      LiteralPrefixIsSound(p, text);
      assert d[q..q + |prefix|] == text[0..|prefix|];
    }
  }

  lemma {:induction false} CountInPrefix(buf: seq<Byte>, size: nat, lo: nat, hi: nat)
    requires lo <= hi <= size <= |buf|
    ensures CountIn(buf[..size], lo, hi) == CountIn(buf, lo, hi)
    decreases hi - lo
  {
    if lo < hi {
      CountInPrefix(buf, size, lo, hi - 1);
    }
  }

  /** pcre2_match(): the leftmost match, or with both options a non-empty one right at the start offset. */
  method Pcre2Match(m: Matcher, startOffset: nat, notEmptyAtStartAnchored: bool, oldOv0: nat, oldOv1: nat)
    returns (rc: int, ov0: nat, ov1: nat)
    requires startOffset < |m.at| == |m.nonEmptyAt|
    ensures rc == 1 || rc == PCRE2_ERROR_NOMATCH
    ensures rc == PCRE2_ERROR_NOMATCH ==> ov0 == oldOv0 && ov1 == oldOv1
    ensures !notEmptyAtStartAnchored ==>
              match NextStart(m, startOffset)
              case Some(p) => rc == 1 && ov0 == p && Some(ov1) == m.at[p]
              case None => rc == PCRE2_ERROR_NOMATCH
    ensures notEmptyAtStartAnchored ==>
              match m.nonEmptyAt[startOffset]
              case Some(e) => rc == 1 && ov0 == startOffset && ov1 == e
              case None => rc == PCRE2_ERROR_NOMATCH
  {
    rc, ov0, ov1 := PCRE2_ERROR_NOMATCH, oldOv0, oldOv1;
    if notEmptyAtStartAnchored {
      if m.nonEmptyAt[startOffset].Some? {
        rc, ov0, ov1 := 1, startOffset, m.nonEmptyAt[startOffset].value;
      }
    } else {
      var p := NextStart(m, startOffset);
      if p.Some? {
        rc, ov0, ov1 := 1, p.value, m.at[p.value].value;
      }
    }
  }
}
