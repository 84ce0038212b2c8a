/** What the literal search mode reports of a file, and that PCRE2 would have reported the same. */
module LiteralLines {
  import opened Bytes
  import opened Lines
  import opened ShortPattern
  import opened LiteralSearch
  import opened LiteralPrefix
  import opened ScanSpec
  import opened ScanExact
  import opened ScanLoop

  /** The matches of a plain text: literal search seen as a matcher. */
  function LiteralMatcher(d: seq<Byte>, literal: seq<Byte>): Matcher {
    var ends := seq(|d| + 1, p requires 0 <= p <= |d| => if OccursAt(d, literal, p) then Some(p + |literal|) else None);
    Matcher(ends, ends)
  }

  lemma LiteralMatcherIsValid(d: seq<Byte>, literal: seq<Byte>)
    requires literal != [] && NEWLINE !in literal
    ensures Valid(d, LiteralMatcher(d, literal))
  {
    forall p | 0 <= p && OccursAt(d, literal, p) ensures NoNewline(d, p, p + |literal|) {
      assert forall q :: p <= q < p + |literal| ==> d[q] == d[p..p + |literal|][q - p];
    }
  }

  lemma LiteralNextStart(d: seq<Byte>, literal: seq<Byte>, s: nat)
    requires literal != [] && s <= |d|
    ensures NextStart(LiteralMatcher(d, literal), s) == LeftmostFrom(d, literal, s)
    ensures var r := LeftmostFrom(d, literal, s);
            r.Some? ==> r.value <= |d| && LiteralMatcher(d, literal).at[r.value] == Some(r.value + |literal|)
  {
    var m := LiteralMatcher(d, literal);
    var r := LeftmostFrom(d, literal, s);
    if r.Some? {
      NextStartSkips(m, s, r.value);
    } else {
      NextStartSkips(m, s, |d| + 1);
    }
  }

  lemma OccurrenceHoldsNewline(d: seq<Byte>, literal: seq<Byte>, p: nat)
    requires OccursAt(d, literal, p) && NEWLINE in literal
    ensures !NoNewline(d, p, p + |literal|)
  {
    var i :| 0 <= i < |literal| && literal[i] == NEWLINE;
    assert d[p..p + |literal|][i] == d[p + i];
  }

  // ---------------------------------------------------------------- the loop with a literal

  /** The literal search reports what its matcher without a shortcut reports. */
  lemma {:induction false} RoundsOfLiteral(literal: seq<Byte>, buf: seq<Byte>, n: nat, c: Cursor)
    requires ZeroPadded(buf, n) && literal != [] && Valid(buf[..n], LiteralMatcher(buf[..n], literal))
    requires c.ov1 <= n && c.ov0 != c.ov1
    ensures Rounds(Literally(literal), buf, n, c) ==
            Rounds(Regex(LiteralMatcher(buf[..n], literal), NoShortcut), buf, n, c)
    decreases n - c.ov1
  {
    hide LiteralMatcher, Valid, LeftmostFrom, LiteralFind, NextStart, LineOf, MatchAt;
    var e, e' := Literally(literal), Regex(LiteralMatcher(buf[..n], literal), NoShortcut);
    LiteralNextStart(buf[..n], literal, c.ov1);
    LiteralFindMeaning(buf, n, literal, c.ov1);
    var r := Round(e, buf, n, c);
    if LeftmostFrom(buf[..n], literal, c.ov1).Some? {
      assert r == Round(e', buf, n, c);
    } else {
      assert !r.Goes? && Round(e', buf, n, c) == Ends;
    }
    RoundProgresses(e, buf, n, c);
    if c.startOffset < n && r.Goes? {
      RoundsOfLiteral(literal, buf, n, r.next);
    }
  }

  /** A literal with a newline: the first match throws, so nothing is reported. */
  lemma LiteralWithNewline(literal: seq<Byte>, buf: seq<Byte>, n: nat)
    requires ZeroPadded(buf, n) && n < PCRE2_UNSET && NEWLINE in literal
    ensures Reported(Literally(literal), buf, n) == [] && !Strays(Literally(literal), buf, n, Start())
  {
    hide LeftmostFrom, LiteralFind;
    LiteralFindMeaning(buf, n, literal, 0);
    var r := LeftmostFrom(buf[..n], literal, 0);
    if r.Some? {
      OccurrenceHoldsNewline(buf[..n], literal, r.value);
    }
  }

  /** Without one, literal mode reports the scan of the literal's matcher. */
  lemma LiteralScan(literal: seq<Byte>, buf: seq<Byte>, n: nat)
    requires ZeroPadded(buf, n) && 0 < n < PCRE2_UNSET && literal != [] && NEWLINE !in literal
    ensures Valid(buf[..n], LiteralMatcher(buf[..n], literal))
    ensures Reported(Literally(literal), buf, n) == Scan(buf[..n], LiteralMatcher(buf[..n], literal), 0)
  {
    LiteralMatcherIsValid(buf[..n], literal);
    RoundsOfLiteral(literal, buf, n, Start());
    ShortcutPreservesScan(LiteralMatcher(buf[..n], literal), NoShortcut, buf, n);
  }

  /** Line l holds the beginning of an occurrence of the literal. */
  ghost predicate LineHolds(d: seq<Byte>, literal: seq<Byte>, l: nat) {
    exists p: nat :: p <= |d| && OccursAt(d, literal, p) && LineOf(d, p) == l
  }

  lemma NoMatchAtNewline(d: seq<Byte>, literal: seq<Byte>, n: nat)
    requires literal != [] && NEWLINE !in literal && n < |d| && d[n] == NEWLINE
    ensures LiteralMatcher(d, literal).at[n].None?
  {
    if n + |literal| <= |d| {
      assert d[n..n + |literal|][0] == d[n];
    }
  }

  /** A literal never matches at a newline, so the scan skips no byte behind one, whatever the file holds. */
  lemma {:induction false} LiteralScanIsLineByLine(d: seq<Byte>, literal: seq<Byte>, s: nat)
    requires literal != [] && NEWLINE !in literal && s <= |d|
    ensures Valid(d, LiteralMatcher(d, literal))
    ensures Scan(d, LiteralMatcher(d, literal), s) == LineByLine(d, LiteralMatcher(d, literal), s)
    decreases |d| - s
  {
    hide LiteralMatcher, Valid, OccursAt, LineOf, CountIn, NextStart, MatchAt, SkipContinuation;
    LiteralMatcherIsValid(d, literal);
    var m := LiteralMatcher(d, literal);
    var start := NextStart(m, s);
    if start.Some? {
      var n := LineEnd(d, start.value);
      if n < |d| {
        NoMatchAtNewline(d, literal, n);
        assert Resume(d, m, n) == n + 1;
        LiteralScanIsLineByLine(d, literal, n + 1);
      }
    }
  }

  /** For every file, stray continuation bytes included: exactly the lines that hold the literal, in order. */
  lemma LiteralModeReportsItsLines(literal: seq<Byte>, buf: seq<Byte>, n: nat)
    requires ZeroPadded(buf, n) && 0 < n < PCRE2_UNSET && literal != [] && NEWLINE !in literal
    ensures StrictlyIncreasing(Reported(Literally(literal), buf, n))
    ensures forall l :: l in ReportedLines(Reported(Literally(literal), buf, n)) <==> LineHolds(buf[..n], literal, l)
  {
    var d, m := buf[..n], LiteralMatcher(buf[..n], literal);
    LiteralScan(literal, buf, n);
    LiteralScanIsLineByLine(d, literal, 0);
    LineByLineIsExact(d, m, 0);
    forall l ensures StartsOn(d, m, 0, l) <==> LineHolds(d, literal, l) {
      if StartsOn(d, m, 0, l) {
        var p: nat :| p <= |d| && m.at[p].Some? && LineOf(d, p) == l;
        assert OccursAt(d, literal, p);
      }
      if LineHolds(d, literal, l) {
        var p: nat :| p <= |d| && OccursAt(d, literal, p) && LineOf(d, p) == l;
        assert m.at[p].Some?;
      }
    }
  }

  // ---------------------------------------------------------------- what is reported of a line

  /** Real matches of the literal's matcher are occurrences of the literal. */
  lemma RealIsShown(e: Engine, d: seq<Byte>, m: Matcher, x: Match)
    requires Valid(d, m) && EngineOk(d, e) && Real(d, m, x)
    requires if e.Literally? then m == LiteralMatcher(d, e.literal) else m == e.m
    ensures Shown(e, d, x)
  {
    hide Shown, MatchAt;
    var p: nat :| p <= |d| && m.at[p].Some? && x == MatchAt(d, p, m.at[p].value);
    ShownAt(e, d, p, m.at[p].value);
  }

  /**
    * In every mode, each reported match shows its line: text before, match and text behind make it up, the match
    * stands where the engine matches, and the number is that of the line.
    */
  lemma ReportedShowsItsLine(e: Engine, buf: seq<Byte>, n: nat, x: Match)
    requires ZeroPadded(buf, n) && n < PCRE2_UNSET && EngineOk(buf[..n], e) && e != Literally([])
    requires x in Reported(e, buf, n)
    ensures Shown(e, buf[..n], x)
  {
    hide Shown, Real, LiteralMatcher, Round;
    var d := buf[..n];
    match e
    case Literally(literal) =>
      if NEWLINE in literal {
        LiteralWithNewline(literal, buf, n);
      } else {
        LiteralMatcherIsValid(d, literal);
        RoundsOfLiteral(literal, buf, n, Start());
        AnyScanIsSound(LiteralMatcher(d, literal), NoShortcut, buf, n);
        RealIsShown(e, d, LiteralMatcher(d, literal), x);
      }
    case Regex(m, shortcut) =>
      AnyScanIsSound(m, shortcut, buf, n);
      RealIsShown(e, d, m, x);
  }

  // ---------------------------------------------------------------- the literal search stands in for PCRE2

  /** The pattern matches the text in [q, e), and the callout accepts it. */
  ghost predicate MatchesIn(d: seq<Byte>, p: Pattern, q: nat, e: nat) {
    q <= e <= |d| && NoNewline(d, q, e) && PatternMatches(p, d[q..e])
  }

  /** The matcher finds a match wherever the pattern has one, and only matches of the pattern. */
  ghost predicate FindsExactly(d: seq<Byte>, m: Matcher, p: Pattern)
    requires Valid(d, m)
  {
    forall q :: 0 <= q <= |d| ==>
      (m.at[q].Some? ==> MatchesIn(d, p, q, m.at[q].value)) && (m.at[q].None? ==> forall e :: !MatchesIn(d, p, q, e))
  }

  lemma OneAlternative(items: seq<Item>, text: seq<Byte>)
    ensures PatternMatches([items], text) <==> ItemsMatch(items, text)
  {
    hide ItemsMatch;
    if ItemsMatch(items, text) {
      assert items in [items];
    }
  }

  /** The literal's own pattern matches where the literal is. */
  lemma LiteralMatchesIn(d: seq<Byte>, literal: seq<Byte>, q: nat, e: nat)
    ensures MatchesIn(d, [LiteralItems(literal)], q, e) <==>
            q <= e <= |d| && NoNewline(d, q, e) && OccursAt(d, literal, q) && e == q + |literal|
  {
    hide PatternMatches, ItemsMatch, LiteralItems, NoNewline;
    if q <= e <= |d| {
      OneAlternative(LiteralItems(literal), d[q..e]);
      LiteralItemsMatchOnlyTheirText(literal, d[q..e]);
    }
  }

  /** A matcher of the literal's pattern finds just what the literal search does. */
  lemma LiteralSearchFindsTheSame(d: seq<Byte>, m: Matcher, literal: seq<Byte>)
    requires Valid(d, m) && FindsExactly(d, m, [LiteralItems(literal)])
    ensures literal != [] && NEWLINE !in literal ==> m.at == LiteralMatcher(d, literal).at
    ensures NEWLINE in literal ==> forall q :: 0 <= q <= |d| ==> m.at[q].None?
  {
    forall q | 0 <= q <= |d|
      ensures NEWLINE !in literal && literal != [] ==> m.at[q] == LiteralMatcher(d, literal).at[q]
      ensures NEWLINE in literal ==> m.at[q].None?
    {
      LiteralMatchesIn(d, literal, q, q + |literal|);
      if m.at[q].Some? {
        LiteralMatchesIn(d, literal, q, m.at[q].value);
      }
      if OccursAt(d, literal, q) {
        if NEWLINE in literal {
          OccurrenceHoldsNewline(d, literal, q);
        } else if literal != [] {
          LiteralMatcherIsValid(d, literal);
          assert LiteralMatcher(d, literal).at[q] == Some(q + |literal|);
        }
      }
    }
  }

  /** A scan depends on where matches start and where those end. */
  lemma {:induction false} ScanUsesStarts(d: seq<Byte>, m: Matcher, m': Matcher, s: nat)
    requires Valid(d, m) && Valid(d, m') && m.at == m'.at && s <= |d|
    ensures Scan(d, m, s) == Scan(d, m', s)
    decreases |d| - s
  {
    var p, p' := NextStart(m, s), NextStart(m', s);
    assert p == p';
    if p.Some? {
      var n := LineEnd(d, p.value);
      if n < |d| {
        ScanUsesStarts(d, m, m', Resume(d, m, n));
      }
    }
  }

  /** Literal mode reports what PCRE2 would have reported for the literal's pattern. */
  lemma LiteralModeIsPcre2(literal: seq<Byte>, buf: seq<Byte>, n: nat, m: Matcher)
    requires ZeroPadded(buf, n) && 0 < n < PCRE2_UNSET && literal != []
    requires Valid(buf[..n], m) && FindsExactly(buf[..n], m, [LiteralItems(literal)])
    ensures Reported(Literally(literal), buf, n) == Reported(Regex(m, NoShortcut), buf, n) == Scan(buf[..n], m, 0)
  {
    var d := buf[..n];
    LiteralSearchFindsTheSame(d, m, literal);
    ShortcutPreservesScan(m, NoShortcut, buf, n);
    if NEWLINE in literal {
      LiteralWithNewline(literal, buf, n);
      NextStartSkips(m, 0, n + 1);
    } else {
      LiteralScan(literal, buf, n);
      ScanUsesStarts(d, m, LiteralMatcher(d, literal), 0);
    }
  }

  // ---------------------------------------------------------------- going astray

  /** A literal the search is right for never leads the loop astray, nor does any expression. */
  lemma {:induction false} ReliableNeverStrays(e: Engine, buf: seq<Byte>, n: nat, c: Cursor)
    requires ZeroPadded(buf, n) && EngineOk(buf[..n], e) && c.ov1 <= n && Fresh(e, c)
    requires e.Literally? ==> Reliable(e.literal)
    ensures !Strays(e, buf, n, c)
    decreases n - c.ov1, if c.ov0 != c.ov1 then 1 else 0
  {
    hide Round;
    RoundProgresses(e, buf, n, c);
    var r := Round(e, buf, n, c);
    if c.startOffset < n && r.Goes? {
      ReliableNeverStrays(e, buf, n, r.next);
    }
  }

  /** The literal, and behind it on the same line all of it but its NUL, at the end of the file. */
  function StrayText(literal: seq<Byte>): seq<Byte>
    requires 2 <= |literal| <= VEC_SIZE
  {
    literal + PretendingMemory(PatternRegister(literal), |literal|)
  }

  /** Behind the literal only the padding completes another one. */
  lemma StrayTextFind(literal: seq<Byte>)
    requires 2 <= |literal| <= VEC_SIZE && literal[|literal| - 1] == 0
    ensures ZeroPadded(StrayText(literal), |literal| + 16)
    ensures LiteralFind(StrayText(literal), |literal| + 16, literal, |literal|) == Some(17)
  {
    hide ShortMemmem, LeftmostFrom, PatternRegister, PretendingMemory, Load;
    var patt, len := PatternRegister(literal), |literal|;
    RegisterShape(literal);
    PretendedLanes(patt, len);
    PaddingPretends(patt, len);
    assert StrayText(literal)[len..] == PretendingMemory(patt, len);
  }

  lemma RegisterShape(literal: seq<Byte>)
    requires |literal| <= VEC_SIZE
    ensures PatternRegister(literal)[..|literal|] == literal
    ensures forall i :: 0 <= i < |literal| ==> PatternRegister(literal)[i] == literal[i]
  {
  }

  /** And the whole file is one line that begins with the literal. */
  lemma StrayTextLine(literal: seq<Byte>)
    requires 2 <= |literal| <= VEC_SIZE && NEWLINE !in literal
    ensures |StrayText(literal)| >= |literal| + 16
    ensures OccursAt(StrayText(literal)[..|literal| + 16], literal, 0)
    ensures NoNewline(StrayText(literal)[..|literal| + 16], 0, |literal| + 16)
  {
    var patt, len := PatternRegister(literal), |literal|;
    RegisterShape(literal);
    var buf := StrayText(literal);
    assert buf[..len + 16][0..len] == literal;
    forall i | 0 <= i < len + 16 ensures buf[i] != NEWLINE {
      if i < len {
        assert buf[i] == literal[i];
      } else if i >= 17 {
        assert buf[i] == patt[i - 17] == literal[i - 17];
      }
    }
  }

  lemma UnreliableStrays(literal: seq<Byte>)
    requires !Reliable(literal) && NEWLINE !in literal
    ensures ZeroPadded(StrayText(literal), |literal| + 16)
    ensures Strays(Literally(literal), StrayText(literal), |literal| + 16, Start())
  {
    hide LiteralFind, StrayText, LeftmostFrom;
    var e, buf, n := Literally(literal), StrayText(literal), |literal| + 16;
    StrayTextFind(literal);
    StrayTextLine(literal);
    var d := buf[..n];
    LeftmostIsUnique(d, literal, 0, 0);
    LiteralFindMeaning(buf, n, literal, 0);
    SameLine(d, 0, 17);
    FirstLine(d);
    var c := Cursor(0, 0, |literal|, 1);
    assert Round(e, buf, n, Start()) == Goes(c, [MatchAt(d, 0, |literal|)]);
    assert Round(e, buf, n, c) == Astray;
    RoundProgresses(e, buf, n, Start());
  }

  /**
   * A literal leads the loop astray on no file at all, exactly if it is one the short search is right for or
   * holds a newline.
   */
  lemma LiteralNeverStraysIff(literal: seq<Byte>)
    requires literal != []
    ensures Reliable(literal) || NEWLINE in literal <==>
            forall buf: seq<Byte>, n: nat :: n < PCRE2_UNSET && ZeroPadded(buf, n) ==>
              !Strays(Literally(literal), buf, n, Start())
  {
    if Reliable(literal) || NEWLINE in literal {
      forall buf: seq<Byte>, n: nat | n < PCRE2_UNSET && ZeroPadded(buf, n)
        ensures !Strays(Literally(literal), buf, n, Start())
      {
        if Reliable(literal) {
          ReliableNeverStrays(Literally(literal), buf, n, Start());
        } else {
          LiteralWithNewline(literal, buf, n);
        }
      }
    } else {
      UnreliableStrays(literal);
    }
  }
}
