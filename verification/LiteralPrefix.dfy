/** Which patterns are plain text, and how much plain text a pattern starts with. */
module LiteralPrefix {
  import opened Bytes

  const BACKSLASH: Byte := 92
  const CARET: Byte := 94
  const DOLLAR: Byte := 36
  const DOT: Byte := 46
  const OPEN_BRACKET: Byte := 91
  const CLOSE_BRACKET: Byte := 93
  const OPEN_PAREN: Byte := 40
  const CLOSE_PAREN: Byte := 41
  const QUESTION: Byte := 63
  const STAR: Byte := 42
  const PLUS: Byte := 43
  const OPEN_BRACE: Byte := 123
  const CLOSE_BRACE: Byte := 125
  const BAR: Byte := 124

  const METACHARS: set<Byte> := {BACKSLASH, CARET, DOLLAR, DOT, OPEN_BRACKET, CLOSE_BRACKET, OPEN_PAREN, CLOSE_PAREN,
                                 QUESTION, STAR, PLUS, OPEN_BRACE, CLOSE_BRACE}

  function IsPatternLiteral(regex: seq<Byte>): bool {
    FirstMember(regex, METACHARS + {BAR}, 0) == |regex|
  }

  function GetLiteralPrefixLen(regex: seq<Byte>): nat {
    if FirstMember(regex, {BAR}, 0) != |regex| then 1
    else
      var firstMeta := FirstMember(regex, METACHARS, 0);
      if firstMeta == |regex| then 1
      else
        var optional := regex[firstMeta] in {QUESTION, STAR, OPEN_BRACE};
        var len := if firstMeta > 1 && optional then firstMeta - 1 else firstMeta;
        if len < 255 then len else 255
  }

  // ---------------------------------------------------------------- a pattern syntax

  /** The bytes that a quantifier begins with, and all those that do not stand for themselves in a pattern. */
  const QUANTIFIERS: set<int> := {'?' as int, '*' as int, '+' as int, '{' as int}
  const SPECIAL: set<int> := QUANTIFIERS + {'\\' as int, '^' as int, '$' as int, '.' as int, '[' as int, '(' as int,
                                            ')' as int, '|' as int}

  /** A literal byte, or anything else (group, class, escape, anchor), which starts with a special byte. */
  datatype Atom = Literal(c: Byte) | Opaque(text: seq<Byte>)

  /** '?', '*', '+' or '{' with whatever follows it, such as a lazy mark or the rest of the braces. */
  datatype Quantifier = Once | Repeat(mark: Byte, rest: seq<Byte>)

  datatype Item = Item(atom: Atom, quantifier: Quantifier)

  /** A pattern is a list of alternatives, each a list of items. */
  type Pattern = seq<seq<Item>>

  predicate WellFormedItem(item: Item) {
    && (match item.atom
        case Literal(c) => c !in SPECIAL
        case Opaque(text) => text != [] && text[0] in SPECIAL && text[0] != '|' as int)
    && (item.quantifier.Repeat? ==> item.quantifier.mark in QUANTIFIERS)
  }

  predicate WellFormedPattern(p: Pattern) {
    p != [] && forall b :: b in p ==> forall item :: item in b ==> WellFormedItem(item)
  }

  function RenderItem(item: Item): seq<Byte> {
    (match item.atom case Literal(c) => [c] case Opaque(text) => text)
    + (match item.quantifier case Once => [] case Repeat(mark, rest) => [mark] + rest)
  }

  function RenderItems(items: seq<Item>): seq<Byte> {
    if items == [] then [] else RenderItem(items[0]) + RenderItems(items[1..])
  }

  /** The pattern text: the alternatives joined by '|'. */
  function Render(p: Pattern): seq<Byte>
    requires p != []
  {
    if |p| == 1 then RenderItems(p[0]) else RenderItems(p[0]) + ['|' as int] + Render(p[1..])
  }

  /** What an item may match: opaque atoms anything, literals their byte as often as the quantifier allows. */
  ghost predicate ItemMatches(item: Item, text: seq<Byte>) {
    match item.atom
    case Opaque(_) => true
    case Literal(c) =>
      && (forall i :: 0 <= i < |text| ==> text[i] == c)
      && (match item.quantifier
          case Once => |text| == 1
          case Repeat(mark, _) => (mark == '?' as int ==> |text| <= 1) && (mark == '+' as int ==> |text| >= 1))
  }

  ghost predicate ItemsMatch(items: seq<Item>, text: seq<Byte>) {
    if items == [] then text == []
    else exists n :: 0 <= n <= |text| && ItemMatches(items[0], text[..n]) && ItemsMatch(items[1..], text[n..])
  }

  ghost predicate PatternMatches(p: Pattern, text: seq<Byte>) {
    exists b :: b in p && ItemsMatch(b, text)
  }

  // ---------------------------------------------------------------- soundness

  /** How the text of an item list begins. */
  lemma RenderHead(items: seq<Item>)
    requires items != [] && WellFormedItem(items[0])
    ensures RenderItems(items) != []
    ensures items[0].atom.Opaque? ==> RenderItems(items)[0] in METACHARS
    ensures items[0].atom.Literal? && items[0].quantifier.Once? ==>
              RenderItems(items) == [items[0].atom.c] + RenderItems(items[1..])
    ensures items[0].atom.Literal? && items[0].quantifier.Repeat? ==>
              |RenderItems(items)| >= 2 && RenderItems(items)[..2] == [items[0].atom.c, items[0].quantifier.mark]
              && RenderItems(items)[1] == items[0].quantifier.mark
  {
  }

  /** Leading literal bytes that no '?', '*' or '{' follows open every match. */
  lemma {:induction false} LeadingLiterals(items: seq<Item>, text: seq<Byte>, n: nat)
    requires forall item :: item in items ==> WellFormedItem(item)
    requires ItemsMatch(items, text) && n <= |RenderItems(items)|
    requires forall i :: 0 <= i < n ==> RenderItems(items)[i] !in METACHARS
    requires n < |RenderItems(items)| ==> RenderItems(items)[n] !in {QUESTION, STAR, OPEN_BRACE}
    ensures n <= |text| && text[..n] == RenderItems(items)[..n]
    decreases |items|, 0
  {
    if n > 0 {
      var item, rest := items[0], items[1..];
      RenderHead(items);
      var all := RenderItems(items);
      var k :| 0 <= k <= |text| && ItemMatches(item, text[..k]) && ItemsMatch(rest, text[k..]);
      if item.quantifier.Once? {
        LeadingLiteral(item, rest, text, k, n, all);
      } else {
        RepeatedLiteral(item, text, k, n, all);
      }
    }
  }

  lemma LeadingLiteral(item: Item, rest: seq<Item>, text: seq<Byte>, k: nat, n: nat, all: seq<Byte>)
    requires item.atom.Literal? && item.quantifier.Once? && k <= |text| && 0 < n <= |all|
    requires forall item :: item in rest ==> WellFormedItem(item)
    requires ItemMatches(item, text[..k]) && ItemsMatch(rest, text[k..])
    requires all == [item.atom.c] + RenderItems(rest)
    requires forall i :: 0 <= i < n ==> all[i] !in METACHARS
    requires n < |all| ==> all[n] !in {QUESTION, STAR, OPEN_BRACE}
    ensures n <= |text| && text[..n] == all[..n]
    decreases |rest|, 1
  {
    var tail := RenderItems(rest);
    forall i | 0 <= i < n - 1 ensures tail[i] !in METACHARS {
      assert tail[i] == all[i + 1];
    }
    LeadingLiterals(rest, text[k..], n - 1);
    assert text[..k][0] == item.atom.c;
    assert text == [item.atom.c] + text[k..];
  }

  lemma RepeatedLiteral(item: Item, text: seq<Byte>, k: nat, n: nat, all: seq<Byte>)
    requires item.atom.Literal? && item.quantifier.Repeat? && WellFormedItem(item) && k <= |text| && 0 < n <= |all|
    requires ItemMatches(item, text[..k])
    requires |all| >= 2 && all[..2] == [item.atom.c, item.quantifier.mark]
    requires forall i :: 0 <= i < n ==> all[i] !in METACHARS
    requires n < |all| ==> all[n] !in {QUESTION, STAR, OPEN_BRACE}
    ensures n <= |text| && text[..n] == all[..n]
  {
    assert all[0] == item.atom.c && all[1] == item.quantifier.mark;
    assert n == 1 && item.quantifier.mark == PLUS;
    assert text[..k][0] == item.atom.c;
  }

  lemma {:induction false} AlternativesShowBar(p: Pattern)
    requires |p| > 1
    ensures FirstMember(Render(p), {BAR}, 0) != |Render(p)|
    ensures !IsPatternLiteral(Render(p))
  {
    assert Render(p)[|RenderItems(p[0])|] == BAR;
  }

  /** Whenever the prefix length exceeds 1, every match of the pattern begins with that many pattern bytes. */
  lemma LiteralPrefixIsSound(p: Pattern, text: seq<Byte>)
    requires WellFormedPattern(p) && PatternMatches(p, text)
    requires GetLiteralPrefixLen(Render(p)) > 1
    ensures var len := GetLiteralPrefixLen(Render(p));
            len <= |Render(p)| && OccursAt(text, Render(p)[..len], 0)
  {
    if |p| > 1 {
      AlternativesShowBar(p);
    }
    var b :| b in p && ItemsMatch(b, text);
    LeadingLiterals(b, text, GetLiteralPrefixLen(Render(p)));
  }

  /** The bytes that end a literal prefix: the closing bracket and brace as well, which may stand for themselves. */
  const STOPPERS: set<int> := SPECIAL + {']' as int, '}' as int}

  lemma StoppersAre(b: Byte)
    ensures b in METACHARS + {BAR} <==> b in STOPPERS
  {
  }

  /** A pattern is taken for literal exactly if it holds none of these bytes. */
  lemma IsPatternLiteralIff(regex: seq<Byte>)
    ensures IsPatternLiteral(regex) <==> forall i :: 0 <= i < |regex| ==> regex[i] !in STOPPERS
  {
    hide STOPPERS;
    forall i | 0 <= i < |regex| ensures regex[i] in METACHARS + {BAR} <==> regex[i] in STOPPERS {
      StoppersAre(regex[i]);
    }
  }

  /** The prefix of any other pattern without '|' ends only at such a byte, before an optional one, or at 255 bytes. */
  lemma LiteralPrefixIsLongest(regex: seq<Byte>)
    requires !IsPatternLiteral(regex) && forall i :: 0 <= i < |regex| ==> regex[i] != '|' as int
    ensures var len := GetLiteralPrefixLen(regex);
            && len < |regex| && (forall i :: 0 <= i < len ==> regex[i] !in STOPPERS)
            && (len == 255 || regex[len] in STOPPERS
                || (len + 1 < |regex| && regex[len + 1] in {'?' as int, '*' as int, '{' as int}))
  {
    hide STOPPERS;
    IsPatternLiteralIff(regex);
    var i :| 0 <= i < |regex| && regex[i] in STOPPERS;
    forall k | 0 <= k < |regex| ensures regex[k] in METACHARS <==> regex[k] in STOPPERS {
      StoppersAre(regex[k]);
    }
  }

  // ---------------------------------------------------------------- and exactness of the literal test

  /** The pattern that is nothing but the given bytes. */
  function LiteralItems(s: seq<Byte>): seq<Item> {
    if s == [] then [] else [Item(Literal(s[0]), Once)] + LiteralItems(s[1..])
  }

  lemma {:induction false} LiteralItemsMatchOnlyTheirText(s: seq<Byte>, text: seq<Byte>)
    ensures RenderItems(LiteralItems(s)) == s
    ensures ItemsMatch(LiteralItems(s), text) <==> text == s
    decreases |s|
  {
    if s != [] {
      var items := LiteralItems(s);
      assert items[1..] == LiteralItems(s[1..]);
      LiteralItemsMatchOnlyTheirText(s[1..], if text == [] then [] else text[1..]);
      if text == s {
        assert ItemMatches(items[0], text[..1]) && ItemsMatch(items[1..], text[1..]);
      }
      if ItemsMatch(items, text) {
        var n :| 0 <= n <= |text| && ItemMatches(items[0], text[..n]) && ItemsMatch(items[1..], text[n..]);
        assert text[..n][0] == s[0];
      }
    }
  }

  lemma {:induction false} LiteralItemsAreWellFormed(s: seq<Byte>)
    requires IsPatternLiteral(s)
    ensures forall item :: item in LiteralItems(s) ==> WellFormedItem(item)
    decreases |s|
  {
    if s != [] {
      forall i | 0 <= i < |s[1..]| ensures s[1..][i] !in METACHARS + {BAR} {
        assert s[1..][i] == s[i + 1];
      }
      LiteralItemsAreWellFormed(s[1..]);
    }
  }

  /** Items whose text holds no metacharacter are literal bytes without quantifiers. */
  lemma {:induction false} PlainItems(items: seq<Item>)
    requires forall item :: item in items ==> WellFormedItem(item)
    requires forall i :: 0 <= i < |RenderItems(items)| ==> RenderItems(items)[i] !in METACHARS
    ensures items == LiteralItems(RenderItems(items))
    decreases |items|
  {
    if items != [] {
      var all, rest := RenderItems(items), RenderItems(items[1..]);
      RenderHead(items);
      assert items[0].quantifier.Once?;
      forall i | 0 <= i < |rest| ensures rest[i] !in METACHARS {
        assert rest[i] == all[i + 1];
      }
      PlainItems(items[1..]);
      assert all[1..] == rest;
    }
  }

  /** IsPatternLiteral() is right: a pattern text that it accepts stands for its own bytes and nothing else. */
  lemma LiteralPatternIsItsText(s: seq<Byte>)
    requires IsPatternLiteral(s)
    ensures WellFormedPattern([LiteralItems(s)]) && Render([LiteralItems(s)]) == s
    ensures forall p: Pattern :: WellFormedPattern(p) && Render(p) == s ==> p == [LiteralItems(s)]
  {
    LiteralItemsAreWellFormed(s);
    LiteralItemsMatchOnlyTheirText(s, s);
    forall p: Pattern | WellFormedPattern(p) && Render(p) == s ensures p == [LiteralItems(s)] {
      if |p| > 1 {
        AlternativesShowBar(p);
      } else {
        assert p[0] in p;
        PlainItems(p[0]);
      }
    }
  }
}
