/** UTF-8 as section 3 of RFC 3629 defines it, and what skipping continuation bytes does to a text in it. */
module Utf8 {
  import opened Bytes
  import opened Lines

  /** A code point that is not a surrogate. */
  predicate Scalar(cp: int) {
    0 <= cp < 0xD800 || 0xE000 <= cp < 0x11_0000
  }

  /** The bytes of one character: 7, 11, 16 or 21 bits, six of them in each byte but the first. */
  function Encode(cp: int): (r: seq<Byte>)
    requires Scalar(cp)
    ensures 1 <= |r| <= 4
  {
    if cp < 0x80 then [cp]
    else if cp < 0x800 then [0xC0 + cp / 0x40, 0x80 + cp % 0x40]
    else if cp < 0x1_0000 then [0xE0 + cp / 0x1000, 0x80 + cp / 0x40 % 0x40, 0x80 + cp % 0x40]
    else [0xF0 + cp / 0x4_0000, 0x80 + cp / 0x1000 % 0x40, 0x80 + cp / 0x40 % 0x40, 0x80 + cp % 0x40]
  }

  predicate Text(cps: seq<int>) {
    forall i :: 0 <= i < |cps| ==> Scalar(cps[i])
  }

  function EncodeAll(cps: seq<int>): seq<Byte>
    requires Text(cps)
  {
    if cps == [] then [] else Encode(cps[0]) + EncodeAll(cps[1..])
  }

  /** The character cp stands behind the bytes pre, and UTF-8 text behind it. */
  predicate HasCharacter(d: seq<Byte>, pre: seq<Byte>, cp: int, rest: seq<int>) {
    Scalar(cp) && Text(rest) && d == pre + Encode(cp) + EncodeAll(rest)
  }

  // ---------------------------------------------------------------- continuation bytes

  /** Only the first byte of a character is no continuation byte. */
  lemma EncodedShape(cp: int, i: nat)
    requires Scalar(cp) && i < |Encode(cp)|
    ensures IsContinuation(Encode(cp)[i]) <==> i > 0
  {
  }

  /** The continuation bytes are exactly the bytes found behind the first one of some character. */
  lemma ContinuationBytes(b: Byte)
    ensures IsContinuation(b) <==>
            exists cp: int, i: nat :: Scalar(cp) && 0 < i < |Encode(cp)| && Encode(cp)[i] == b
  {
    if IsContinuation(b) {
      assert Encode(b as int)[1] == b;
    }
    forall cp: int, i: nat | Scalar(cp) && 0 < i < |Encode(cp)| ensures IsContinuation(Encode(cp)[i]) {
      EncodedShape(cp, i);
    }
  }

  lemma TextStartsCharacter(cps: seq<int>)
    requires Text(cps) && cps != []
    ensures |EncodeAll(cps)| > 0 && EncodeAll(cps)[0] == Encode(cps[0])[0] && !IsContinuation(EncodeAll(cps)[0])
  {
    EncodedShape(cps[0], 0);
  }

  /** Wherever one is in a character, skipping from the next byte on ends at the first byte behind the character. */
  lemma SkipsOneCharacter(d: seq<Byte>, pre: seq<Byte>, cp: int, rest: seq<int>, p: nat)
    requires HasCharacter(d, pre, cp, rest) && |pre| <= p < |pre| + |Encode(cp)|
    ensures SkipContinuation(d, p + 1) == |pre| + |Encode(cp)|
  {
    hide Encode, EncodeAll, IsContinuation;
    var end := |pre| + |Encode(cp)|;
    forall q | p < q < end ensures IsContinuation(d[q]) {
      EncodedShape(cp, q - |pre|);
    }
    TextNotEmpty(rest);
    if rest != [] {
      TextStartsCharacter(rest);
      assert d[end] == EncodeAll(rest)[0];
    }
  }

  lemma TextNotEmpty(cps: seq<int>)
    requires Text(cps)
    ensures EncodeAll(cps) == [] <==> cps == []
  {
  }

  // ---------------------------------------------------------------- newlines

  const LINE_FEED: int := '\n' as int

  function CountLineFeeds(cps: seq<int>): nat {
    if cps == [] then 0 else (if cps[0] == LINE_FEED then 1 else 0) + CountLineFeeds(cps[1..])
  }

  /** A newline byte is a line feed: no longer character holds one. */
  lemma NewlineIsLineFeed(cp: int, i: nat)
    requires Scalar(cp) && i < |Encode(cp)|
    ensures Encode(cp)[i] == NEWLINE <==> cp == LINE_FEED
  {
  }

  /** In a text no continuation byte follows a newline. */
  lemma {:induction false} TextNewlines(cps: seq<int>, n: nat)
    requires Text(cps) && n + 1 < |EncodeAll(cps)| && EncodeAll(cps)[n] == NEWLINE
    ensures !IsContinuation(EncodeAll(cps)[n + 1])
    decreases |cps|
  {
    hide Encode, IsContinuation;
    var len := |Encode(cps[0])|;
    if n < len {
      NewlineIsLineFeed(cps[0], n);
      LineFeedIsOneByte();
      TextNotEmpty(cps[1..]);
      TextStartsCharacter(cps[1..]);
    } else {
      TextNewlines(cps[1..], n - len);
    }
  }

  lemma LineFeedIsOneByte()
    ensures Encode(LINE_FEED) == [NEWLINE]
  {
  }

  lemma {:induction false} CountOfPart(a: seq<Byte>, b: seq<Byte>, lo: nat, hi: nat)
    requires lo <= hi <= |b|
    ensures CountIn(a + b, |a| + lo, |a| + hi) == CountIn(b, lo, hi)
    decreases hi - lo
  {
    if lo < hi {
      CountOfPart(a, b, lo, hi - 1);
    }
  }

  lemma CountOfCharacter(cp: int, rest: seq<Byte>)
    requires Scalar(cp)
    ensures CountIn(Encode(cp) + rest, 0, |Encode(cp)|) == if cp == LINE_FEED then 1 else 0
  {
    hide Encode;
    var d := Encode(cp) + rest;
    if cp == LINE_FEED {
      LineFeedIsOneByte();
      assert CountIn(d, 0, 0) == 0;
    } else {
      forall i | 0 <= i < |Encode(cp)| ensures d[i] != NEWLINE {
        NewlineIsLineFeed(cp, i);
      }
      CountZero(d, 0, |Encode(cp)|);
    }
  }

  /** A character is on the line that the line feeds before it say. */
  lemma {:induction false} LineOfCharacter(pre: seq<int>, rest: seq<Byte>)
    requires Text(pre)
    ensures LineOf(EncodeAll(pre) + rest, |EncodeAll(pre)|) == 1 + CountLineFeeds(pre)
    decreases |pre|
  {
    hide Encode;
    if pre != [] {
      var a, b := Encode(pre[0]), EncodeAll(pre[1..]);
      var d := EncodeAll(pre) + rest;
      assert d == a + (b + rest);
      CountOfCharacter(pre[0], b + rest);
      CountOfPart(a, b + rest, 0, |b|);
      CountSplit(d, 0, |a|, |a| + |b|);
      LineOfCharacter(pre[1..], rest);
    }
  }
}
