/** LiteralMatch_sse4_2()'s choice between the SSE search and memmem(), as a function. */
module LiteralSearch {
  import opened Bytes
  import opened Sse
  import opened ShortPattern

  /** The 16 bytes loaded from the pattern's buffer: the pattern, its NUL, and padding. */
  function PatternRegister(pattern: seq<Byte>): Reg
    requires |pattern| <= 16
  {
    pattern + seq(16 - |pattern|, i => 0)
  }

  /** Where the literal is found at or after s: up to 16 bytes by the SSE search, otherwise by memmem(). */
  function LiteralFind(buf: seq<Byte>, fileSize: nat, literal: seq<Byte>, s: nat): Option<nat>
    requires s <= fileSize && fileSize + 15 <= |buf|
  {
    if 1 <= |literal| <= 16 then
      match ShortMemmem(buf[s..], fileSize - s, PatternRegister(literal), |literal|)
      case None => None
      case Some(p) => Some(s + p)
    else LeftmostFrom(buf[..fileSize], literal, s)
  }

  /** The literals the search is right for: none of 2 to 16 bytes with a NUL at the end. */
  predicate Reliable(literal: seq<Byte>) {
    2 <= |literal| <= VEC_SIZE ==> literal[|literal| - 1] != 0
  }

  lemma LeftmostShift(text: seq<Byte>, pattern: seq<Byte>, s: nat)
    requires s <= |text|
    ensures var r := LeftmostFrom(text[s..], pattern, 0);
            LeftmostFrom(text, pattern, s) == if r.None? then None else Some(s + r.value)
  {
    var r := LeftmostFrom(text[s..], pattern, 0);
    forall q: nat | s <= q ensures OccursAt(text, pattern, q) <==> OccursAt(text[s..], pattern, q - s) {
      if q + |pattern| <= |text| {
        assert text[q..q + |pattern|] == text[s..][q - s..q - s + |pattern|];
      }
    }
    if r.Some? {
      LeftmostIsUnique(text, pattern, s, s + r.value);
    }
  }

  /** For a reliable literal the search finds the leftmost occurrence from s on. */
  lemma LiteralFindIsLeftmost(buf: seq<Byte>, fileSize: nat, literal: seq<Byte>, s: nat)
    requires ZeroPadded(buf, fileSize) && s <= fileSize && Reliable(literal)
    ensures LiteralFind(buf, fileSize, literal, s) == LeftmostFrom(buf[..fileSize], literal, s)
  {
    hide LeftmostFrom, SearchFrom;
    if 1 <= |literal| <= 16 {
      var patt := PatternRegister(literal);
      assert patt[..|literal|] == literal;
      ShortMemmemIsLeftmost(buf[s..], fileSize - s, patt, |literal|);
      assert buf[s..][..fileSize - s] == buf[..fileSize][s..];
      LeftmostShift(buf[..fileSize], literal, s);
    }
  }

  /** Whatever the literal: the leftmost occurrence, or half in the padding if there is none from s on. */
  lemma LiteralFindMeaning(buf: seq<Byte>, fileSize: nat, literal: seq<Byte>, s: nat)
    requires ZeroPadded(buf, fileSize) && s <= fileSize
    ensures Meaning(buf[..fileSize], literal, s, LiteralFind(buf, fileSize, literal, s))
    ensures literal == [] ==> LiteralFind(buf, fileSize, literal, s) == Some(s)
    ensures var r := LiteralFind(buf, fileSize, literal, s);
            Reliable(literal) && r.Some? ==> r.value + |literal| <= fileSize
  {
    hide LeftmostFrom, SearchFrom;
    if Reliable(literal) {
      LiteralFindIsLeftmost(buf, fileSize, literal, s);
    }
    if 1 <= |literal| <= 16 {
      var patt := PatternRegister(literal);
      assert patt[..|literal|] == literal;
      ShortMemmemMeaning(buf[s..], fileSize - s, patt, |literal|);
      assert buf[s..][..fileSize - s] == buf[..fileSize][s..];
      LeftmostShift(buf[..fileSize], literal, s);
    } else {
      LeftmostMeaning(buf[..fileSize], literal, s);
      if literal == [] {
        EmptyOccurs(buf[..fileSize], s);
      }
    }
  }

  lemma EmptyOccurs(text: seq<Byte>, s: nat)
    requires s <= |text|
    ensures LeftmostFrom(text, [], s) == Some(s)
  {
    assert OccursAt(text, [], s);
  }
}
