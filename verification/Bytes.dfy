/** Bytes, optional values and the leftmost-occurrence search every other module is measured against. */
module Bytes {

  datatype Option<+T> = None | Some(value: T)

  type Byte = b: int | 0 <= b < 256

  const NEWLINE: Byte := 10

  /** A byte of the form 10xxxxxx, that is (b & 0xC0) == 0x80: section 3 of RFC 3629. */
  predicate IsContinuation(b: Byte) {
    b / 64 == 2
  }

  /** The pattern occurs in text at position p. */
  predicate OccursAt(text: seq<Byte>, pattern: seq<Byte>, p: nat) {
    p + |pattern| <= |text| && text[p..p + |pattern|] == pattern
  }

  /** The leftmost position at or after start where the pattern occurs: what memmem() promises. */
  function LeftmostFrom(text: seq<Byte>, pattern: seq<Byte>, start: nat): (r: Option<nat>)
    ensures r.Some? ==> start <= r.value && OccursAt(text, pattern, r.value)
    ensures r.Some? ==> forall q :: start <= q < r.value ==> !OccursAt(text, pattern, q)
    ensures r.None? ==> forall q :: start <= q ==> !OccursAt(text, pattern, q)
    decreases |text| - start
  {
    if start + |pattern| > |text| then None
    else if OccursAt(text, pattern, start) then Some(start)
    else LeftmostFrom(text, pattern, start + 1)
  }

  /** There is only one answer to a leftmost search. */
  lemma LeftmostIsUnique(text: seq<Byte>, pattern: seq<Byte>, start: nat, p: nat)
    requires start <= p && OccursAt(text, pattern, p)
    requires forall q :: start <= q < p ==> !OccursAt(text, pattern, q)
    ensures LeftmostFrom(text, pattern, start) == Some(p)
  {
    var r := LeftmostFrom(text, pattern, start);
    assert r.Some?;
  }

  /** The first position at or after start whose byte is in s; |text| when there is none. */
  function FirstMember(text: seq<Byte>, s: set<Byte>, start: nat): (r: nat)
    requires start <= |text|
    ensures start <= r <= |text|
    ensures forall q :: start <= q < r ==> text[q] !in s
    ensures r < |text| ==> text[r] in s
    decreases |text| - start
  {
    if start == |text| || text[start] in s then start else FirstMember(text, s, start + 1)
  }
}
