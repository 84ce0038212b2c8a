/** The 16-bit masks of the SSE routines as bits, least significant first: and, minus one, popcount, find-first-set. */
module Bits {

  type Mask = m: seq<bool> | |m| == 16 witness seq(16, i => false)

  /** The unsigned number the bits stand for. */
  function Value(bits: seq<bool>): nat {
    if bits == [] then 0 else (if bits[0] then 1 else 0) + 2 * Value(bits[1..])
  }

  /** How many of the bits are set. */
  function BitCount(bits: seq<bool>): nat {
    if bits == [] then 0 else (if bits[0] then 1 else 0) + BitCount(bits[1..])
  }

  function And(a: seq<bool>, b: seq<bool>): (c: seq<bool>)
    requires |a| == |b|
    ensures |c| == |a|
  {
    seq(|a|, i requires 0 <= i < |a| => a[i] && b[i])
  }

  /** bits - 1, borrowing through the low zeros and wrapping at zero. */
  function MinusOne(bits: seq<bool>): (c: seq<bool>)
    ensures |c| == |bits|
  {
    if bits == [] then [] else if bits[0] then [false] + bits[1..] else [true] + MinusOne(bits[1..])
  }

  /** Subtracting one bit by bit is subtracting one. */
  lemma {:induction false} MinusOneIsMinusOne(bits: seq<bool>)
    requires Value(bits) > 0
    ensures Value(MinusOne(bits)) == Value(bits) - 1
  {
    if !bits[0] {
      MinusOneIsMinusOne(bits[1..]);
    }
  }

  /** bits & (bits - 1) clears the lowest set bit and nothing else. */
  lemma {:induction false} ClearLowestBit(bits: seq<bool>)
    requires Value(bits) > 0
    ensures BitCount(And(bits, MinusOne(bits))) == BitCount(bits) - 1
    ensures Value(And(bits, MinusOne(bits))) < Value(bits)
  {
    var rest := bits[1..];
    var c := And(bits, MinusOne(bits));
    if bits[0] {
      assert c[1..] == rest;
    } else {
      ClearLowestBit(rest);
      assert c[1..] == And(rest, MinusOne(rest));
    }
  }

  lemma {:induction false} ZeroHasNoBits(bits: seq<bool>)
    ensures Value(bits) == 0 <==> forall i :: 0 <= i < |bits| ==> !bits[i]
    ensures Value(bits) == 0 <==> BitCount(bits) == 0
  {
    if bits != [] {
      ZeroHasNoBits(bits[1..]);
      assert forall i :: 0 < i < |bits| ==> bits[i] == bits[1..][i - 1];
    }
  }

  /** popcount16(), Kernighan's loop: one round per set bit. */
  method PopCount16(mask: Mask) returns (numSetBits: nat)
    ensures numSetBits == BitCount(mask)
  {
    var bits: seq<bool> := mask;
    numSetBits := 0;
    while Value(bits) != 0
      invariant numSetBits + BitCount(bits) == BitCount(mask)
      decreases Value(bits)
    {
      ClearLowestBit(bits);
      bits := And(bits, MinusOne(bits));
      numSetBits := numSetBits + 1;
    }
    ZeroHasNoBits(bits);
  }

  /** find_first_set_bit(): 0 when no bit is set, else one more than the index of the lowest set bit. */
  function FindFirstSetBit(bits: seq<bool>): (f: nat)
    ensures f <= |bits|
    ensures f == 0 <==> forall i :: 0 <= i < |bits| ==> !bits[i]
    ensures f > 0 ==> bits[f - 1] && forall i :: 0 <= i < f - 1 ==> !bits[i]
  {
    if bits == [] then 0
    else if bits[0] then 1
    else
      var f := FindFirstSetBit(bits[1..]);
      assert forall i :: 0 < i < |bits| ==> bits[i] == bits[1..][i - 1];
      if f == 0 then 0 else f + 1
  }

  /** 0xFFFF << n, cut to 16 bits. */
  function OnesShiftedLeft(n: nat): Mask {
    seq(16, i => i >= n)
  }

  /** 0xFFFF >> n. */
  function OnesShiftedRight(n: nat): Mask {
    seq(16, i => i < 16 - n)
  }

  lemma {:induction false} BitCountAppend(a: seq<bool>, b: seq<bool>)
    ensures BitCount(a + b) == BitCount(a) + BitCount(b)
  {
    if a == [] {
      assert a + b == b;
    } else {
      assert (a + b)[1..] == a[1..] + b;
      BitCountAppend(a[1..], b);
    }
  }

  /** Bits outside [lo, hi) that are clear do not count. */
  lemma BitCountWithin(bits: seq<bool>, lo: nat, hi: nat)
    requires lo <= hi <= |bits|
    requires forall i :: 0 <= i < |bits| && !(lo <= i < hi) ==> !bits[i]
    ensures BitCount(bits) == BitCount(bits[lo..hi])
  {
    assert bits == bits[..lo] + (bits[lo..hi] + bits[hi..]);
    BitCountAppend(bits[..lo], bits[lo..hi] + bits[hi..]);
    BitCountAppend(bits[lo..hi], bits[hi..]);
    ZeroHasNoBits(bits[..lo]);
    ZeroHasNoBits(bits[hi..]);
  }
}
