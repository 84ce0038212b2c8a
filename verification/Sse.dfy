/**
 * PCMPESTRI on unsigned bytes, least significant index, positive polarity
 * (Intel SDM Volume 2B, sections 4.1.3 aggregation and 4.1.6 valid/invalid override).
 *
 * a is the first operand with explicit length la, b the second with explicit length lb.
 */
module Sse {
  import opened Bytes

  type Reg = r: seq<Byte> | |r| == 16 witness seq(16, i => 0)

  /** Equal Ordered: a occurs at lane j of b; what the register's end cuts off is taken to match. */
  predicate EqualOrdered(a: Reg, la: nat, b: Reg, lb: nat, j: nat) {
    forall i :: 0 <= i < 16 - j && i < la ==> j + i < lb && a[i] == b[j + i]
  }

  /** Equal Any: lane j of b is one of the bytes of a. */
  predicate EqualAny(a: Reg, la: nat, b: Reg, lb: nat, j: nat)
    requires j < 16
  {
    j < lb && exists i :: 0 <= i < 16 && i < la && a[i] == b[j]
  }

  /** Ranges: lane j of b lies in one of the byte pairs of a; an odd last byte of a makes no pair. */
  predicate Ranges(a: Reg, la: nat, b: Reg, lb: nat, j: nat)
    requires j < 16
  {
    j < lb && exists i :: 0 <= i < 8 && 2 * i + 1 < la && a[2 * i] <= b[j] <= a[2 * i + 1]
  }

  /** Index of the first lane set from j on; 16 when none is. */
  function LeastIndex(lanes: seq<bool>, j: nat): (r: nat)
    requires |lanes| == 16 && j <= 16
    ensures j <= r <= 16
    ensures forall i :: j <= i < r ==> !lanes[i]
    ensures r < 16 ==> lanes[r]
    decreases 16 - j
  {
    if j == 16 || lanes[j] then j else LeastIndex(lanes, j + 1)
  }

  function CmpEqualOrdered(a: Reg, la: nat, b: Reg, lb: nat): (r: nat)
    ensures r <= 16
    ensures forall j :: 0 <= j < r ==> !EqualOrdered(a, la, b, lb, j)
    ensures r < 16 ==> EqualOrdered(a, la, b, lb, r)
  {
    var lanes := seq(16, j requires 0 <= j < 16 => EqualOrdered(a, la, b, lb, j));
    assert forall j :: 0 <= j < 16 ==> lanes[j] == EqualOrdered(a, la, b, lb, j);
    LeastIndex(lanes, 0)
  }

  function CmpEqualAny(a: Reg, la: nat, b: Reg, lb: nat): (r: nat)
    ensures r <= 16
    ensures forall j :: 0 <= j < r ==> !EqualAny(a, la, b, lb, j)
    ensures r < 16 ==> EqualAny(a, la, b, lb, r)
  {
    var lanes := seq(16, j requires 0 <= j < 16 => EqualAny(a, la, b, lb, j));
    assert forall j :: 0 <= j < 16 ==> lanes[j] == EqualAny(a, la, b, lb, j);
    LeastIndex(lanes, 0)
  }

  function CmpRanges(a: Reg, la: nat, b: Reg, lb: nat): (r: nat)
    ensures r <= 16
    ensures forall j :: 0 <= j < r ==> !Ranges(a, la, b, lb, j)
    ensures r < 16 ==> Ranges(a, la, b, lb, r)
  {
    var lanes := seq(16, j requires 0 <= j < 16 => Ranges(a, la, b, lb, j));
    assert forall j :: 0 <= j < 16 ==> lanes[j] == Ranges(a, la, b, lb, j);
    LeastIndex(lanes, 0)
  }
}
