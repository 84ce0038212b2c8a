/** The read buffer: over-aligned allocation, reuse, and the zeroed vector's worth of bytes after the data. */
module ResizableArray {
  import opened Bytes
  import ShortPattern

  const VECTOR_SIZE: nat := 128
  const POINTER_SIZE: nat := 8
  const SIZE_LIMIT: nat := 0x1_0000_0000_0000_0000

  // ---------------------------------------------------------------- powers of two

  /** Bitwise and. */
  function BitAnd(x: nat, y: nat): nat {
    if x == 0 || y == 0 then 0 else (if x % 2 == 1 && y % 2 == 1 then 1 else 0) + 2 * BitAnd(x / 2, y / 2)
  }

  predicate IsPower(x: nat) {
    x == 1 || (x > 1 && x % 2 == 0 && IsPower(x / 2))
  }

  /** is_power_of_2, as it is computed. */
  predicate IsPowerOf2(x: nat) {
    x != 0 && BitAnd(x, x - 1) == 0
  }

  lemma {:induction false} AndWithItself(x: nat)
    ensures BitAnd(x, x) == x
  {
    if x != 0 {
      AndWithItself(x / 2);
    }
  }

  /** The bit trick recognises exactly the powers of two. */
  lemma {:induction false} IsPowerOf2IsRight(x: nat)
    ensures IsPowerOf2(x) <==> IsPower(x)
  {
    if x == 0 || x == 1 {
    } else if x % 2 == 0 {
      assert (x - 1) / 2 == x / 2 - 1 && (x - 1) % 2 == 1;
      IsPowerOf2IsRight(x / 2);
    } else {
      assert (x - 1) / 2 == x / 2 && (x - 1) % 2 == 0;
      AndWithItself(x / 2);
    }
  }

  lemma HalfOfMod(x: nat, a: nat)
    requires a > 0
    ensures x % (2 * a) == x % 2 + 2 * ((x / 2) % a)
  {
    var h := x / 2;
    assert h == a * (h / a) + h % a;
    assert x == 2 * a * (h / a) + (x % 2 + 2 * (h % a));
    ModOf(2 * a, h / a, x % 2 + 2 * (h % a));
  }

  lemma ModOf(m: nat, q: nat, r: nat)
    requires r < m
    ensures (m * q + r) % m == r
  {
    var a := m * q + r;
    var d := q - a / m;
    assert m * d == m * q - m * (a / m);
    FarFromZero(m, d);
  }

  lemma FarFromZero(m: int, d: int)
    requires m > 0
    ensures d >= 1 ==> m * d >= m
    ensures d <= -1 ==> m * d <= -m
  {
    if d >= 1 {
      assert m * d == m * (d - 1) + m;
    } else if d <= -1 {
      assert m * d == m * (d + 1) - m;
    }
  }

  lemma MaskStep(x: nat, h: nat)
    requires h > 0 && BitAnd(x / 2, h - 1) == (x / 2) % h
    ensures BitAnd(x, 2 * h - 1) == x % (2 * h)
  {
    hide BitAnd;
    HalfOfMod(x, h);
    OddHalf(h);
    AndHalves(x, 2 * h - 1);
  }

  lemma OddHalf(h: nat)
    requires h > 0
    ensures (2 * h - 1) / 2 == h - 1 && (2 * h - 1) % 2 == 1
  {
  }

  lemma AndHalves(x: nat, y: nat)
    ensures BitAnd(x, y) == (if x % 2 == 1 && y % 2 == 1 then 1 else 0) + 2 * BitAnd(x / 2, y / 2)
  {
  }

  /** Masking with a power of two less one is the remainder. */
  lemma {:induction false} MaskIsRemainder(x: nat, a: nat)
    requires IsPower(a)
    ensures BitAnd(x, a - 1) == x % a
  {
    if a > 1 {
      var h := a / 2;
      assert a == 2 * h;
      MaskIsRemainder(x / 2, h);
      MaskStep(x, h);
    }
  }

  /** Of two powers of two the smaller divides the larger, and whatever the larger divides. */
  lemma {:induction false} SmallerPowerDivides(p: nat, q: nat)
    requires IsPower(p) && IsPower(q) && p <= q
    ensures q % p == 0
  {
    if p > 1 {
      SmallerPowerDivides(p / 2, q / 2);
      HalfOfMod(q, p / 2);
    }
  }

  lemma DividesThrough(x: nat, q: nat, p: nat)
    requires p > 0 && q > 0 && x % q == 0 && q % p == 0
    ensures x % p == 0
  {
    var m, n := x / q, q / p;
    assert x == q * m && q == p * n;
    assert x == p * (n * m);
    ModOf(p, n * m, 0);
  }

  function Power(k: nat): (r: nat)
    ensures r > 0 && IsPower(r)
  {
    if k == 0 then 1 else 2 * Power(k - 1)
  }

  function CountTrailingZeros(x: nat): nat
    requires x > 0
  {
    if x % 2 == 1 then 0 else 1 + CountTrailingZeros(x / 2)
  }

  lemma {:induction false} TrailingZerosDivide(x: nat, k: nat)
    requires x > 0 && k <= CountTrailingZeros(x)
    ensures x % Power(k) == 0
  {
    if k > 0 {
      TrailingZerosDivide(x / 2, k - 1);
      HalfOfMod(x, Power(k - 1));
    }
  }

  // ---------------------------------------------------------------- allocation

  /** overaligned_alloc throws std::bad_alloc for any other alignment. */
  predicate Acceptable(alignment: nat) {
    IsPowerOf2(alignment) && alignment >= POINTER_SIZE
  }

  /** Which are the powers of two that a pointer's size divides. */
  lemma AcceptableIff(alignment: nat)
    ensures Acceptable(alignment) <==> IsPower(alignment) && alignment % 8 == 0
  {
    IsPowerOf2IsRight(alignment);
    if Acceptable(alignment) {
      assert IsPower(8) by {
        assert IsPower(1) && IsPower(2) && IsPower(4);
      }
      SmallerPowerDivides(8, alignment);
    }
  }

  /** The size asked of aligned_alloc, before the arithmetic wraps. */
  function Rounded(size: nat, alignment: nat): int
    requires alignment > 0
  {
    (size + VECTOR_SIZE + alignment) - BitAnd(size + VECTOR_SIZE, alignment - 1)
  }

  /** The size asked of aligned_alloc, in size_t arithmetic. */
  function Requested(size: nat, alignment: nat): nat
    requires alignment > 0
  {
    Rounded(size, alignment) % SIZE_LIMIT
  }

  lemma NextMultiple(n: nat, m: nat)
    requires m > 0
    ensures (n + m - n % m) % m == 0
  {
    var q := n / m;
    assert n == m * q + n % m;
    assert m * (q + 1) == m * q + m;
    ModOf(m, q + 1, 0);
  }

  lemma RoundedUp(size: nat, alignment: nat)
    requires Acceptable(alignment)
    ensures var r := Rounded(size, alignment);
            r % alignment == 0 && size + VECTOR_SIZE < r <= size + VECTOR_SIZE + alignment
  {
    IsPowerOf2IsRight(alignment);
    MaskIsRemainder(size + VECTOR_SIZE, alignment);
    NextMultiple(size + VECTOR_SIZE, alignment);
  }

  /**
    * The request is a multiple of the alignment, holds the data and the extra vector, and exceeds
    * them by at most one alignment: exactly as long as size_t does not overflow.
    */
  lemma RequestIsRight(size: nat, alignment: nat)
    requires Acceptable(alignment) && alignment < SIZE_LIMIT
    ensures (var r := Requested(size, alignment);
             r % alignment == 0 && size + VECTOR_SIZE <= r <= size + VECTOR_SIZE + alignment)
            <==> Rounded(size, alignment) < SIZE_LIMIT
    ensures Rounded(size, alignment) >= SIZE_LIMIT ==> Requested(size, alignment) < size + VECTOR_SIZE
  {
    RoundedUp(size, alignment);
    hide BitAnd, Rounded, Acceptable;
    Wraps(Rounded(size, alignment), size + VECTOR_SIZE, alignment);
  }

  /** A sum of two operands, the second less than the limit: taken modulo the limit it is too small if it wraps. */
  lemma Wraps(r: nat, low: nat, alignment: nat)
    requires low < r <= low + alignment && alignment < SIZE_LIMIT
    ensures r >= SIZE_LIMIT ==> r % SIZE_LIMIT < low
    ensures r < SIZE_LIMIT ==> r % SIZE_LIMIT == r
  {
  }

  /** The buffer, std::bad_alloc, or zero bytes written behind a block for which size_t was too small. */
  datatype Grant = Buffer(data: array<Byte>) | BadAlloc | Overrun

  /** What std::malloc's family promises: a block of that size at a multiple of the alignment, or nothing. */
  predicate Delivers(address: Option<nat>, alignment: nat) {
    address.Some? && alignment > 0 ==> address.value > 0 && address.value % alignment == 0
  }

  class ResizableArray {
    var bufferSize: nat
    var bufferAlignment: nat
    var buffer: array?<Byte>
    ghost var address: nat               // where the buffer is
    ghost var live: bool                 // the buffer has not been freed

    ghost predicate Valid()
      reads this
    {
      buffer != null ==>
        && live && address > 0
        && buffer.Length > bufferSize + VECTOR_SIZE
        && IsPower(bufferAlignment) && address % bufferAlignment == 0
    }

    constructor ()
      ensures Valid() && buffer == null
    {
      bufferSize := 0;
      bufferAlignment := 0;
      buffer := null;
      address, live := 0, false;
    }

    predicate Reuses(size: nat, alignment: nat)
      reads this
    {
      buffer != null && bufferSize >= size && bufferAlignment >= alignment
    }

    /** The part that frees the old buffer and asks for a new one. */
    method Allocate(size: nat, alignment: nat, block: Option<nat>) returns (ok: bool)
      requires Delivers(block, alignment)
      requires size < SIZE_LIMIT && alignment < SIZE_LIMIT
      modifies this
      ensures ok == (Acceptable(alignment) && block.Some?)
      ensures !ok ==> buffer == old(buffer) && !live
      ensures ok ==>
                && live && buffer != null && fresh(buffer) && buffer.Length == Requested(size, alignment)
                && bufferSize == size && address % alignment == 0
                && (Rounded(size, alignment) < SIZE_LIMIT ==> Valid())
                && (Rounded(size, alignment) < SIZE_LIMIT <==> buffer.Length >= size + VECTOR_SIZE)
    {
      hide BitAnd, Rounded, IsPowerOf2, IsPower, CountTrailingZeros;
      live := false;
      if !Acceptable(alignment) || block.None? {
        return false;
      }
      RoundedUp(size, alignment);
      RequestIsRight(size, alignment);
      buffer := new Byte[Requested(size, alignment)];
      address, live := block.value, true;
      var zeros := CountTrailingZeros(block.value) % 32;
      bufferAlignment := Power(zeros);
      TrailingZerosDivide(block.value, zeros);
      bufferSize := size;
      return true;
    }

    /**
      * A block is what aligned_alloc would return for this request. When a new block cannot be had the
      * old one has already been freed, and is still pointed at.
      */
    method Realloc(size: nat, alignment: nat, block: Option<nat>) returns (r: Grant)
      requires Valid() && Delivers(block, alignment)
      requires size < SIZE_LIMIT && alignment < SIZE_LIMIT
      modifies this, buffer
      ensures r.BadAlloc? <==> !old(Reuses(size, alignment)) && (!Acceptable(alignment) || block.None?)
      ensures r.Overrun? <==> !old(Reuses(size, alignment)) && Acceptable(alignment) && block.Some?
                              && Rounded(size, alignment) >= SIZE_LIMIT
      ensures r.Overrun? ==> buffer != null && buffer.Length < size + VECTOR_SIZE
      ensures r.BadAlloc? ==> buffer == old(buffer) && !live
      ensures r.Buffer? ==> Valid() && r.data == buffer && live
      ensures r.Buffer? ==> r.data.Length >= size + VECTOR_SIZE
      ensures r.Buffer? ==> forall i :: size <= i < size + VECTOR_SIZE ==> r.data[i] == 0
      // Which is the padding that the short substring search relies on.
      ensures r.Buffer? ==> ShortPattern.ZeroPadded(r.data[..], size)
      ensures r.Buffer? && Acceptable(alignment) ==> address % alignment == 0
      ensures old(buffer != null && bufferSize >= size && bufferAlignment >= alignment) ==>
                r.Buffer? && r.data == old(buffer) && r.data[..size] == old(buffer[..size])
                && bufferSize == old(bufferSize) && address == old(address)
      ensures r.Buffer? && !old(Reuses(size, alignment)) ==>
                fresh(r.data) && r.data.Length == Requested(size, alignment) && bufferSize == size
    {
      hide BitAnd, Rounded, Requested, IsPower;
      if buffer == null || bufferSize < size || bufferAlignment < alignment {
        var ok := Allocate(size, alignment, block);
        if !ok {
          return BadAlloc;
        }
        if buffer.Length < size + VECTOR_SIZE {
          return Overrun;
        }
      } else if Acceptable(alignment) {
        StillAligned(address, bufferAlignment, alignment);
      }
      var data: array<Byte> := buffer;
      forall i | size <= i < size + VECTOR_SIZE {
        data[i] := 0;
      }
      return Buffer(data);
    }
  }

  lemma StillAligned(address: nat, known: nat, needed: nat)
    requires IsPower(known) && Acceptable(needed) && needed <= known && address % known == 0
    ensures address % needed == 0
  {
    IsPowerOf2IsRight(needed);
    SmallerPowerDivides(needed, known);
    DividesThrough(address, known, needed);
  }

  predicate Multiple(address: nat, alignment: nat)
    requires alignment > 0
  {
    address % alignment == 0
  }

  /**
    * Reuse does not test the alignment asked for. A block known to be aligned to known serves it,
    * wherever the block is, exactly if it divides known; a smaller power of two always does.
    */
  lemma ReuseIsAlignedIff(known: nat, needed: nat)
    requires known > 0 && needed > 0
    ensures (forall address: nat :: Multiple(address, known) ==> Multiple(address, needed)) <==> known % needed == 0
    ensures IsPower(known) && IsPower(needed) && needed <= known ==> known % needed == 0
  {
    if known % needed == 0 {
      forall address: nat | Multiple(address, known) ensures Multiple(address, needed) {
        DividesThrough(address, known, needed);
      }
    } else {
      ModOf(known, 1, 0);
      assert Multiple(known, known) && !Multiple(known, needed);
    }
    if IsPower(known) && IsPower(needed) && needed <= known {
      SmallerPowerDivides(needed, known);
    }
  }
}
