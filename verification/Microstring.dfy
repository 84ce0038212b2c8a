/** Strings of up to eight bytes packed into one 64-bit word, most significant byte first. */
module Microstring {
  import opened Bytes

  type Name = seq<Byte>

  const MAX_SIZE: nat := 8

  predicate NoNul(s: Name) {
    forall i :: 0 <= i < |s| ==> s[i] != 0
  }

  function Zeros(n: nat): (z: Name)
    ensures |z| == n && forall i :: 0 <= i < n ==> z[i] == 0
  {
    if n == 0 then [] else Zeros(n - 1) + [0]
  }

  function Padded(s: Name): (p: Name)
    requires |s| <= MAX_SIZE
    ensures |p| == MAX_SIZE
  {
    s + Zeros(MAX_SIZE - |s|)
  }

  // ---------------------------------------------------------------- words and their bytes

  /** The number whose big-endian bytes these are. */
  function FromBig(b: Name): nat {
    if b == [] then 0 else FromBig(b[..|b| - 1]) * 256 + b[|b| - 1]
  }

  /** The last n bytes of a number, most significant first. */
  function ToBig(x: nat, n: nat): (b: Name)
    ensures |b| == n
  {
    if n == 0 then [] else ToBig(x / 256, n - 1) + [x % 256]
  }

  function Reversed(b: Name): (r: Name)
    ensures |r| == |b| && forall i :: 0 <= i < |b| ==> r[i] == b[|b| - 1 - i]
  {
    if b == [] then [] else Reversed(b[1..]) + [b[0]]
  }

  /** What a little-endian host reads from eight bytes of storage. */
  function LoadLittle(storage: Name): nat {
    FromBig(Reversed(storage))
  }

  /** The bytes a little-endian host keeps a word in. */
  function StoreLittle(x: nat): (b: Name)
    ensures |b| == MAX_SIZE
  {
    Reversed(ToBig(x, MAX_SIZE))
  }

  /** The bswap instruction. */
  function Bswap(x: nat): nat {
    LoadLittle(Reversed(StoreLittle(x)))
  }

  /** How many of the n low bytes are not zero: one mask and test per byte. */
  function CountNonZeros(x: nat, n: nat): (c: nat)
    ensures c <= n
  {
    if n == 0 then 0 else CountNonZeros(x / 256, n - 1) + (if x % 256 > 0 then 1 else 0)
  }

  lemma FromBigSnoc(b: Name, x: Byte)
    ensures FromBig(b + [x]) == FromBig(b) * 256 + x
  {
    assert (b + [x])[..|b|] == b;
  }

  lemma LastByte(h: nat, x: Byte)
    ensures (h * 256 + x) / 256 == h && (h * 256 + x) % 256 == x
  {
  }

  lemma CompareByLastByte(h: nat, x: Byte, g: nat, y: Byte)
    ensures h * 256 + x < g * 256 + y <==> h < g || (h == g && x < y)
    ensures h * 256 + x == g * 256 + y <==> h == g && x == y
  {
  }

  lemma {:induction false} FromBigToBig(b: Name)
    ensures ToBig(FromBig(b), |b|) == b
  {
    if b != [] {
      FromBigToBig(b[..|b| - 1]);
      LastByte(FromBig(b[..|b| - 1]), b[|b| - 1]);
    }
  }

  lemma ReversedTwice(b: Name)
    ensures Reversed(Reversed(b)) == b
  {
  }

  lemma BswapOfLoad(storage: Name)
    requires |storage| == MAX_SIZE
    ensures Bswap(LoadLittle(storage)) == FromBig(storage)
  {
    FromBigToBig(Reversed(storage));
    ReversedTwice(storage);
  }

  // ---------------------------------------------------------------- the packed string

  function Pack(s: Name): nat
    requires |s| <= MAX_SIZE
  {
    FromBig(Padded(s))
  }

  /** Conversion back: as many bytes as length() says, from the start of the storage. */
  function Unpack(x: nat): Name {
    StoreLittle(Bswap(x))[..CountNonZeros(x, MAX_SIZE)]
  }

  lemma {:induction false} FromBigFits(b: Name)
    requires |b| <= 8
    ensures FromBig(b) < [1, 0x100, 0x1_0000, 0x100_0000, 0x1_0000_0000, 0x100_0000_0000, 0x1_0000_0000_0000,
                          0x100_0000_0000_0000, 0x1_0000_0000_0000_0000][|b|]
  {
    if b != [] {
      FromBigFits(b[..|b| - 1]);
    }
  }

  /** The constructor: None is std::length_error. */
  method Construct(start: Name) returns (r: Option<nat>)
    ensures r == if |start| > MAX_SIZE then None else Some(Pack(start))
    // Eight bytes and no more fit the word.
    ensures r.None? <==> |start| > 8
    ensures r.Some? ==> r.value < 0x1_0000_0000_0000_0000
  {
    var numChars := |start|;
    if numChars > MAX_SIZE {
      return None;
    }
    var storage := new Byte[MAX_SIZE](i => 0);
    var i := 0;
    while i < numChars
      invariant 0 <= i <= numChars
      invariant storage[..] == start[..i] + Zeros(MAX_SIZE - i)
    {
      storage[i] := start[i];
      i := i + 1;
    }
    assert start[..numChars] == start;
    FromBigFits(Padded(start));
    var loaded := LoadLittle(storage[..]);
    BswapOfLoad(storage[..]);
    return Some(Bswap(loaded));
  }

  /** The order of std::string: at the first difference, or where the shorter one ends. */
  predicate Before(s: Name, t: Name) {
    (|s| < |t| && s == t[..|s|]) || exists k :: 0 <= k < |s| && k < |t| && s[..k] == t[..k] && s[k] < t[k]
  }

  /** The first difference, for strings of one length. */
  ghost predicate Less(b: Name, c: Name)
    requires |b| == |c|
  {
    exists k :: 0 <= k < |b| && b[..k] == c[..k] && b[k] < c[k]
  }

  lemma LessSnoc(b: Name, x: Byte, c: Name, y: Byte)
    requires |b| == |c|
    ensures Less(b + [x], c + [y]) <==> Less(b, c) || (b == c && x < y)
  {
    var bx, cy := b + [x], c + [y];
    if k :| 0 <= k < |b| && b[..k] == c[..k] && b[k] < c[k] {
      assert bx[..k] == b[..k] && cy[..k] == c[..k];
    } else if b == c && x < y {
      assert bx[..|b|] == cy[..|b|];
    }
    if k :| 0 <= k < |bx| && bx[..k] == cy[..k] && bx[k] < cy[k] {
      if k < |b| {
        assert b[..k] == bx[..k] && c[..k] == cy[..k];
      } else {
        assert b == bx[..k] && c == cy[..k];
      }
    }
  }

  /** Words compare as their big-endian bytes do. */
  lemma {:induction false} WordsCompareAsBytes(b: Name, c: Name)
    requires |b| == |c|
    ensures FromBig(b) < FromBig(c) <==> Less(b, c)
    ensures FromBig(b) == FromBig(c) <==> b == c
  {
    hide FromBig, Less;
    if b == [] {
      NothingLess(b, c);
    } else {
      var n := |b| - 1;
      WordsCompareAsBytes(b[..n], c[..n]);
      assert b == b[..n] + [b[n]] && c == c[..n] + [c[n]];
      FromBigSnoc(b[..n], b[n]);
      FromBigSnoc(c[..n], c[n]);
      CompareByLastByte(FromBig(b[..n]), b[n], FromBig(c[..n]), c[n]);
      LessSnoc(b[..n], b[n], c[..n], c[n]);
    }
  }

  lemma NothingLess(b: Name, c: Name)
    requires b == [] && c == []
    ensures !Less(b, c) && FromBig(b) == FromBig(c)
  {
  }

  /** Two strings have one microstring exactly when they differ in trailing NULs only. */
  lemma PackIsInjectiveUpToPadding(s: Name, t: Name)
    requires |s| <= MAX_SIZE && |t| <= MAX_SIZE
    ensures Pack(s) == Pack(t) <==> Padded(s) == Padded(t)
  {
    WordsCompareAsBytes(Padded(s), Padded(t));
  }

  lemma PaddedIsInjective(s: Name, t: Name)
    requires |s| <= MAX_SIZE && |t| <= MAX_SIZE && NoNul(s) && NoNul(t)
    ensures Padded(s) == Padded(t) <==> s == t
  {
    var p, q := Padded(s), Padded(t);
    if |s| < |t| {
      assert p[|s|] == 0 && q[|s|] == t[|s|];
    } else if |t| < |s| {
      assert q[|t|] == 0 && p[|t|] == s[|t|];
    } else {
      assert s == p[..|s|] && t == q[..|t|];
    }
  }

  /** On C strings packing is injective. */
  lemma PackIsInjective(s: Name, t: Name)
    requires |s| <= MAX_SIZE && |t| <= MAX_SIZE && NoNul(s) && NoNul(t)
    ensures Pack(s) == Pack(t) <==> s == t
  {
    PackIsInjectiveUpToPadding(s, t);
    PaddedIsInjective(s, t);
  }

  lemma PaddingKeepsOrder(s: Name, t: Name)
    requires |s| <= MAX_SIZE && |t| <= MAX_SIZE && NoNul(t) && Before(s, t)
    ensures Less(Padded(s), Padded(t))
  {
    hide Zeros;
    var p, q := Padded(s), Padded(t);
    if |s| < |t| && s == t[..|s|] {
      assert p[..|s|] == q[..|s|] && p[|s|] < q[|s|];
    } else {
      var k :| 0 <= k < |s| && k < |t| && s[..k] == t[..k] && s[k] < t[k];
      assert p[..k] == q[..k] && p[k] < q[k];
    }
  }

  /** Where one string has ended and the other has not, padding tells them apart. */
  lemma PaddingDiffers(s: Name, t: Name, k: nat)
    requires |s| < k < |t| <= MAX_SIZE && NoNul(t)
    ensures Padded(s)[..k] != Padded(t)[..k]
  {
    assert Padded(s)[..k][|s|] == 0;
    assert Padded(t)[..k][|s|] == t[|s|];
  }

  lemma PaddingReflectsOrder(s: Name, t: Name)
    requires |s| <= MAX_SIZE && |t| <= MAX_SIZE && NoNul(s) && NoNul(t) && Less(Padded(s), Padded(t))
    ensures Before(s, t)
  {
    hide Zeros;
    var p, q := Padded(s), Padded(t);
    var k :| 0 <= k < MAX_SIZE && p[..k] == q[..k] && p[k] < q[k];
    assert k < |t|;
    if |s| < k {
      PaddingDiffers(s, t, k);
    }
    assert s[..k] == p[..k] && t[..k] == q[..k];
  }

  /** On C strings microstrings sort as the strings do. */
  lemma PackKeepsOrder(s: Name, t: Name)
    requires |s| <= MAX_SIZE && |t| <= MAX_SIZE && NoNul(s) && NoNul(t)
    ensures Pack(s) < Pack(t) <==> Before(s, t)
  {
    hide FromBig, Padded, Less, Before, NoNul;
    WordsCompareAsBytes(Padded(s), Padded(t));
    if Before(s, t) {
      PaddingKeepsOrder(s, t);
    } else if Less(Padded(s), Padded(t)) {
      PaddingReflectsOrder(s, t);
    }
  }

  lemma CountSnoc(b: Name, x: Byte)
    ensures CountNonZeros(FromBig(b + [x]), |b| + 1) == CountNonZeros(FromBig(b), |b|) + (if x > 0 then 1 else 0)
  {
    hide FromBig;
    FromBigSnoc(b, x);
    LastByte(FromBig(b), x);
  }

  lemma {:induction false} CountOfBytes(b: Name)
    ensures CountNonZeros(FromBig(b), |b|) == |b| <==> NoNul(b)
  {
    hide FromBig;
    if b == [] {
    } else {
      var n := |b| - 1;
      CountOfBytes(b[..n]);
      CountSnoc(b[..n], b[n]);
      assert b == b[..n] + [b[n]];
    }
  }

  lemma {:induction false} CountOfPadded(s: Name, z: nat)
    ensures CountNonZeros(FromBig(s + Zeros(z)), |s| + z) == CountNonZeros(FromBig(s), |s|)
  {
    hide FromBig, CountNonZeros;
    if z == 0 {
      assert s + Zeros(0) == s;
    } else {
      CountOfPadded(s, z - 1);
      CountSnoc(s + Zeros(z - 1), 0);
      assert s + Zeros(z) == (s + Zeros(z - 1)) + [0];
    }
  }

  /** Storing the swapped word puts the padded string back. */
  lemma StoredAgain(s: Name)
    requires |s| <= MAX_SIZE
    ensures StoreLittle(Bswap(Pack(s))) == Padded(s)
  {
    hide FromBig, ToBig, Zeros;
    var p := Padded(s);
    FromBigToBig(p);
    ReversedTwice(p);
    assert Bswap(Pack(s)) == LoadLittle(p);
    FromBigToBig(Reversed(p));
  }

  lemma LengthOfPack(s: Name)
    requires |s| <= MAX_SIZE
    ensures CountNonZeros(Pack(s), MAX_SIZE) <= |s|
    ensures CountNonZeros(Pack(s), MAX_SIZE) == |s| <==> NoNul(s)
  {
    hide FromBig, CountNonZeros, Zeros;
    CountOfPadded(s, MAX_SIZE - |s|);
    CountOfBytes(s);
  }

  /** length() is right, and the round trip gives the string back, exactly for strings without a NUL. */
  lemma UnpackIsInverse(s: Name)
    requires |s| <= MAX_SIZE
    ensures Unpack(Pack(s)) == s <==> NoNul(s)
    ensures CountNonZeros(Pack(s), MAX_SIZE) == |s| <==> NoNul(s)
  {
    hide FromBig, ToBig, CountNonZeros, Zeros, Bswap, StoreLittle, Pack;
    StoredAgain(s);
    LengthOfPack(s);
    assert Padded(s)[..|s|] == s;
  }
}
