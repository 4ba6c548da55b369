/** The compact form of targets (src/arith_uint256.cpp, src/arith_uint256.h): an exponent of base 256 in the
    upper byte, a sign bit, and a mantissa of 23 bits. */
module Compact {
  import opened Numbers
  import opened Limbs
  import opened LimbShifts
  import opened ArithUint

  const SIGN := 0x80_0000
  const EXPONENT := 0x100_0000

  /** A 256-bit number. */
  ghost predicate Is256(x: BaseUint)
    reads x.pn
  {
    x.Valid() && x.pn.Length == 8
  }

  function Scale(k: nat): (r: nat)
    ensures r > 0
  {
    PowPositive(2, 8 * k);
    Pow(2, 8 * k)
  }

  // ------------------------------------------------- the format, on numbers

  function Size(c: nat): nat { c / EXPONENT }

  function Mantissa(c: nat): nat { c % SIGN }

  predicate Signed(c: nat) { (c / SIGN) % 2 == 1 }

  /** The mantissa, less the bytes an exponent below three cuts off. */
  function Word(c: nat): nat {
    if Size(c) <= 3 then Kept(Mantissa(c), 8 * (3 - Size(c))) else Mantissa(c)
  }

  /** The number a compact form stands for, without its sign and however large. */
  function Target(c: nat): nat {
    if Size(c) <= 3 then Word(c)
    else
      MulNat(Word(c), Scale(Size(c) - 3));
      Mul(Word(c), Scale(Size(c) - 3))
  }

  /** The exponent that leaves the top bit of the mantissa clear. */
  function Exponent(x: nat): nat {
    if x == 0 then 0 else BitLength(x) / 8 + 1
  }

  function Scaled(x: nat, e: nat): nat {
    if e <= 3 then
      MulNat(x, Scale(3 - e));
      Mul(x, Scale(3 - e))
    else Kept(x, 8 * (e - 3))
  }

  function Compacted(x: nat): nat {
    EXPONENT * Exponent(x) + Scaled(x, Exponent(x))
  }

  /** A number with only its leading bytes kept. */
  function Leading(x: nat, e: nat): nat {
    if e <= 3 then x
    else
      MulNat(Kept(x, 8 * (e - 3)), Scale(e - 3));
      Mul(Kept(x, 8 * (e - 3)), Scale(e - 3))
  }

  /** Two compact forms: a mantissa of two bytes 26 bytes up, and one of three bytes one byte up. */
  lemma KnownTarget()
    ensures Target(0x1d00_ffff) == Mul(0xffff, Pow(2, 208)) && Target(0x0412_3456) == 0x1234_5600
  {
    hide Pow, Mul;
    SmallPowers();
    MulIs(0x12_3456, 256);
  }

  // ---------------------------------------------------------------- bit length

  lemma {:induction false} BitLengthIs(x: nat, n: nat)
    requires n == 0 ==> x == 0
    requires n > 0 ==> Pow(2, n - 1) <= x < Pow(2, n)
    ensures BitLength(x) == n
  {
    hide Mul;
    if n > 0 {
      PowPositive(2, n - 1);
      PowTwice(n - 1);
      if n == 1 {
        PowUnit(2);
        BitLengthIs(0, 0);
      } else {
        PowTwice(n - 2);
        BitLengthIs(x / 2, n - 1);
      }
    }
  }

  lemma {:induction false} BitLengthBounds(x: nat)
    requires x > 0
    ensures BitLength(x) > 0 && Pow(2, BitLength(x) - 1) <= x < Pow(2, BitLength(x))
  {
    hide Mul;
    if x == 1 {
      PowUnit(2);
      assert BitLength(1) == 1 + BitLength(0);
    } else {
      BitLengthBounds(x / 2);
      PowTwice(BitLength(x / 2) - 1);
      PowTwice(BitLength(x / 2));
    }
  }

  /** What the exponent says about the number. */
  ghost predicate Sized(x: nat, e: nat) {
    && (e == 0 <==> x == 0)
    && (e > 0 ==> x < Pow(2, 8 * e - 1))
    && (e > 1 ==> x >= Pow(2, 8 * e - 9))
  }

  lemma ExponentSized(x: nat)
    ensures Sized(x, Exponent(x))
  {
    hide Mul, Pow, BitLength;
    if x > 0 {
      BitLengthBounds(x);
      var n, e := BitLength(x), Exponent(x);
      PowGrows(2, n, 8 * e - 1);
      if e > 1 { PowGrows(2, 8 * e - 9, n - 1); }
    }
  }

  lemma SizedUnique(x: nat, e: nat)
    requires Sized(x, e)
    ensures Exponent(x) == e
  {
    hide Mul, Pow, Exponent;
    ExponentSized(x);
    SizedOrder(x, x, e, Exponent(x));
    SizedOrder(x, x, Exponent(x), e);
  }

  /** Larger numbers have no smaller exponent. */
  lemma SizedOrder(x: nat, y: nat, e: nat, f: nat)
    requires x <= y && Sized(x, e) && Sized(y, f)
    ensures e <= f
  {
    hide Mul, Pow;
    if f < e && f > 0 { PowGrows(2, 8 * f - 1, 8 * e - 9); }
  }

  // ------------------------------------------------------------- round trips

  /** A scaled mantissa keeps out of the sign bit, and fills its two lower bytes at least. */
  lemma ScaledBounds(x: nat, e: nat)
    requires Sized(x, e)
    ensures Scaled(x, e) < SIGN && (x > 0 ==> Scaled(x, e) >= 0x8000)
  {
    hide Mul, Pow, Kept, Scale;
    Pow23();
    if e == 0 {
      MulUnit(Scale(3));
    } else if e <= 3 {
      ScaledUp(x, e);
    } else {
      ScaledDown(x, e);
    }
  }

  lemma Pow23()
    ensures Pow(2, 23) == SIGN && Pow(2, 24) == EXPONENT
    ensures Pow(2, 8) == 0x100 && Pow(2, 15) == 0x8000 && Pow(2, 16) == 0x1_0000
  {
    hide Mul, Pow;
    SmallPowers();
    PowAdd(2, 8, 8);
    PowAdd(2, 16, 8);
    PowAdd(2, 16, 7);
    PowAdd(2, 8, 7);
    MulIs(256, 256);
    MulIs(65536, 256);
    MulIs(65536, 128);
    MulIs(256, 128);
  }

  lemma ScaledUp(x: nat, e: nat)
    requires Sized(x, e) && 1 <= e <= 3
    ensures Pow(2, 15) <= Mul(x, Scale(3 - e)) < Pow(2, 23)
  {
    hide Mul, Pow;
    var p := Scale(3 - e);
    PowAdd(2, 8 * e - 1, 8 * (3 - e));
    MulGrows(p, x + 1, Pow(2, 8 * e - 1));
    MulPlus(p, x, 1);
    MulUnit(p);
    if e > 1 {
      PowAdd(2, 8 * e - 9, 8 * (3 - e));
      MulGrows(p, Pow(2, 8 * e - 9), x);
    } else {
      MulGrows(p, 1, x);
      PowGrows(2, 15, 16);
    }
  }

  lemma ScaledDown(x: nat, e: nat)
    requires Sized(x, e) && e > 3
    ensures Pow(2, 15) <= Kept(x, 8 * (e - 3)) < Pow(2, 23)
  {
    hide Mul, Pow, Quo, Rem;
    var p := Pow(2, 8 * (e - 3));
    PowPositive(2, 8 * (e - 3));
    QuoRem(x, p);
    PowAdd(2, 8 * (e - 3), 23);
    PowAdd(2, 8 * (e - 3), 15);
    QuoBelow(Quo(x, p), Pow(2, 23), p);
    QuoAtLeast(x, p, Pow(2, 15));
  }

  lemma QuoAtLeast(x: nat, p: nat, n: nat)
    requires p > 0 && Mul(p, n) <= x
    ensures n <= Quo(x, p)
  {
    hide Mul, Quo, Rem;
    QuoRem(x, p);
    MulSwap(p, n);
    if Quo(x, p) + 1 <= n {
      MulGrows(p, Quo(x, p) + 1, n);
      MulPlus(p, Quo(x, p), 1);
      MulUnit(p);
    }
  }

  lemma CompactedParts(x: nat)
    ensures Size(Compacted(x)) == Exponent(x) && Mantissa(Compacted(x)) == Scaled(x, Exponent(x))
    ensures !Signed(Compacted(x))
  {
    hide Exponent, Scaled, Pow, Mul;
    ExponentSized(x);
    ScaledBounds(x, Exponent(x));
  }

  /** Reading a compact form back keeps exactly the leading bytes, and is neither negative nor too large. */
  lemma CompactedTarget(x: nat)
    ensures Target(Compacted(x)) == Leading(x, Exponent(x)) && !Signed(Compacted(x))
    ensures Target(Compacted(x)) <= x
  {
    hide Exponent, Pow, Mul, Quo, Compacted, Size, Mantissa, Signed, Kept;
    var e := Exponent(x);
    CompactedParts(x);
    if e <= 3 {
      KeptScaled(x, 3 - e);
    } else {
      KeptBelow(x, 8 * (e - 3));
    }
  }

  lemma KeptScaled(x: nat, k: nat)
    ensures Mul(x, Scale(k)) >= 0 && Kept(Mul(x, Scale(k)), 8 * k) == x
  {
    hide Mul, Pow, Quo;
    MulNat(x, Scale(k));
    QuoRemUnique(Mul(x, Scale(k)), Scale(k), x, 0);
  }

  lemma KeptBelow(x: nat, k: nat)
    ensures Mul(Kept(x, k), Pow(2, k)) <= x
  {
    hide Mul, Pow, Quo, Rem;
    PowPositive(2, k);
    QuoRem(x, Pow(2, k));
  }

  /** Writing what was read back changes nothing any more. */
  lemma CompactedStable(x: nat)
    ensures Compacted(Target(Compacted(x))) == Compacted(x)
  {
    hide Exponent, Pow, Mul, Quo, Kept, Compacted, Target;
    var e := Exponent(x);
    CompactedTarget(x);
    ExponentSized(x);
    if e > 3 {
      LeadingSized(x, e);
      SizedUnique(Leading(x, e), e);
      KeptScaled(Kept(x, 8 * (e - 3)), e - 3);
      SameCompact(x, Leading(x, e), e);
    }
  }

  lemma SameCompact(x: nat, y: nat, e: nat)
    requires Exponent(x) == Exponent(y) == e && Scaled(x, e) == Scaled(y, e)
    ensures Compacted(x) == Compacted(y)
  {
    hide Exponent, Scaled;
  }

  lemma LeadingSized(x: nat, e: nat)
    requires Sized(x, e) && e > 3
    ensures Sized(Leading(x, e), e)
  {
    hide Pow, Mul, Quo, Kept;
    var k := 8 * (e - 3);
    KeptBelow(x, k);
    ScaledDown(x, e);
    PowPositive(2, k);
    PowPositive(2, 15);
    PowAdd(2, 15, k);
    MulGrows(Pow(2, k), Pow(2, 15), Kept(x, k));
    PowPositive(2, 8 * e - 9);
  }

  /** The compact form keeps the order. */
  lemma CompactedMonotone(x: nat, y: nat)
    requires x <= y
    ensures Compacted(x) <= Compacted(y)
  {
    hide Exponent, Pow, Mul, Quo, Kept;
    var e, f := Exponent(x), Exponent(y);
    ExponentSized(x);
    ExponentSized(y);
    SizedOrder(x, y, e, f);
    ScaledBounds(x, e);
    if e == f { ScaledMonotone(x, y, e); }
  }

  lemma ScaledMonotone(x: nat, y: nat, e: nat)
    requires x <= y
    ensures Scaled(x, e) <= Scaled(y, e)
  {
    hide Pow, Mul, Quo, Rem;
    if e <= 3 {
      MulGrows(Scale(3 - e), x, y);
    } else {
      var p := Pow(2, 8 * (e - 3));
      PowPositive(2, 8 * (e - 3));
      QuoRem(x, p);
      MulSwap(p, Quo(x, p));
      QuoNat(x, p);
      QuoAtLeast(y, p, Quo(x, p));
    }
  }

  // ------------------------------------------------------------------ overflow

  predicate Overflows(word: nat, size: nat) {
    word != 0 && (size > 34 || (word > 0xff && size > 33) || (word > 0xffff && size > 32))
  }

  /** The overflow test of SetCompact is exact. */
  lemma OverflowIsExact(c: nat)
    ensures Overflows(Word(c), Size(c)) <==> Target(c) >= Pow(2, 256)
  {
    hide Pow, Mul, Quo, Kept, Size, Mantissa;
    var w, s := Word(c), Size(c);
    WordBound(c);
    Pow23();
    if s <= 3 {
      PowGrows(2, 24, 256);
    } else if s <= 35 {
      var p := Scale(s - 3);
      PowAdd(2, 280 - 8 * s, 8 * (s - 3));
      PowUnit(2);
      Limit(w, Pow(2, 280 - 8 * s), p);
      if s <= 32 { PowGrows(2, 24, 280 - 8 * s); }
    } else {
      PowGrows(2, 256, 8 * (s - 3));
      MulUnit(Scale(s - 3));
      PowPositive(2, 256);
      if w > 0 { MulGrows(Scale(s - 3), 1, w); }
    }
  }

  lemma WordBound(c: nat)
    ensures Word(c) < SIGN
  {
    hide Pow, Mul, Quo;
    if Size(c) <= 3 {
      PowPositive(2, 8 * (3 - Size(c)));
      QuoNat(Mantissa(c), Pow(2, 8 * (3 - Size(c))));
    }
  }

  lemma Limit(w: nat, n: nat, p: nat)
    requires p > 0
    ensures Mul(w, p) >= Mul(n, p) <==> w >= n
  {
    hide Mul;
    if w >= n {
      MulGrows(p, n, w);
    } else {
      MulGrows(p, w + 1, n);
      MulPlus(p, w, 1);
      MulUnit(p);
    }
  }

  // ------------------------------------------------------------ canonical forms

  /** The forms that GetCompact gives to unsigned numbers: the mantissa is not negative, as long as it can be, and
      no set bit of it is cut off. */
  predicate Canonical(c: nat) {
    c == 0 || (!Signed(c) && Mantissa(c) >= 0x8000 && 1 <= Size(c) && (Size(c) <= 3 ==> Mantissa(c) == ScaledWord(c)))
  }

  function ScaledWord(c: nat): int
    requires Size(c) <= 3
  {
    Mul(Word(c), Scale(3 - Size(c)))
  }

  lemma CompactedCanonical(x: nat)
    ensures Canonical(Compacted(x))
  {
    hide Exponent, Pow, Mul, Quo, Kept, Size, Mantissa, Signed;
    var e := Exponent(x);
    CompactedParts(x);
    ExponentSized(x);
    ScaledBounds(x, e);
    if e <= 3 { KeptScaled(x, 3 - e); }
    if e == 0 { MulUnit(Scale(3)); }
  }

  /** A compact form survives being read into 256 bits and written again exactly when it is canonical and does not
      overflow. */
  lemma CanonicalRoundTrip(c: nat)
    ensures Compacted(Wrap(Target(c), 8)) == c <==> Canonical(c) && !Overflows(Word(c), Size(c))
  {
    hide Pow, Mul, Target, Compacted, Canonical, Wrap, Word, Size;
    FitsWidth();
    OverflowIsExact(c);
    UnboundedRoundTrip(c);
    if Target(c) < Pow(B, 8) {
      WrapSame(Target(c), 8);
    } else {
      var x := Wrap(Target(c), 8);
      CompactedTarget(x);
    }
  }

  /** A canonical form that overflows reads as zero, and zero is written as zero. */
  lemma OverflowIsLost()
    ensures var c := 0x2300_8000; Canonical(c) && Overflows(Word(c), Size(c)) && Compacted(Wrap(Target(c), 8)) != c
  {
    hide Pow, Mul, Kept, Compacted, Wrap;
    CanonicalRoundTrip(0x2300_8000);
  }

  /** Read into unbounded numbers, exactly the canonical forms survive. */
  lemma UnboundedRoundTrip(c: nat)
    ensures Compacted(Target(c)) == c <==> Canonical(c)
  {
    hide Exponent, Pow, Mul, Quo, Kept, Size, Mantissa, Signed, Target, Compacted;
    if Compacted(Target(c)) == c { CompactedCanonical(Target(c)); }
    if Canonical(c) { CanonicalKept(c); }
  }

  lemma CanonicalKept(c: nat)
    requires Canonical(c)
    ensures Compacted(Target(c)) == c
  {
    hide Exponent, Pow, Mul, Quo, Kept, Signed;
    if c == 0 {
      ZeroForm();
    } else {
      var s, w := Size(c), Mantissa(c);
      assert c == EXPONENT * s + w by { Unsigned(c); }
      CanonicalSized(c);
      SizedUnique(Target(c), s);
      if s > 3 { KeptScaled(w, s - 3); }
    }
  }

  lemma ZeroForm()
    ensures Compacted(Target(0)) == 0
  {
    hide Pow, Mul, Quo;
    MulUnit(Scale(3));
    PowPositive(2, 24);
    QuoNat(0, Pow(2, 24));
    assert Word(0) == 0;
  }

  lemma Unsigned(c: nat)
    requires !Signed(c)
    ensures c == EXPONENT * Size(c) + Mantissa(c)
  {
    assert c / EXPONENT == (c / SIGN) / 2;
  }

  lemma CanonicalSized(c: nat)
    requires c != 0 && Canonical(c)
    ensures Sized(Target(c), Size(c))
  {
    hide Pow, Mul, Quo, Kept, Size, Mantissa, Signed;
    var s, w, t := Size(c), Mantissa(c), Target(c);
    Pow23();
    assert w < SIGN by { MantissaBound(c); }
    if s <= 3 {
      SizedBelow(t, s, w);
    } else {
      var p := Scale(s - 3);
      PowAdd(2, 23, 8 * (s - 3));
      PowAdd(2, 15, 8 * (s - 3));
      Limit(w, Pow(2, 23), p);
      Limit(w, Pow(2, 15), p);
      PowPositive(2, 8 * s - 9);
    }
  }

  lemma MantissaBound(c: nat)
    ensures Mantissa(c) < SIGN
  {
  }

  lemma SizedBelow(t: nat, s: nat, w: nat)
    requires 1 <= s <= 3 && w == Mul(t, Scale(3 - s)) && 0x8000 <= w < SIGN
    ensures Sized(t, s)
  {
    hide Pow, Mul;
    Pow23();
    var p := Scale(3 - s);
    MulUnit(p);
    PowAdd(2, 8 * s - 1, 8 * (3 - s));
    Limit(t, Pow(2, 8 * s - 1), p);
    if s > 1 {
      PowAdd(2, 8 * s - 9, 8 * (3 - s));
      Limit(t, Pow(2, 8 * s - 9), p);
    }
  }

  // ------------------------------------------------------- the limbs' methods

  /** Assignment of a 64-bit number. */
  method Assign(x: BaseUint, b: nat)
    requires x.Valid() && b < WORD64
    modifies x.pn
    ensures x.Valid() && x.Value() == b
  {
    hide Total, Pow, Mul;
    x.Clear();
    ghost var zeros: seq<nat> := x.pn[..];
    var low: nat, high: nat := b % B, b / B;
    x.pn[0] := low;
    x.pn[1] := high;
    ghost var one: seq<nat> := zeros[0 := low];
    assert x.pn[..] == one[1 := high];
    TotalUpdate(zeros, 0, low);
    TotalUpdate(one, 1, high);
    PowUnit(B);
    MulUnit(low);
    MulUnit(Pow(B, 0));
    MulUnit(Pow(B, 1));
    MulSwap(high, B);
    MulIs(B, high);
  }

  /** GetLow64: the number modulo 2^64. */
  method Low64(x: BaseUint) returns (n: nat)
    requires x.Valid()
    ensures n == x.Value() % WORD64
  {
    hide Total, Pow, Mul, BitOr;
    PowWord();
    OrDisjoint(x.pn[0], x.pn[1], 32);
    MulIs(x.pn[1], B);
    n := BitOr(x.pn[0], x.pn[1] * Pow(2, 32));
    LowLimbs(x.pn[..]);
  }

  lemma LowLimbs(s: seq<nat>)
    requires |s| >= 2 && Limbed(s)
    ensures Total(s) % WORD64 == s[0] + B * s[1]
  {
    hide Total, Pow, Mul, Quo, Rem;
    TotalSplit(s, 2);
    TotalStep(s, 0);
    TotalStep(s, 1);
    TotalEmpty();
    assert s[..0] == [];
    PowUnit(B);
    PowStep(B, 1);
    MulUnit(s[0]);
    MulIs(s[1], B);
    QuoRemUnique(Total(s), WORD64, Total(s[2..]), s[0] + B * s[1]);
    QuoIs(Total(s), WORD64);
  }

  /** SetCompact. */
  method SetCompact(x: BaseUint, compact: nat) returns (negative: bool, overflow: bool)
    requires Is256(x) && compact < B
    modifies x.pn
    ensures Is256(x) && x.Value() == Wrap(Target(compact), 8)
    ensures negative <==> Target(compact) != 0 && Signed(compact)
    ensures overflow <==> Target(compact) >= Pow(2, 256)
  {
    hide Total, Pow, Mul, Wrap, Kept, Quo;
    var size, word := compact / EXPONENT, compact % SIGN;
    WordBound(compact);
    FitsWidth();
    if size <= 3 {
      word := Kept(word, 8 * (3 - size));
      Assign(x, word);
      WrapSame(word, 8);
    } else {
      Assign(x, word);
      x.ShiftLeft(8 * (size - 3));
    }
    negative := word != 0 && (compact / SIGN) % 2 == 1;
    overflow := word != 0 && (size > 34 || (word > 0xff && size > 33) || (word > 0xffff && size > 32));
    OverflowIsExact(compact);
    TargetZero(compact);
  }

  lemma FitsWidth()
    ensures SIGN < Pow(B, 8) && Pow(2, 256) == Pow(B, 8)
  {
    hide Mul, Pow;
    PowBits(8);
    Pow23();
    PowGrows(2, 24, 256);
  }

  lemma TargetZero(c: nat)
    ensures Target(c) == 0 <==> Word(c) == 0
  {
    hide Mul, Kept;
    if Size(c) > 3 {
      var p := Scale(Size(c) - 3);
      Limit(Word(c), 1, p);
      MulUnit(p);
    }
  }

  /** The leading three bytes of a number of so many bits, counted in whole bytes. */
  function Top(v: nat, size: nat): nat {
    if size <= 3 then
      MulNat(v, Scale(3 - size));
      Mul(v, Scale(3 - size))
    else Kept(v, 8 * (size - 3))
  }

  lemma TopBounds(v: nat, bits: nat, size: nat)
    requires bits > 0 && Pow(2, bits - 1) <= v < Pow(2, bits) && size == (bits + 7) / 8
    ensures Top(v, size) < Pow(2, 24) && (Top(v, size) >= Pow(2, 23) <==> bits % 8 == 0)
  {
    hide Pow, Mul, Quo, Kept;
    PowGrows(2, bits + 24 - 8 * size, 24);
    if size <= 3 {
      var p := Scale(3 - size);
      PowAdd(2, bits, 8 * (3 - size));
      PowAdd(2, bits - 1, 8 * (3 - size));
      Limit(v, Pow(2, bits), p);
      Limit(v, Pow(2, bits - 1), p);
    } else {
      TopDown(v, bits, size);
    }
    if bits % 8 != 0 {
      PowGrows(2, bits + 24 - 8 * size, 23);
    }
  }

  lemma TopDown(v: nat, bits: nat, size: nat)
    requires bits > 0 && Pow(2, bits - 1) <= v < Pow(2, bits) && size == (bits + 7) / 8 > 3
    ensures Pow(2, bits + 23 - 8 * size) <= Kept(v, 8 * (size - 3)) < Pow(2, bits + 24 - 8 * size)
  {
    hide Mul, Pow, Quo, Rem;
    var k := 8 * (size - 3);
    PowPositive(2, k);
    QuoRem(v, Pow(2, k));
    PowAdd(2, k, bits - k);
    PowAdd(2, k, bits - 1 - k);
    QuoBelow(Quo(v, Pow(2, k)), Pow(2, bits - k), Pow(2, k));
    QuoAtLeast(v, Pow(2, k), Pow(2, bits - 1 - k));
  }

  /** Dividing the mantissa and raising the exponent when the sign bit would be set gives the scaled number. */
  lemma TopScaled(v: nat, bits: nat, size: nat)
    requires BitLength(v) == bits && size == (bits + 7) / 8
    requires bits == 0 ==> v == 0
    requires bits > 0 ==> Pow(2, bits - 1) <= v < Pow(2, bits)
    ensures Top(v, size) < Pow(2, 24) && (size <= 3 ==> v < Pow(2, 24))
    ensures Top(v, size) >= Pow(2, 23) ==> Exponent(v) == size + 1 && Kept(Top(v, size), 8) == Scaled(v, size + 1)
    ensures Top(v, size) < Pow(2, 23) ==> Exponent(v) == size && Top(v, size) == Scaled(v, size)
  {
    hide Pow, Mul, Quo, Kept, BitLength, Scale;
    Pow23();
    if bits == 0 {
      MulUnit(Scale(3));
    } else {
      PowPositive(2, bits - 1);
      TopBounds(v, bits, size);
      if size <= 3 { PowGrows(2, bits, 24); }
      if bits % 8 == 0 { TopShifted(v, size); }
    }
  }

  lemma TopShifted(v: nat, size: nat)
    ensures Kept(Top(v, size), 8) == Scaled(v, size + 1)
  {
    hide Pow, Mul, Quo, Kept;
    if size <= 2 {
      PowAdd(2, 8 * (2 - size), 8);
      MulMul(v, Scale(2 - size), Pow(2, 8));
      MulNat(v, Scale(2 - size));
      KeptScaled(Mul(v, Scale(2 - size)), 1);
    } else if size == 3 {
      PowUnit(2);
      MulUnit(v);
    } else {
      KeptTwice(v, 8 * (size - 3), 8);
    }
  }

  /** GetCompact. */
  method GetCompact(x: BaseUint, negative: bool) returns (compact: nat)
    requires Is256(x)
    ensures compact == Compacted(x.Value()) + (if negative && x.Value() != 0 then SIGN else 0) < B
  {
    hide Total, Pow, Mul, Kept, Quo, BitOr, Exponent, BitLength, Scaled, Top;
    var bits := x.Bits();
    var size := (bits + 7) / 8;
    ghost var v := x.Value();
    BitLengthIs(v, bits);
    TopScaled(v, bits, size);
    Pow23();
    compact := TopBytes(x, size);
    TopBit(compact, 23);
    if Kept(compact, 23) % 2 == 1 {
      compact := Kept(compact, 8);
      size := size + 1;
    }
    ExponentSized(v);
    ScaledBounds(v, size);
    assert compact < SIGN && size < 256;
    OrDisjoint(compact, size, 24);
    JoinParts(compact, size);
    MulIs(size, Pow(2, 24));
    compact := BitOr(compact, size * Pow(2, 24));
    if negative && compact % SIGN != 0 {
      compact := BitOr(compact, SIGN);
    }
    ScaledZero(v, size);
  }

  lemma ScaledZero(v: nat, e: nat)
    requires Sized(v, e)
    ensures v == 0 ==> Scaled(v, e) == 0
  {
    hide Mul, Pow;
    MulUnit(Scale(3));
  }

  lemma JoinParts(w: nat, size: nat)
    requires w < SIGN
    ensures Mul(size, Pow(2, 24)) == EXPONENT * size
    ensures var c := w + EXPONENT * size; c % SIGN == w && BitOr(c, SIGN) == c + SIGN
  {
    hide Mul, Pow, BitOr, Quo, Rem;
    Pow23();
    var c := w + EXPONENT * size;
    MulIs(size, EXPONENT);
    MulIs(2 * size, SIGN);
    QuoRemUnique(c, Pow(2, 23), 2 * size, w);
    OrBit(c, 23);
  }

  /** The mantissa before the sign bit is looked at. */
  method TopBytes(x: BaseUint, size: nat) returns (compact: nat)
    requires Is256(x) && Top(x.Value(), size) < EXPONENT && (size <= 3 ==> x.Value() < EXPONENT)
    ensures compact == Top(x.Value(), size)
  {
    hide Total, Pow, Mul, Quo, Top, Kept;
    TopIs(x.Value(), size);
    NotCut(x.Value());
    NotCut(Top(x.Value(), size));
    if size <= 3 {
      var low := Low64(x);
      var factor := Pow(2, 8 * (3 - size));
      MulIs(low, factor);
      compact := low * factor % WORD64 % B;
    } else {
      var bn := new BaseUint.Copy(x);
      bn.ShiftRight(8 * (size - 3));
      compact := Low64(bn);
      compact := compact % B;
    }
  }

  lemma TopIs(v: nat, size: nat)
    ensures size <= 3 ==> Top(v, size) == Mul(v, Pow(2, 8 * (3 - size)))
    ensures size > 3 ==> Pow(2, 8 * (size - 3)) > 0 && Top(v, size) == Quo(v, Pow(2, 8 * (size - 3)))
  {
    hide Mul, Pow, Quo;
    if size > 3 {
      PowPositive(2, 8 * (size - 3));
      assert Kept(v, 8 * (size - 3)) == Quo(v, Pow(2, 8 * (size - 3)));
    }
  }

  lemma NotCut(v: nat)
    ensures v < EXPONENT ==> v % WORD64 == v && v % B == v
  {
    hide Mul, Quo, Rem;
    if v < EXPONENT {
      MulUnit(WORD64);
      MulUnit(B);
      QuoRemUnique(v, WORD64, 0, v);
      QuoRemUnique(v, B, 0, v);
      QuoIs(v, WORD64);
      QuoIs(v, B);
    }
  }
}
