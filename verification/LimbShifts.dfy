/** Shifts, products and single bits of numbers kept as 32-bit limbs. */
module LimbShifts {
  import opened Numbers
  import opened Limbs

  /** Bitwise or. */
  function BitOr(x: nat, y: nat): nat
    decreases x + y
  {
    if x == 0 && y == 0 then 0
    else 2 * BitOr(x / 2, y / 2) + (if x % 2 == 1 || y % 2 == 1 then 1 else 0)
  }

  lemma {:induction false} OrCommutes(x: nat, y: nat)
    ensures BitOr(x, y) == BitOr(y, x)
    decreases x + y
  {
    if x != 0 || y != 0 { OrCommutes(x / 2, y / 2); }
  }

  lemma {:induction false} OrZero(y: nat)
    ensures BitOr(0, y) == y
  {
    if y != 0 { OrZero(y / 2); }
  }

  /** Bits that do not overlap add up. */
  lemma {:induction false} OrDisjoint(x: nat, h: nat, s: nat)
    requires x < Pow(2, s)
    ensures Mul(h, Pow(2, s)) >= 0
    ensures BitOr(x, Mul(h, Pow(2, s))) == x + Mul(h, Pow(2, s))
  {
    hide Mul;
    MulNat(h, Pow(2, s));
    if s == 0 {
      OrZero(Mul(h, Pow(2, s)));
    } else {
      var z := Mul(h, Pow(2, s - 1));
      PowTwice(s - 1);
      MulPlus(h, Pow(2, s - 1), Pow(2, s - 1));
      MulNat(h, Pow(2, s - 1));
      OrDisjoint(x / 2, h, s - 1);
      assert (2 * z) / 2 == z && (2 * z) % 2 == 0;
    }
  }

  /** Setting a bit that is clear adds it. */
  lemma {:induction false} OrBit(x: nat, b: nat)
    requires Kept(x, b) % 2 == 0
    ensures BitOr(x, Pow(2, b)) == x + Pow(2, b)
  {
    hide Mul, Quo, Kept;
    if b == 0 {
      KeptAll(x);
      OrCommutes(x / 2, 0);
      OrZero(x / 2);
      assert BitOr(x, 1) == 2 * BitOr(x / 2, 0) + 1;
      PowUnit(2);
    } else {
      KeptHalf(x, b);
      PowTwice(b - 1);
      PowPositive(2, b - 1);
      OrBit(x / 2, b - 1);
    }
  }

  lemma KeptAll(x: nat)
    ensures Kept(x, 0) == x
  {
    hide Mul, Quo;
    PowUnit(2);
    MulUnit(x);
    QuoRemUnique(x, 1, x, 0);
  }

  lemma KeptHalf(x: nat, b: nat)
    requires b > 0
    ensures Kept(x, b) == Kept(x / 2, b - 1)
  {
    hide Mul, Quo, Kept;
    KeptTwice(x, 1, b - 1);
    KeptOne(x);
  }

  lemma KeptOne(x: nat)
    ensures Kept(x, 1) == x / 2
  {
    hide Quo, Pow;
    PowUnit(2);
    QuoIs(x, 2);
  }

  /** Shifting twice is shifting by the sum. */
  lemma KeptTwice(x: nat, i: nat, j: nat)
    ensures Kept(Kept(x, i), j) == Kept(x, i + j)
  {
    hide Mul, Quo, Rem, Pow;
    var p, q := Pow(2, i), Pow(2, j);
    PowPositive(2, i);
    PowPositive(2, j);
    PowPositive(2, i + j);
    PowAdd(2, i, j);
    QuoRem(x, p);
    var y := Quo(x, p);
    QuoNat(x, p);
    QuoRem(y, q);
    var z := Quo(y, q);
    MulPlus(p, Mul(z, q), Rem(y, q));
    MulMul(z, q, p);
    MulSwap(q, p);
    MulNat(Rem(y, q), p);
    MulGrows(p, Rem(y, q) + 1, q);
    MulPlus(p, Rem(y, q), 1);
    MulUnit(p);
    QuoRemUnique(x, Pow(2, i + j), z, Mul(Rem(y, q), p) + Rem(x, p));
  }

  lemma PowTwice(s: nat)
    ensures Pow(2, s + 1) == Pow(2, s) + Pow(2, s)
  {
    hide Mul;
    assert Pow(2, s + 1) == Mul(2, Pow(2, s));
    MulIs(2, Pow(2, s));
  }

  lemma {:induction false} PowBits(k: nat)
    ensures Pow(2, 32 * k) == Pow(B, k)
  {
    hide Mul;
    PowWord();
    PowMul(2, 32, k);
  }

  lemma PowWord()
    ensures Pow(2, 32) == B
  {
    hide Mul, Pow;
    SmallPowers();
    PowAdd(2, 8, 8);
    PowAdd(2, 16, 16);
    MulIs(256, 256);
    MulIs(65536, 65536);
  }

  // ---------------------------------------------------------------- shifts

  /** The upper and lower word of a limb shifted left. */
  function Upper(a: nat, s: nat): (r: nat)
    requires s < 32
    ensures Pow(2, 32 - s) > 0 && r == Quo(a, Pow(2, 32 - s))
  {
    hide Mul, Quo, Pow;
    PowPositive(2, 32 - s);
    QuoNat(a, Pow(2, 32 - s));
    QuoIs(a, Pow(2, 32 - s));
    a / Pow(2, 32 - s)
  }

  function Lower(a: nat, s: nat): (r: nat)
    ensures r == Mul(a, Pow(2, s)) % B
  {
    hide Mul, Pow;
    MulIs(a, Pow(2, s));
    a * Pow(2, s) % B
  }

  lemma ShiftParts(a: nat, s: nat) returns (h: nat)
    requires a < B && s < 32
    ensures Mul(a, Pow(2, s)) == B * Upper(a, s) + Lower(a, s) && Lower(a, s) < B
    ensures Upper(a, s) < Pow(2, s) && Lower(a, s) == Mul(h, Pow(2, s))
  {
    hide Mul, Quo, Rem, Pow;
    PowPositive(2, 32 - s);
    PowPositive(2, s);
    PowWord();
    PowAdd(2, 32 - s, s);
    var d := Pow(2, 32 - s);
    QuoRem(a, d);
    h := Rem(a, d);
    MulPlus(Pow(2, s), Mul(Quo(a, d), d), h);
    MulMul(Quo(a, d), d, Pow(2, s));
    MulSwap(Quo(a, d), B);
    MulIs(B, Upper(a, s));
    MulNat(h, Pow(2, s));
    MulGrows(Pow(2, s), h + 1, d);
    MulPlus(Pow(2, s), h, 1);
    MulUnit(Pow(2, s));
    MulSwap(d, Pow(2, s));
    LowerIs(a, s, Upper(a, s), Mul(h, Pow(2, s)));
    UpperBound(a, s);
  }

  lemma LowerIs(a: nat, s: nat, q: nat, r: nat)
    requires Mul(a, Pow(2, s)) == B * q + r && r < B
    ensures Lower(a, s) == r
  {
    hide Pow, Mul;
  }

  lemma UpperBound(a: nat, s: nat)
    requires a < B && s < 32
    ensures Upper(a, s) < Pow(2, s)
  {
    hide Mul, Quo, Rem, Pow;
    PowPositive(2, 32 - s);
    PowWord();
    PowAdd(2, 32 - s, s);
    QuoRem(a, Pow(2, 32 - s));
    QuoBelow(Quo(a, Pow(2, 32 - s)), Pow(2, s), Pow(2, 32 - s));
  }

  lemma QuoBelow(q: int, n: int, d: nat)
    requires d > 0 && Mul(q, d) < Mul(d, n)
    ensures q < n
  {
    hide Mul;
    MulSwap(d, n);
    if q >= n { MulGrows(d, n, q); }
  }

  /** A step of <<=: the lower word of the next limb joins the upper word of the last. */
  lemma LeftStep(low: seq<nat>, a: seq<nat>, i: nat, k: nat, s: nat, top: nat)
    requires s < 32 && i < |a| && Limbed(a) && |low| == i + k && top < Pow(2, s)
    requires Total(low) + Mul(top, Pow(B, i + k)) == Mul(Mul(Total(a[..i]), Pow(2, s)), Pow(B, k))
    ensures BitOr(top, Lower(a[i], s)) < B && Upper(a[i], s) < Pow(2, s)
    ensures Total(low + [BitOr(top, Lower(a[i], s))]) + Mul(Upper(a[i], s), Pow(B, i + k + 1))
         == Mul(Mul(Total(a[..i + 1]), Pow(2, s)), Pow(B, k))
  {
    hide Mul, Pow, Total, Upper, Lower, BitOr, Rem;
    var h := ShiftParts(a[i], s);
    OrDisjoint(top, h, s);
    var n := top + Mul(a[i], Pow(2, s));
    LowWord(top, h, s);
    CarryStep(low, top, Mul(Mul(Total(a[..i]), Pow(2, s)), Pow(B, k)), n, Mul(a[i], Pow(2, s)));
    SplitWord(n, Upper(a[i], s), top + Lower(a[i], s));
    ShiftedStep(a, i, k, s);
  }

  lemma SplitWord(n: nat, q: nat, r: nat)
    requires n == B * q + r && r < B
    ensures n / B == q && n % B == r
  {
  }

  lemma LowWord(top: nat, h: nat, s: nat)
    requires s < 32 && top < Pow(2, s) && 0 <= Mul(h, Pow(2, s)) < B
    ensures top + Mul(h, Pow(2, s)) < B
  {
    hide Mul, Pow;
    PowWord();
    PowAdd(2, 32 - s, s);
    PowPositive(2, s);
    MulSwap(Pow(2, 32 - s), Pow(2, s));
    QuoBelow(h, Pow(2, 32 - s), Pow(2, s));
    MulGrows(Pow(2, s), h + 1, Pow(2, 32 - s));
    MulPlus(Pow(2, s), h, 1);
    MulUnit(Pow(2, s));
  }

  lemma ShiftedStep(a: seq<nat>, i: nat, k: nat, s: nat)
    requires i < |a|
    ensures Mul(Mul(Total(a[..i + 1]), Pow(2, s)), Pow(B, k))
         == Mul(Mul(Total(a[..i]), Pow(2, s)), Pow(B, k)) + Mul(Mul(a[i], Pow(2, s)), Pow(B, i + k))
  {
    hide Mul, Pow, Total;
    var p := Pow(2, s);
    TotalStep(a, i);
    MulPlus(p, Total(a[..i]), Mul(a[i], Pow(B, i)));
    MulPlus(Pow(B, k), Mul(Total(a[..i]), p), Mul(Mul(a[i], Pow(B, i)), p));
    PowAdd(B, i, k);
    MulMul(a[i], Pow(B, i), p);
    MulSwap(Pow(B, i), p);
    MulMul(a[i], p, Pow(B, i));
    MulMul(Mul(a[i], p), Pow(B, i), Pow(B, k));
  }

  /** What <<= leaves in the limbs is the shifted number, wrapped. */
  lemma LeftDone(a: seq<nat>, now: seq<nat>, k: nat, s: nat, top: nat)
    requires k <= |a| == |now| && Limbed(now)
    requires Total(now) + Mul(top, Pow(B, |a|)) == Mul(Mul(Total(a[..|a| - k]), Pow(2, s)), Pow(B, k))
    ensures Total(now) == Wrap(Mul(Total(a), Pow(2, 32 * k + s)), |a|)
  {
    hide Mul, Pow, Total, Wrap;
    var w := |a|;
    var rest := Total(a[w - k..]);
    TotalSplit(a, w - k);
    ShiftSplit(k, s);
    PowAdd(B, w - k, k);
    var p, q := Pow(2, s), Pow(B, k);
    MulMul(Total(a), p, q);
    MulPlus(p, Total(a[..w - k]), Mul(rest, Pow(B, w - k)));
    MulPlus(q, Mul(Total(a[..w - k]), p), Mul(Mul(rest, Pow(B, w - k)), p));
    MulMul(rest, Pow(B, w - k), p);
    MulSwap(Pow(B, w - k), p);
    MulMul(rest, p, Pow(B, w - k));
    MulMul(Mul(rest, p), Pow(B, w - k), q);
    MulPlus(Pow(B, w), top, Mul(rest, p));
    TotalBound(now);
    WrapIs(Total(now), top + Mul(rest, p), Mul(Total(a), Pow(2, 32 * k + s)), w);
  }

  lemma ShiftSplit(k: nat, s: nat)
    ensures Pow(2, 32 * k + s) == Mul(Pow(2, s), Pow(B, k))
  {
    hide Mul, Pow;
    PowAdd(2, s, 32 * k);
    PowBits(k);
  }

  /** Shifted out altogether. */
  lemma LeftOut(x: nat, w: nat, k: nat, s: nat)
    requires k >= w
    ensures Wrap(Mul(x, Pow(2, 32 * k + s)), w) == 0
  {
    hide Mul, Pow, Wrap;
    ShiftSplit(k, s);
    PowAdd(B, k - w, w);
    PowPositive(B, w);
    var p := Pow(2, s);
    MulMul(p, Pow(B, k - w), Pow(B, w));
    MulMul(x, Mul(p, Pow(B, k - w)), Pow(B, w));
    WrapIs(0, Mul(x, Mul(p, Pow(B, k - w))), Mul(x, Pow(2, 32 * k + s)), w);
  }

  /** What >> leaves of a limb, and what it drops. */
  function Kept(a: nat, s: nat): (r: nat)
    ensures Pow(2, s) > 0 && r == Quo(a, Pow(2, s))
  {
    hide Mul, Quo, Pow;
    PowPositive(2, s);
    QuoNat(a, Pow(2, s));
    QuoIs(a, Pow(2, s));
    a / Pow(2, s)
  }

  function Dropped(a: nat, s: nat): nat {
    hide Mul, Rem;
    PowPositive(2, s);
    QuoRem(a, Pow(2, s));
    Rem(a, Pow(2, s))
  }

  lemma KeptDropped(a: nat, s: nat)
    requires s < 32 && a < B
    ensures a == Mul(Kept(a, s), Pow(2, s)) + Dropped(a, s) && Dropped(a, s) < Pow(2, s)
    ensures Kept(a, s) < Pow(2, 32 - s)
  {
    hide Mul, Pow, Quo, Rem;
    PowPositive(2, s);
    QuoRem(a, Pow(2, s));
    PowWord();
    PowAdd(2, s, 32 - s);
    QuoBelow(Kept(a, s), Pow(2, 32 - s), Pow(2, s));
  }

  /** A limb shifted left by the rest of a word has the dropped bits at the top. */
  lemma DroppedUp(a: nat, s: nat)
    requires 0 < s < 32 && a < B
    ensures Lower(a, 32 - s) == Mul(Dropped(a, s), Pow(2, 32 - s))
    ensures Mul(Lower(a, 32 - s), Pow(2, s)) == Mul(Dropped(a, s), B)
  {
    hide Mul, Pow, Quo, Rem, Lower, Kept, Dropped;
    KeptDropped(a, s);
    PowWord();
    PowAdd(2, s, 32 - s);
    PowAdd(2, 32 - s, s);
    PowPositive(2, 32 - s);
    var d := Pow(2, 32 - s);
    MulPlus(d, Mul(Kept(a, s), Pow(2, s)), Dropped(a, s));
    MulMul(Kept(a, s), Pow(2, s), d);
    MulSwap(Kept(a, s), B);
    MulIs(B, Kept(a, s));
    MulNat(Dropped(a, s), d);
    MulGrows(d, Dropped(a, s) + 1, Pow(2, s));
    MulPlus(d, Dropped(a, s), 1);
    MulUnit(d);
    LowerIs(a, 32 - s, Kept(a, s), Mul(Dropped(a, s), d));
    MulMul(Dropped(a, s), d, Pow(2, s));
  }

  /** A step of >>=: the bits the next limb drops join the top of the last one. */
  lemma RightStep(low: seq<nat>, last: nat, c: seq<nat>, s: nat, first: nat)
    requires 0 < s < 32 && Limbed(c) && |low| + 1 < |c| && last < Pow(2, 32 - s)
    requires Mul(Total(low + [last]), Pow(2, s)) + first == Total(c[..|low| + 1])
    ensures var x := c[|low| + 1];
      && BitOr(last, Lower(x, 32 - s)) < B && Kept(x, s) < Pow(2, 32 - s)
      && Mul(Total(low + [BitOr(last, Lower(x, 32 - s))] + [Kept(x, s)]), Pow(2, s)) + first == Total(c[..|low| + 2])
  {
    hide Mul, Pow, Total, Lower, Kept, Dropped, BitOr;
    var x, m, p := c[|low| + 1], |low|, Pow(2, s);
    KeptDropped(x, s);
    DroppedUp(x, s);
    var up := Lower(x, 32 - s);
    OrDisjoint(last, Dropped(x, s), 32 - s);
    assert up < B by { LowerBound(x, 32 - s); }
    LowWord(last, Dropped(x, s), 32 - s);
    TotalAppend(low, last);
    TotalAppend(low, last + up);
    TotalAppend(low + [last + up], Kept(x, s));
    TotalStep(c, m + 1);
    MulPlus(Pow(B, m), last, up);
    RightTerms(Total(low + [last]), up, Kept(x, s), Dropped(x, s), x, m, s);
  }

  lemma LowerBound(a: nat, s: nat)
    ensures Lower(a, s) < B
  {
    hide Mul, Pow;
  }

  lemma RightTerms(low: nat, up: nat, kept: nat, dropped: nat, x: nat, m: nat, s: nat)
    requires Mul(up, Pow(2, s)) == Mul(dropped, B) && x == Mul(kept, Pow(2, s)) + dropped
    ensures Mul(low + Mul(up, Pow(B, m)) + Mul(kept, Pow(B, m + 1)), Pow(2, s))
         == Mul(low, Pow(2, s)) + Mul(x, Pow(B, m + 1))
  {
    hide Mul, Total;
    var p, q := Pow(2, s), Pow(B, m);
    assert Pow(B, m + 1) == Mul(B, q);
    MulPlus(p, low + Mul(up, q), Mul(kept, Mul(B, q)));
    MulPlus(p, low, Mul(up, q));
    Rotate(up, q, p);
    MulMul(dropped, B, q);
    Rotate(kept, Mul(B, q), p);
    MulPlus(Mul(B, q), Mul(kept, p), dropped);
  }

  lemma Rotate(a: int, b: int, c: int)
    ensures Mul(Mul(a, b), c) == Mul(Mul(a, c), b)
  {
    hide Mul;
    MulMul(a, b, c);
    MulSwap(b, c);
    MulMul(a, c, b);
  }

  /** A step of >>= by whole words. */
  lemma RightStepWords(low: seq<nat>, c: seq<nat>)
    requires |low| < |c| && Mul(Total(low), Pow(2, 0)) == Total(c[..|low|])
    ensures Kept(c[|low|], 0) == c[|low|]
    ensures Mul(Total(low + [c[|low|]]), Pow(2, 0)) == Total(c[..|low| + 1])
  {
    hide Mul, Total, Quo, Rem;
    TotalStep(c, |low|);
    TotalAppend(low, c[|low|]);
    MulUnit(Total(low));
    MulUnit(Total(low + [c[|low|]]));
    MulUnit(c[|low|]);
    QuoRemUnique(c[|low|], 1, c[|low|], 0);
  }

  /** What >>= leaves in the limbs is the floor of the quotient. */
  lemma RightDone(a: seq<nat>, now: seq<nat>, k: nat, s: nat, first: nat)
    requires k <= |a| == |now| && Limbed(a) && first < Pow(2, s)
    requires (forall j :: |a| - k <= j < |a| ==> now[j] == 0)
    requires Mul(Total(now[..|a| - k]), Pow(2, s)) + first == Total(a[k..])
    ensures Pow(2, 32 * k + s) > 0 && Total(now) == Quo(Total(a), Pow(2, 32 * k + s))
  {
    hide Mul, Pow, Total, Quo;
    var m, p, q := |a| - k, Pow(2, s), Pow(B, k);
    TotalSplit(now, m);
    TotalZeros(now[m..]);
    MulUnit(Pow(B, m));
    TotalSplit(a, k);
    TotalBound(a[..k]);
    ShiftSplit(k, s);
    PowPositive(2, 32 * k + s);
    MulPlus(q, Mul(Total(now), p), first);
    MulMul(Total(now), p, q);
    MulNat(first, q);
    MulGrows(q, first + 1, p);
    MulPlus(q, first, 1);
    MulUnit(q);
    QuoRemUnique(Total(a), Pow(2, 32 * k + s), Total(now), Mul(first, q) + Total(a[..k]));
  }

  lemma RightOut(a: seq<nat>, k: nat, s: nat)
    requires k >= |a| && Limbed(a)
    ensures Pow(2, 32 * k + s) > 0 && Quo(Total(a), Pow(2, 32 * k + s)) == 0
  {
    hide Mul, Pow, Total, Quo;
    TotalBound(a);
    PowBits(|a|);
    PowGrows(2, 32 * |a|, 32 * k + s);
    MulUnit(Pow(2, 32 * k + s));
    QuoRemUnique(Total(a), Pow(2, 32 * k + s), 0, Total(a));
  }

  // --------------------------------------------------------------- products

  /** A step of a row of *=. */
  lemma RowStep(was: seq<nat>, low: seq<nat>, b: seq<nat>, x: nat, i: nat, j: nat, carry: nat, n: nat)
    requires i < |b| && |low| == i + j < |was| && n == carry + was[i + j] + Mul(x, b[i])
    requires Total(low) + Mul(carry, Pow(B, i + j)) == Total(was[..i + j]) + Mul(Mul(x, Total(b[..i])), Pow(B, j))
    ensures Total(low + [n % B]) + Mul(n / B, Pow(B, i + j + 1))
         == Total(was[..i + j + 1]) + Mul(Mul(x, Total(b[..i + 1])), Pow(B, j))
  {
    hide Mul, Pow, Total;
    CarryStep(low, carry, Total(was[..i + j]) + Mul(Mul(x, Total(b[..i])), Pow(B, j)), n, was[i + j] + Mul(x, b[i]));
    TotalStep(was, i + j);
    TotalStep(b, i);
    MulPlus(Pow(B, i + j), was[i + j], Mul(x, b[i]));
    MulPlus(x, Total(b[..i]), Mul(b[i], Pow(B, i)));
    MulPlus(Pow(B, j), Mul(x, Total(b[..i])), Mul(x, Mul(b[i], Pow(B, i))));
    PowAdd(B, i, j);
    MulMul(x, b[i], Pow(B, i));
    MulMul(Mul(x, b[i]), Pow(B, i), Pow(B, j));
  }

  /** After a row, up to a multiple of what the limbs can hold, one more limb has been multiplied. */
  lemma RowDone(a: seq<nat>, b: seq<nat>, was: nat, now: nat, j: nat, carry: nat, over: int) returns (more: int)
    requires j < |a| == |b|
    requires was + Mul(over, Pow(B, |a|)) == Mul(Total(a[..j]), Total(b))
    requires now + Mul(carry, Pow(B, |a|)) == was + Mul(Mul(a[j], Total(b[..|a| - j])), Pow(B, j))
    ensures now + Mul(more, Pow(B, |a|)) == Mul(Total(a[..j + 1]), Total(b))
  {
    hide Mul, Pow, Total;
    var w, x := |a|, a[j];
    var rest := Total(b[w - j..]);
    TotalSplit(b, w - j);
    TotalStep(a, j);
    MulPlus(Total(b), Total(a[..j]), Mul(x, Pow(B, j)));
    Rotate(x, Pow(B, j), Total(b));
    MulPlus(x, Total(b[..w - j]), Mul(rest, Pow(B, w - j)));
    MulPlus(Pow(B, j), Mul(x, Total(b[..w - j])), Mul(x, Mul(rest, Pow(B, w - j))));
    PowAdd(B, w - j, j);
    MulMul(x, rest, Pow(B, w - j));
    MulMul(Mul(x, rest), Pow(B, w - j), Pow(B, j));
    more := over + carry + Mul(x, rest);
    MulPlus(Pow(B, w), over + carry, Mul(x, rest));
    MulPlus(Pow(B, w), over, carry);
  }

  // -------------------------------------------------------------- single bits

  /** With the bits above cleared, a bit is set exactly when the number reaches it. */
  lemma TopBit(x: nat, b: nat)
    requires x < Pow(2, b + 1)
    ensures (Kept(x, b) % 2 == 1) == (x >= Pow(2, b))
  {
    hide Mul, Pow, Quo;
    PowTwice(b);
    PowPositive(2, b);
    MulUnit(Pow(2, b));
    if x >= Pow(2, b) {
      QuoRemUnique(x, Pow(2, b), 1, x - Pow(2, b));
    } else {
      QuoRemUnique(x, Pow(2, b), 0, x);
    }
  }

  /** The position of the highest bit of the highest limb that is not zero gives that of the number. */
  lemma HighestBit(s: seq<nat>, pos: nat, b: nat)
    requires Limbed(s) && pos < |s| && (forall j :: pos < j < |s| ==> s[j] == 0)
    requires Pow(2, b) <= s[pos] < Pow(2, b + 1)
    ensures Pow(2, 32 * pos + b) <= Total(s) < Pow(2, 32 * pos + b + 1)
  {
    hide Mul, Pow, Total;
    TotalSplit(s, pos + 1);
    TotalZeros(s[pos + 1..]);
    MulUnit(Pow(B, pos + 1));
    TotalStep(s, pos);
    TotalBound(s[..pos]);
    PowBits(pos);
    var p := Pow(B, pos);
    PowAdd(2, b, 32 * pos);
    PowAdd(2, b + 1, 32 * pos);
    MulGrows(p, Pow(2, b), s[pos]);
    MulGrows(p, s[pos] + 1, Pow(2, b + 1));
    MulPlus(p, s[pos], 1);
    MulUnit(p);
  }

  /** Setting a bit below all the bits of a number adds it. */
  lemma SetBit(s: seq<nat>, at: nat, t: nat, h: nat)
    requires at < |s| && t < 32 && Limbed(s) && Total(s) == Mul(h, Pow(2, 32 * at + t + 1))
    ensures BitOr(s[at], Pow(2, t)) < B
    ensures Total(s[at := BitOr(s[at], Pow(2, t))]) == Total(s) + Pow(2, 32 * at + t)
  {
    hide Mul, Pow, Total, BitOr;
    var g := LimbMultiple(s, at, t + 1, h);
    PowPositive(2, t);
    PowTwice(t);
    OrDisjoint(Pow(2, t), g, t + 1);
    OrCommutes(Pow(2, t), s[at]);
    LowWordBit(g, t);
    TotalUpdate(s, at, s[at] + Pow(2, t));
    MulPlus(Pow(B, at), s[at], Pow(2, t));
    ShiftSplit(at, t);
  }

  lemma LowWordBit(g: nat, t: nat)
    requires t < 32 && 0 <= Mul(g, Pow(2, t + 1)) < B
    ensures Mul(g, Pow(2, t + 1)) + Pow(2, t) < B
  {
    hide Mul, Pow;
    PowPositive(2, t + 1);
    PowPositive(2, t);
    PowTwice(t);
    if t < 31 {
      LowWord(Pow(2, t), g, t + 1);
    } else {
      PowWord();
      MulSwap(g, B);
      MulSmall(B, g);
      MulUnit(Pow(2, t + 1));
    }
  }

  /** A limb of a multiple of a power of two is one too. */
  lemma LimbMultiple(s: seq<nat>, at: nat, t: nat, h: nat) returns (g: nat)
    requires at < |s| && t <= 32 && Limbed(s) && Total(s) == Mul(h, Pow(2, 32 * at + t))
    ensures s[at] == Mul(g, Pow(2, t))
  {
    hide Mul, Pow, Total;
    TotalSplit(s, at);
    TotalBound(s[..at]);
    var upper := s[at..];
    assert upper[0] == s[at] && upper[..1] == [s[at]];
    ShiftSplit(at, t);
    MulMul(h, Pow(2, t), Pow(B, at));
    MulNat(h, Pow(2, t));
    SameAbove(Total(s[..at]), Total(upper), Mul(h, Pow(2, t)), Pow(B, at));
    TotalSplit(upper, 1);
    OneLimb(s[at]);
    PowWord();
    PowUnit(B);
    PowAdd(2, 32 - t, t);
    PowPositive(2, t);
    var above := Total(upper[1..]);
    MulMul(above, Pow(2, 32 - t), Pow(2, t));
    MulPlus(Pow(2, t), h, Mul(above, Pow(2, 32 - t)));
    var d := h - Mul(above, Pow(2, 32 - t));
    NotNegative(d, Pow(2, t), s[at]);
    g := d;
  }

  lemma NotNegative(d: int, p: nat, x: nat)
    requires p > 0 && Mul(d, p) == x
    ensures d >= 0
  {
    hide Mul;
    MulUnit(p);
    if d <= -1 { MulGrows(p, d, -1); MulPlus(p, 0, 1); }
  }

  lemma OneLimb(x: nat)
    ensures Total([x]) == x
  {
    hide Mul;
    TotalAppend([], x);
    TotalEmpty();
    MulUnit(x);
    assert [] + [x] == [x];
  }

  lemma SameAbove(low: nat, x: nat, y: nat, p: nat)
    requires low < p && low + Mul(x, p) == Mul(y, p)
    ensures x == y
  {
    hide Mul, Quo, Rem;
    QuoRemUnique(Mul(y, p), p, y, 0);
    QuoRemUnique(Mul(y, p), p, x, low);
  }
}
