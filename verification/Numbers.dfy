/** Facts about products, division and powers that several modules share. Products and quotients are
    repeated addition and subtraction here, so that proofs go by their laws. */
module Numbers {
  function Min(a: int, b: int): int { if a < b then a else b }

  function Max(a: int, b: int): int { if a < b then b else a }

  function Mul(a: int, b: int): int
    decreases if a < 0 then -a else a
  {
    if a == 0 then 0 else if a > 0 then Mul(a - 1, b) + b else Mul(a + 1, b) - b
  }

  function Quo(a: int, b: int): int
    requires b > 0
    decreases if a < 0 then b - a else a
  {
    if a < 0 then Quo(a + b, b) - 1 else if a < b then 0 else Quo(a - b, b) + 1
  }

  function Rem(a: int, b: int): int
    requires b > 0
  {
    a - Mul(Quo(a, b), b)
  }

  /** Repeated addition is multiplication. */
  lemma {:induction false} MulIs(a: int, b: int)
    ensures Mul(a, b) == a * b
    decreases if a < 0 then -a else a
  {
    if a > 0 {
      MulIs(a - 1, b);
    } else if a < 0 {
      MulIs(a + 1, b);
    }
  }

  lemma MulMonotone(a: int, x: int, y: int)
    requires a >= 0 && x <= y
    ensures a * x <= a * y
  {
  }

  lemma MulAssociative(a: int, b: int, c: int)
    ensures (a * b) * c == a * (b * c)
  {
  }

  lemma MulSwap(a: int, b: int)
    ensures Mul(a, b) == Mul(b, a)
  {
    hide Mul;
    MulIs(a, b);
    MulIs(b, a);
  }

  lemma MulUnit(a: int)
    ensures Mul(a, 0) == Mul(0, a) == 0 && Mul(a, 1) == Mul(1, a) == a
  {
    hide Mul;
    MulIs(a, 0);
    MulIs(0, a);
    MulIs(a, 1);
    MulIs(1, a);
  }

  lemma MulPlus(a: int, x: int, y: int)
    ensures Mul(a, x + y) == Mul(a, x) + Mul(a, y) && Mul(x + y, a) == Mul(x, a) + Mul(y, a)
    ensures Mul(a, x - y) == Mul(a, x) - Mul(a, y) && Mul(x - y, a) == Mul(x, a) - Mul(y, a)
  {
    hide Mul;
    MulIs(a, x);
    MulIs(a, y);
    MulIs(a, x + y);
    MulIs(a, x - y);
    MulSwap(a, x);
    MulSwap(a, y);
    MulSwap(a, x + y);
    MulSwap(a, x - y);
  }

  lemma MulMul(a: int, b: int, c: int)
    ensures Mul(Mul(a, b), c) == Mul(a, Mul(b, c))
  {
    hide Mul;
    MulIs(a, b);
    MulIs(b, c);
    MulIs(Mul(a, b), c);
    MulIs(a, Mul(b, c));
    MulAssociative(a, b, c);
  }

  lemma MulGrows(a: int, x: int, y: int)
    requires a >= 0 && x <= y
    ensures Mul(a, x) <= Mul(a, y) && Mul(x, a) <= Mul(y, a)
  {
    hide Mul;
    MulIs(a, x);
    MulIs(a, y);
    MulSwap(a, x);
    MulSwap(a, y);
    MulMonotone(a, x, y);
  }

  lemma MulNat(a: int, x: int)
    requires a >= 0 && x >= 0
    ensures Mul(a, x) >= 0
  {
    hide Mul;
    MulUnit(a);
    MulGrows(a, 0, x);
  }

  /** A product below its factor has nothing to multiply. */
  lemma MulSmall(a: int, x: int)
    requires a > 0 && Mul(a, x) < a
    ensures x <= 0
  {
    hide Mul;
    MulUnit(a);
    if x >= 1 { MulGrows(a, 1, x); }
  }

  /** Repeated subtraction leaves a remainder below the divisor. */
  lemma {:induction false} QuoRem(x: int, a: int)
    requires a > 0
    ensures x == Mul(Quo(x, a), a) + Rem(x, a) && 0 <= Rem(x, a) < a
    decreases if x < 0 then a - x else x
  {
    hide Mul;
    MulUnit(a);
    if x < 0 {
      QuoRem(x + a, a);
      MulPlus(a, Quo(x + a, a), 1);
    } else if x >= a {
      QuoRem(x - a, a);
      MulPlus(a, Quo(x - a, a), 1);
    }
  }

  /** Quotient and remainder are determined by their defining equation. */
  lemma QuoRemUnique(x: int, a: int, q: int, r: int)
    requires a > 0 && 0 <= r < a && x == Mul(q, a) + r
    ensures Quo(x, a) == q && Rem(x, a) == r
  {
    hide Mul, Quo, Rem;
    QuoRem(x, a);
    var d := q - Quo(x, a);
    MulPlus(a, q, Quo(x, a));
    MulSwap(a, d);
    MulSwap(a, -d);
    MulPlus(a, 0, d);
    MulUnit(a);
    assert Mul(a, d) == Rem(x, a) - r;
    MulSmall(a, d);
    MulSmall(a, -d);
  }

  /** They are the quotient and the remainder of integer division. */
  lemma QuoIs(x: int, a: int)
    requires a > 0
    ensures Quo(x, a) == x / a && Rem(x, a) == x % a
  {
    hide Mul, Quo, Rem;
    MulIs(x / a, a);
    QuoRemUnique(x, a, x / a, x % a);
  }

  lemma QuoNat(x: nat, a: nat)
    requires a > 0
    ensures 0 <= Quo(x, a) <= x && (a > 1 && x > 0 ==> Quo(x, a) < x)
  {
    hide Mul, Quo, Rem;
    QuoRem(x, a);
    var q := Quo(x, a);
    QuoNegative(x, a, q);
    MulUnit(q);
    MulGrows(q, 1, a);
    if a > 1 && x > 0 && q > 0 {
      MulGrows(q, 2, a);
      MulPlus(q, 1, 1);
    }
  }

  lemma QuoNegative(x: nat, a: nat, q: int)
    requires a > 0 && x < Mul(q, a) + a
    ensures q >= 0
  {
    hide Mul;
    MulUnit(a);
    if q <= -1 { MulGrows(a, q, -1); MulPlus(a, 0, 1); }
  }

  // ------------------------------------------------------------------ powers

  function Pow(b: nat, e: nat): nat {
    if e == 0 then 1 else MulNat(b, Pow(b, e - 1)); Mul(b, Pow(b, e - 1))
  }

  lemma PowUnit(b: nat)
    ensures Pow(b, 0) == 1 && Pow(b, 1) == b
  {
    hide Mul;
    assert Pow(b, 1) == Mul(b, Pow(b, 0));
    MulUnit(b);
  }

  /** The number of binary digits. */
  function BitLength(x: nat): nat {
    if x == 0 then 0 else 1 + BitLength(x / 2)
  }

  lemma PowStep(b: nat, e: nat)
    ensures Pow(b, e + 1) == b * Pow(b, e)
  {
    hide Mul;
    MulIs(b, Pow(b, e));
  }

  lemma SmallPowers()
    ensures Pow(2, 7) == 128 && Pow(2, 8) == 256
  {
    hide Mul, Pow;
    PowUnit(2);
    PowStep(2, 1);
    PowStep(2, 2);
    PowStep(2, 3);
    PowStep(2, 4);
    PowStep(2, 5);
    PowStep(2, 6);
    PowStep(2, 7);
  }

  lemma {:induction false} PowPositive(b: nat, e: nat)
    requires b > 0
    ensures Pow(b, e) > 0
  {
    hide Mul;
    if e > 0 {
      PowPositive(b, e - 1);
      MulGrows(b, 1, Pow(b, e - 1));
      MulUnit(b);
    }
  }

  lemma {:induction false} PowAdd(b: nat, x: nat, y: nat)
    ensures Pow(b, x + y) == Mul(Pow(b, x), Pow(b, y))
  {
    hide Mul;
    if x == 0 {
      MulUnit(Pow(b, y));
    } else {
      PowAdd(b, x - 1, y);
      MulMul(b, Pow(b, x - 1), Pow(b, y));
    }
  }

  lemma {:induction false} PowMul(b: nat, x: nat, y: nat)
    ensures x * y >= 0 && Pow(b, x * y) == Pow(Pow(b, x), y)
  {
    if y > 0 {
      PowMul(b, x, y - 1);
      assert x * y == x + x * (y - 1);
      PowAdd(b, x, x * (y - 1));
    }
  }

  lemma PowGrows(b: nat, x: nat, y: nat)
    requires b > 0 && x <= y
    ensures Pow(b, x) <= Pow(b, y)
  {
    hide Mul, Pow;
    PowAdd(b, x, y - x);
    PowPositive(b, y - x);
    MulGrows(Pow(b, x), 1, Pow(b, y - x));
    MulUnit(Pow(b, x));
  }

  lemma {:induction false} PowBase(a: nat, b: nat, e: nat)
    requires a < b
    ensures Pow(a, e) <= Pow(b, e) && (e > 0 ==> Pow(a, e) < Pow(b, e))
  {
    hide Mul;
    if e > 0 {
      PowBase(a, b, e - 1);
      PowPositive(b, e - 1);
      MulGrows(a, Pow(a, e - 1), Pow(b, e - 1));
      MulGrows(Pow(b, e - 1), a + 1, b);
      MulPlus(Pow(b, e - 1), a, 1);
      MulUnit(Pow(b, e - 1));
    }
  }

  /** Roots keep the order. */
  lemma PowRoot(a: nat, b: nat, e: nat)
    requires e > 0 && Pow(a, e) <= Pow(b, e)
    ensures a <= b
  {
    hide Mul, Pow;
    if b < a { PowBase(b, a, e); }
  }

  lemma PowOrder(a: nat, b: nat, e: nat)
    requires a <= b
    ensures Pow(a, e) <= Pow(b, e)
  {
    hide Mul, Pow;
    if a < b { PowBase(a, b, e); }
  }
}
