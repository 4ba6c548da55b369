/** Numbers as 32-bit limbs, least significant first. */
module Limbs {
  import opened Numbers

  const B := 0x1_0000_0000

  ghost predicate Limbed(s: seq<nat>) {
    forall i :: 0 <= i < |s| ==> s[i] < B
  }

  function Total(s: seq<nat>): nat {
    if s == [] then 0
    else
      MulNat(s[|s| - 1], Pow(B, |s| - 1));
      Total(s[..|s| - 1]) + Mul(s[|s| - 1], Pow(B, |s| - 1))
  }

  /** A number modulo what so many limbs can hold. */
  function Wrap(x: int, width: nat): (r: nat)
    ensures r < Pow(B, width)
  {
    hide Rem, Mul;
    PowPositive(B, width);
    QuoRem(x, Pow(B, width));
    Rem(x, Pow(B, width))
  }

  lemma TotalEmpty()
    ensures Total([]) == 0 && Pow(B, 0) == 1
  {
  }

  lemma TotalAppend(s: seq<nat>, x: nat)
    ensures Total(s + [x]) == Total(s) + Mul(x, Pow(B, |s|))
  {
    hide Mul, Pow;
    assert (s + [x])[..|s|] == s;
  }

  lemma {:induction false} TotalBound(s: seq<nat>)
    requires Limbed(s)
    ensures Total(s) < Pow(B, |s|)
  {
    hide Mul;
    if s != [] {
      var k := |s| - 1;
      TotalBound(s[..k]);
      MulGrows(Pow(B, k), s[k], B - 1);
      MulPlus(Pow(B, k), B, 1);
      MulUnit(Pow(B, k));
    }
  }

  lemma {:induction false} TotalZeros(s: seq<nat>)
    requires forall i :: 0 <= i < |s| ==> s[i] == 0
    ensures Total(s) == 0
  {
    hide Mul;
    if s != [] {
      TotalZeros(s[..|s| - 1]);
      MulUnit(Pow(B, |s| - 1));
    }
  }

  lemma {:induction false} TotalSplit(s: seq<nat>, k: nat)
    requires k <= |s|
    ensures Total(s) == Total(s[..k]) + Mul(Total(s[k..]), Pow(B, k))
  {
    hide Mul;
    if k == |s| {
      assert s[..k] == s && s[k..] == [];
      MulUnit(Pow(B, k));
    } else {
      var m := |s| - 1;
      TotalSplit(s[..m], k);
      assert s[..m][..k] == s[..k];
      assert s[k..] == s[..m][k..] + [s[m]];
      TotalAppend(s[..m][k..], s[m]);
      PowAdd(B, m - k, k);
      MulPlus(Pow(B, k), Total(s[..m][k..]), Mul(s[m], Pow(B, m - k)));
      MulMul(s[m], Pow(B, m - k), Pow(B, k));
    }
  }

  lemma {:induction false} TotalUpdate(s: seq<nat>, i: nat, x: nat)
    requires i < |s|
    ensures Total(s[i := x]) == Total(s) - Mul(s[i], Pow(B, i)) + Mul(x, Pow(B, i))
  {
    hide Mul;
    var k := |s| - 1;
    if i < k {
      TotalUpdate(s[..k], i, x);
      assert s[i := x][..k] == s[..k][i := x];
    } else {
      assert s[i := x][..k] == s[..k];
    }
  }

  /** A number is determined by what it is congruent to, once it fits. */
  lemma WrapIs(x: nat, q: int, total: int, width: nat)
    requires x < Pow(B, width) && x + Mul(q, Pow(B, width)) == total
    ensures x == Wrap(total, width)
  {
    hide Mul, Pow, Rem, Quo;
    QuoRemUnique(total, Pow(B, width), q, x);
  }

  lemma WrapSame(x: nat, width: nat)
    requires x < Pow(B, width)
    ensures Wrap(x, width) == x
  {
    hide Mul, Pow, Wrap;
    MulUnit(Pow(B, width));
    WrapIs(x, 0, x, width);
  }

  /** What is left out by wrapping is a multiple. */
  lemma WrapAway(total: int, width: nat) returns (q: int)
    ensures total == Wrap(total, width) + Mul(q, Pow(B, width))
  {
    hide Mul, Pow, Rem, Quo;
    PowPositive(B, width);
    QuoRem(total, Pow(B, width));
    q := Quo(total, Pow(B, width));
  }

  /** Wrapping once at the end is enough. */
  lemma WrapInside(x: int, y: int, width: nat)
    ensures Wrap(x + Wrap(y, width), width) == Wrap(x + y, width)
  {
    hide Mul, Pow, Wrap;
    var q := WrapAway(y, width);
    var p := WrapAway(x + y, width);
    MulPlus(Pow(B, width), p, q);
    WrapIs(Wrap(x + y, width), p - q, x + Wrap(y, width), width);
  }

  /** One step of a carry from limb to limb: n is stored modulo 2^32 and the rest is carried. */
  lemma CarryStep(low: seq<nat>, carry: nat, total: int, n: nat, term: int)
    requires n == carry + term
    requires Total(low) + Mul(carry, Pow(B, |low|)) == total
    ensures Total(low + [n % B]) + Mul(n / B, Pow(B, |low| + 1)) == total + Mul(term, Pow(B, |low|))
  {
    hide Mul, Pow, Total;
    var p := Pow(B, |low|);
    TotalAppend(low, n % B);
    CarryPower(n / B, |low|);
    assert n == B * (n / B) + n % B;
    MulPlus(p, B * (n / B), n % B);
    MulPlus(p, carry, term);
  }

  lemma CarryPower(q: nat, k: nat)
    ensures Mul(q, Pow(B, k + 1)) == Mul(B * q, Pow(B, k))
  {
    hide Mul;
    MulSwap(q, B);
    MulMul(q, B, Pow(B, k));
    MulIs(B, q);
  }

  lemma TotalStep(s: seq<nat>, i: nat)
    requires i < |s|
    ensures Total(s[..i + 1]) == Total(s[..i]) + Mul(s[i], Pow(B, i))
  {
    assert s[..i + 1] == s[..i] + [s[i]];
    TotalAppend(s[..i], s[i]);
  }
}
