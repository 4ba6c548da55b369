/** Digits of a number in some base, most significant first. */
module Radix {
  import opened Numbers

  ghost predicate Digital(b: nat, s: seq<nat>) {
    forall i :: 0 <= i < |s| ==> s[i] < b
  }

  predicate AllZero(s: seq<nat>) {
    forall i :: 0 <= i < |s| ==> s[i] == 0
  }

  function Val(b: nat, s: seq<nat>): nat {
    if s == [] then 0
    else
      MulNat(Val(b, s[..|s| - 1]), b);
      Mul(Val(b, s[..|s| - 1]), b) + s[|s| - 1]
  }

  /** The digits without a leading zero. */
  function Digits(b: nat, v: nat): seq<nat>
    requires b > 1
    decreases v
  {
    if v == 0 then []
    else
      hide Quo, Rem;
      QuoNat(v, b);
      QuoRem(v, b);
      Digits(b, Quo(v, b)) + [Rem(v, b)]
  }

  predicate Canonical(s: seq<nat>) {
    s == [] || s[0] != 0
  }

  lemma ValAppend(b: nat, s: seq<nat>, x: nat)
    ensures Val(b, s + [x]) == Mul(Val(b, s), b) + x
  {
    assert (s + [x])[..|s|] == s;
  }

  lemma ValEmpty(b: nat)
    ensures Val(b, []) == 0
  {
  }

  lemma {:induction false} ValPrepend(b: nat, x: nat, s: seq<nat>)
    ensures Val(b, [x] + s) == Mul(x, Pow(b, |s|)) + Val(b, s)
  {
    hide Mul;
    if s == [] {
      ValAppend(b, [], x);
      assert [x] + s == [] + [x];
      MulUnit(b);
      MulUnit(x);
    } else {
      var k := |s| - 1;
      ValPrepend(b, x, s[..k]);
      assert [x] + s == ([x] + s[..k]) + [s[k]];
      ValAppend(b, [x] + s[..k], s[k]);
      MulPlus(b, Mul(x, Pow(b, k)), Val(b, s[..k]));
      MulMul(x, Pow(b, k), b);
      MulSwap(Pow(b, k), b);
    }
  }

  lemma {:induction false} ValBound(b: nat, s: seq<nat>)
    requires b > 0 && Digital(b, s)
    ensures Val(b, s) < Pow(b, |s|)
  {
    hide Mul;
    if s != [] {
      var k := |s| - 1;
      ValBound(b, s[..k]);
      MulGrows(b, Val(b, s[..k]) + 1, Pow(b, k));
      MulPlus(b, Val(b, s[..k]), 1);
      MulSwap(b, Pow(b, k));
      MulUnit(b);
    }
  }

  lemma {:induction false} ValZeros(b: nat, s: seq<nat>)
    requires AllZero(s)
    ensures Val(b, s) == 0
  {
    hide Mul;
    if s != [] {
      ValZeros(b, s[..|s| - 1]);
      MulUnit(b);
    }
  }

  /** Leading zeros do not count. */
  lemma {:induction false} ValLeadingZeros(b: nat, z: seq<nat>, s: seq<nat>)
    requires AllZero(z)
    ensures Val(b, z + s) == Val(b, s)
  {
    hide Mul;
    if s == [] {
      assert z + s == z;
      ValZeros(b, z);
    } else {
      var k := |s| - 1;
      ValLeadingZeros(b, z, s[..k]);
      assert z + s == (z + s[..k]) + [s[k]];
      ValAppend(b, z + s[..k], s[k]);
    }
  }

  /** A number is the value of its digits. */
  lemma {:induction false} DigitsVal(b: nat, v: nat)
    requires b > 1
    ensures Val(b, Digits(b, v)) == v && Digital(b, Digits(b, v)) && Canonical(Digits(b, v))
    decreases v
  {
    hide Mul, Quo, Rem;
    if v > 0 {
      QuoNat(v, b);
      QuoRem(v, b);
      DigitsVal(b, Quo(v, b));
      ValAppend(b, Digits(b, Quo(v, b)), Rem(v, b));
      if Quo(v, b) == 0 { MulUnit(b); }
    }
  }

  /** Digits are the digits of their value. */
  lemma {:induction false} ValDigits(b: nat, s: seq<nat>)
    requires b > 1 && Digital(b, s) && Canonical(s)
    ensures Digits(b, Val(b, s)) == s
    ensures s != [] ==> Val(b, s) > 0
  {
    hide Mul, Quo, Rem;
    if s != [] {
      var k := |s| - 1;
      ValDigits(b, s[..k]);
      QuoRemUnique(Val(b, s), b, Val(b, s[..k]), s[k]);
      MulUnit(b);
      if k > 0 { MulGrows(b, 1, Val(b, s[..k])); }
    }
  }

  /** The digits left after the leading zeros are the number's digits. */
  lemma DigitsLeft(b: nat, z: seq<nat>, s: seq<nat>)
    requires b > 1 && Digital(b, s) && Canonical(s) && AllZero(z)
    ensures Digits(b, Val(b, z + s)) == s
  {
    hide Mul, Val, Digits;
    ValLeadingZeros(b, z, s);
    ValDigits(b, s);
  }

  // ----------------------------------------------------------- in a buffer

  /** One step of the carry. */
  lemma CarryStep(b: nat, m: nat, p: nat, x: nat, carry: nat, q: nat, r: nat, low: nat, oldLow: nat, c: nat)
    requires carry + Mul(m, x) == Mul(q, b) + r
    requires low + Mul(carry, p) == Mul(oldLow, m) + c
    ensures (Mul(r, p) + low) + Mul(q, Mul(b, p)) == Mul(Mul(x, p) + oldLow, m) + c
  {
    hide Mul;
    MulPlus(p, Mul(q, b), r);
    MulMul(q, b, p);
    MulPlus(p, carry, Mul(m, x));
    MulMul(m, x, p);
    MulSwap(m, Mul(x, p));
    MulPlus(m, Mul(x, p), oldLow);
  }

  lemma CellStep(b: nat, m: nat, x: nat, carry: nat, sum: nat, low: seq<nat>, oldLow: seq<nat>, c: nat)
    requires b > 0 && sum == carry + Mul(m, x) && |low| == |oldLow|
    requires Val(b, low) + Mul(carry, Pow(b, |low|)) == Mul(Val(b, oldLow), m) + c
    ensures 0 <= Rem(sum, b) < b && Quo(sum, b) >= 0
    ensures Val(b, [Rem(sum, b)] + low) + Mul(Quo(sum, b), Pow(b, |low| + 1)) == Mul(Val(b, [x] + oldLow), m) + c
  {
    hide Mul, Quo, Rem, Val;
    QuoRem(sum, b);
    QuoNat(sum, b);
    ValPrepend(b, Rem(sum, b), low);
    ValPrepend(b, x, oldLow);
    CarryStep(b, m, Pow(b, |low|), x, carry, Quo(sum, b), Rem(sum, b), Val(b, low), Val(b, oldLow), c);
  }

  /** Multiply the number in a buffer and add, in place; only the last `length` cells may hold digits.
      The buffer being large enough, no carry is left. */
  method MulAdd(buffer: array<nat>, b: nat, m: nat, c: nat, length: nat) returns (used: nat, carry: nat)
    requires b > 0 && length <= buffer.Length
    requires Digital(b, buffer[..]) && AllZero(buffer[..buffer.Length - length])
    requires Mul(Val(b, buffer[..]), m) + c < Pow(b, buffer.Length)
    modifies buffer
    ensures carry == 0 && used <= buffer.Length
    ensures Digital(b, buffer[..]) && AllZero(buffer[..buffer.Length - used])
    ensures Val(b, buffer[..]) == Mul(old(Val(b, buffer[..])), m) + c
  {
    hide Val, Pow, Mul, Quo, Rem;
    var n := buffer.Length;
    ghost var was := buffer[..];
    var i := 0;
    carry := c;
    ValEmpty(b);
    PowUnit(b);
    MulUnit(c);
    MulUnit(m);
    assert buffer[n..] == [] && was[n..] == [];
    while (carry != 0 || i < length) && i < n
      invariant 0 <= i <= n
      invariant forall j :: 0 <= j < n - i ==> buffer[j] == was[j]
      invariant Digital(b, buffer[..])
      invariant Val(b, buffer[n - i..]) + Mul(carry, Pow(b, i)) == Mul(Val(b, was[n - i..]), m) + c
    {
      ghost var low := buffer[n - i..];
      var at := n - 1 - i;
      MulNat(m, buffer[at]);
      MulIs(m, buffer[at]);
      var sum: nat := carry + m * buffer[at];
      QuoIs(sum, b);
      CellStep(b, m, was[at], carry, sum, low, was[n - i..], c);
      buffer[at] := sum % b;
      carry := sum / b;
      i := i + 1;
      assert buffer[n - i..] == [buffer[at]] + low;
      assert was[n - i..] == [was[at]] + was[n - i + 1..];
    }
    used := i;
    assert buffer[..n - i] == was[..n - i];
    Carried(b, m, c, was, buffer[..], i, length, carry);
  }

  /** When the carry loop stops, the whole number has been carried. */
  lemma Carried(b: nat, m: nat, c: nat, was: seq<nat>, now: seq<nat>, i: nat, length: nat, carry: nat)
    requires |was| == |now| && i <= |was| && length <= |was| && AllZero(was[..|was| - length])
    requires now[..|was| - i] == was[..|was| - i]
    requires Val(b, now[|was| - i..]) + Mul(carry, Pow(b, i)) == Mul(Val(b, was[|was| - i..]), m) + c
    requires i == |was| || (carry == 0 && i >= length)
    requires Mul(Val(b, was), m) + c < Pow(b, |was|)
    ensures carry == 0 && AllZero(now[..|was| - i]) && Val(b, now) == Mul(Val(b, was), m) + c
  {
    hide Val, Pow, Mul, AllZero;
    var n := |was|;
    if i == n {
      assert now[0..] == now && was[0..] == was;
      MulNat(Val(b, was), m);
      FitsNoCarry(carry, Pow(b, n), Val(b, now), Mul(Val(b, was), m) + c);
      NoneZero(now);
    } else {
      AllZeroPrefix(was, n - length, n - i);
      MulUnit(Pow(b, i));
      ValSuffix(b, now, n - i);
      ValSuffix(b, was, n - i);
    }
  }

  lemma NoneZero(s: seq<nat>)
    ensures AllZero(s[..0])
  {
  }

  lemma ValSuffix(b: nat, s: seq<nat>, k: nat)
    requires k <= |s| && AllZero(s[..k])
    ensures Val(b, s) == Val(b, s[k..])
  {
    ValLeadingZeros(b, s[..k], s[k..]);
    assert s == s[..k] + s[k..];
  }

  lemma AllZeroPrefix(s: seq<nat>, n: nat, k: nat)
    requires k <= n <= |s| && AllZero(s[..n])
    ensures AllZero(s[..k])
  {
    assert s[..k] == s[..n][..k];
  }

  lemma FitsNoCarry(carry: nat, p: nat, v: nat, total: nat)
    requires v + Mul(carry, p) == total < p
    ensures carry == 0 && Mul(carry, p) == 0
  {
    hide Mul;
    MulSwap(carry, p);
    MulSmall(p, carry);
    MulUnit(p);
  }
}
