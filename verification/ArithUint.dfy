/** Unsigned numbers of a fixed number of 32-bit limbs (src/arith_uint256.h, src/arith_uint256.cpp), for every
    width of at least two limbs. */
module ArithUint {
  import opened Numbers
  import opened Limbs
  import opened LimbShifts

  const WORD64 := 0x1_0000_0000_0000_0000

  class BaseUint {
    const pn: array<nat>

    ghost predicate Valid()
      reads pn
    {
      pn.Length >= 2 && Limbed(pn[..])
    }

    ghost function Value(): nat
      reads pn
    {
      Total(pn[..])
    }

    /** The number zero. */
    constructor (width: nat)
      requires width >= 2
      ensures Valid() && fresh(pn) && pn.Length == width && Value() == 0
    {
      pn := new nat[width](_ => 0);
      new;
      TotalZeros(pn[..]);
    }

    /** A copy. */
    constructor Copy(b: BaseUint)
      requires b.Valid()
      ensures Valid() && fresh(pn) && pn.Length == b.pn.Length && pn[..] == b.pn[..]
    {
      var a := new nat[b.pn.Length](i requires 0 <= i < b.pn.Length reads b.pn => b.pn[i]);
      pn := a;
    }

    /** += : the sum, modulo two to the number of bits. The other operand may be this one. */
    method Add(b: BaseUint)
      requires Valid() && b.Valid() && b.pn.Length == pn.Length
      modifies pn
      ensures Valid() && Value() == Wrap(old(Value()) + old(b.Value()), pn.Length)
    {
      hide Total, Pow, Mul, Wrap;
      ghost var a0, b0 := pn[..], b.pn[..];
      var carry: nat := 0;
      TotalEmpty();
      MulUnit(Pow(B, 0));
      for i := 0 to pn.Length
        invariant carry <= 1 && Limbed(pn[..])
        invariant forall j :: i <= j < pn.Length ==> pn[j] == a0[j] && b.pn[j] == b0[j]
        invariant Total(pn[..i]) + Mul(carry, Pow(B, i)) == Total(a0[..i]) + Total(b0[..i])
      {
        var n := carry + pn[i] + b.pn[i];
        assert n < WORD64;
        CarryStep(pn[..i], carry, Total(a0[..i]) + Total(b0[..i]), n, a0[i] + b0[i]);
        TotalStep(a0, i);
        TotalStep(b0, i);
        MulPlus(Pow(B, i), a0[i], b0[i]);
        ghost var low := pn[..i];
        pn[i] := n % B;
        carry := n / B;
        assert pn[..i + 1] == low + [n % B];
      }
      assert pn[..pn.Length] == pn[..] && a0[..pn.Length] == a0 && b0[..pn.Length] == b0;
      TotalBound(pn[..]);
      WrapIs(Total(pn[..]), carry, Total(a0) + Total(b0), pn.Length);
    }

    /** ~ : the complement of every limb. */
    method Complement() returns (ret: BaseUint)
      requires Valid()
      ensures fresh(ret) && fresh(ret.pn) && ret.Valid() && ret.pn.Length == pn.Length
      ensures ret.Value() == Pow(B, pn.Length) - 1 - Value()
    {
      hide Total, Pow, Mul;
      ret := new BaseUint(pn.Length);
      TotalEmpty();
      for i := 0 to pn.Length
        invariant Limbed(ret.pn[..]) && pn[..] == old(pn[..])
        invariant Total(ret.pn[..i]) + 1 + Total(pn[..i]) == Pow(B, i)
      {
        ghost var low := ret.pn[..i];
        ret.pn[i] := B - 1 - pn[i];
        assert ret.pn[..i + 1] == low + [ret.pn[i]];
        TotalAppend(low, B - 1 - pn[i]);
        TotalStep(pn[..], i);
        assert pn[..i + 1] == pn[..][..i + 1] && pn[..i] == pn[..][..i];
        ComplementStep(pn[i], i);
      }
      assert pn[..pn.Length] == pn[..] && ret.pn[..pn.Length] == ret.pn[..];
    }

    /** prefix ++ */
    method Increment()
      requires Valid()
      modifies pn
      ensures Valid() && Value() == Wrap(old(Value()) + 1, pn.Length)
    {
      hide Total, Pow, Mul, Wrap;
      ghost var a0 := pn[..];
      TotalEmpty();
      MulUnit(1);
      pn[0] := (pn[0] + 1) % B;
      var i := 0;
      IncrementStep(a0, pn[..], 0);
      while pn[i] == 0 && i < pn.Length - 1
        invariant 0 <= i < pn.Length && Limbed(pn[..])
        invariant forall j :: 0 <= j < i ==> pn[j] == 0
        invariant forall j :: i < j < pn.Length ==> pn[j] == a0[j]
        invariant pn[i] == (a0[i] + 1) % B
        invariant Total(pn[..i + 1]) + (if pn[i] == 0 then Pow(B, i + 1) else 0) == Total(a0[..i + 1]) + 1
      {
        i := i + 1;
        ghost var low := pn[..i];
        pn[i] := (pn[i] + 1) % B;
        assert pn[..i] == low;
        IncrementStep(a0, pn[..], i);
      }
      IncrementDone(a0, pn[..], i);
    }

    /** prefix -- */
    method Decrement()
      requires Valid()
      modifies pn
      ensures Valid() && Value() == Wrap(old(Value()) - 1, pn.Length)
    {
      hide Total, Pow, Mul, Wrap;
      ghost var a0 := pn[..];
      TotalEmpty();
      pn[0] := (pn[0] + B - 1) % B;
      var i := 0;
      DecrementStep(a0, pn[..], 0);
      while pn[i] == B - 1 && i < pn.Length - 1
        invariant 0 <= i < pn.Length && Limbed(pn[..])
        invariant forall j :: i < j < pn.Length ==> pn[j] == a0[j]
        invariant pn[i] == (a0[i] + B - 1) % B
        invariant Total(pn[..i + 1]) + 1 == Total(a0[..i + 1]) + (if pn[i] == B - 1 then Pow(B, i + 1) else 0)
      {
        i := i + 1;
        ghost var low := pn[..i];
        pn[i] := (pn[i] + B - 1) % B;
        assert pn[..i] == low;
        DecrementStep(a0, pn[..], i);
      }
      DecrementDone(a0, pn[..], i);
    }

    /** unary - */
    method Negate() returns (ret: BaseUint)
      requires Valid()
      ensures fresh(ret) && fresh(ret.pn) && ret.Valid() && ret.pn.Length == pn.Length
      ensures ret.Value() == Wrap(0 - Value(), pn.Length)
    {
      hide Total, Pow, Mul, Wrap;
      ret := Complement();
      ret.Increment();
      NegateIs(Value(), pn.Length);
    }

    /** -= : the difference, modulo two to the number of bits. */
    method Subtract(b: BaseUint)
      requires Valid() && b.Valid() && b.pn.Length == pn.Length
      modifies pn
      ensures Valid() && Value() == Wrap(old(Value()) - old(b.Value()), pn.Length)
    {
      hide Total, Pow, Mul, Wrap;
      var c := b.Negate();
      WrapInside(Value(), 0 - b.Value(), pn.Length);
      Add(c);
    }

    /** *= a 32-bit number. */
    method MulWord(b32: nat)
      requires Valid() && b32 < B
      modifies pn
      ensures Valid() && Value() == Wrap(Mul(old(Value()), b32), pn.Length)
    {
      hide Total, Pow, Mul, Wrap;
      ghost var a0 := pn[..];
      var carry: nat := 0;
      TotalEmpty();
      MulUnit(Pow(B, 0));
      MulUnit(b32);
      for i := 0 to pn.Length
        invariant carry < B && Limbed(pn[..])
        invariant forall j :: i <= j < pn.Length ==> pn[j] == a0[j]
        invariant Total(pn[..i]) + Mul(carry, Pow(B, i)) == Mul(Total(a0[..i]), b32)
      {
        WordProduct(b32, pn[i]);
        MulIs(b32, pn[i]);
        var n := carry + b32 * pn[i];
        assert n < WORD64;
        MulRow(a0, b32, i);
        CarryStep(pn[..i], carry, Mul(Total(a0[..i]), b32), n, Mul(b32, a0[i]));
        ghost var low := pn[..i];
        pn[i] := n % B;
        carry := n / B;
        assert pn[..i + 1] == low + [n % B];
      }
      assert pn[..pn.Length] == pn[..] && a0[..pn.Length] == a0;
      TotalBound(pn[..]);
      WrapIs(Total(pn[..]), carry, Mul(Total(a0), b32), pn.Length);
    }

    /** Set to zero. */
    method Clear()
      requires Valid()
      modifies pn
      ensures Valid() && Value() == 0 && forall i :: 0 <= i < pn.Length ==> pn[i] == 0
    {
      for i := 0 to pn.Length
        invariant forall j :: 0 <= j < i ==> pn[j] == 0
      {
        pn[i] := 0;
      }
      TotalZeros(pn[..]);
    }

    ghost predicate Zero()
      reads pn
    {
      forall i :: 0 <= i < pn.Length ==> pn[i] == 0
    }

    /** A row of *=: add the product of one limb with the other operand, from the j-th limb up. That may be this number
        only as long as it is zero, which it then stays. */
    method AddRow(b: BaseUint, x: nat, j: nat) returns (ghost carried: nat)
      requires Valid() && b.Valid() && b.pn.Length == pn.Length && x < B && j < pn.Length && (b.pn == pn ==> Zero())
      modifies pn
      ensures Valid() && (b.pn == pn ==> Zero())
      ensures Value() + Mul(carried, Pow(B, pn.Length))
           == old(Value()) + Mul(Mul(x, Total(b.pn[..pn.Length - j])), Pow(B, j))
    {
      hide Total, Pow, Mul;
      ghost var was, b0 := pn[..], b.pn[..];
      var carry: nat := 0;
      TotalEmpty();
      MulUnit(x);
      MulUnit(Pow(B, j));
      var i := 0;
      while i + j < pn.Length
        invariant 0 <= i <= pn.Length - j && carry < B && Limbed(pn[..])
        invariant b.pn[..] == b0 && (b.pn == pn ==> carry == 0 && Zero())
        invariant forall m :: i + j <= m < pn.Length ==> pn[m] == was[m]
        invariant Total(pn[..i + j]) + Mul(carry, Pow(B, i + j))
               == Total(was[..i + j]) + Mul(Mul(x, Total(b0[..i])), Pow(B, j))
      {
        WordProduct(x, b.pn[i]);
        MulIs(x, b.pn[i]);
        var n := carry + pn[i + j] + x * b.pn[i];
        assert n < WORD64;
        RowStep(was, pn[..i + j], b0, x, i, j, carry, n);
        ghost var low := pn[..i + j];
        pn[i + j] := n % B;
        carry := n / B;
        assert pn[..i + j + 1] == low + [n % B];
        i := i + 1;
      }
      assert pn[..pn.Length] == pn[..] && was[..pn.Length] == was && b0[..i] == b.pn[..pn.Length - j];
      carried := carry;
    }

    /** *= another number. The limbs are cleared before the operand is read: a number times itself comes to zero. */
    method Multiply(b: BaseUint)
      requires Valid() && b.Valid() && b.pn.Length == pn.Length
      modifies pn
      ensures Valid()
      ensures Value() == if b.pn == pn then 0 else Wrap(Mul(old(Value()), old(b.Value())), pn.Length)
    {
      hide Total, Pow, Mul, Wrap;
      ghost var a0 := pn[..];
      var a := new BaseUint.Copy(this);
      Clear();
      ghost var b0 := b.pn[..];
      ghost var over: int := 0;
      TotalEmpty();
      MulUnit(Total(b0));
      MulUnit(Pow(B, pn.Length));
      for j := 0 to pn.Length
        invariant Valid() && a.pn[..] == a0 && b.pn[..] == b0 && (b.pn == pn ==> Zero())
        invariant Total(pn[..]) + Mul(over, Pow(B, pn.Length)) == Mul(Total(a0[..j]), Total(b0))
      {
        ghost var was := Total(pn[..]);
        ghost var carried := AddRow(b, a.pn[j], j);
        assert b0[..pn.Length - j] == b.pn[..pn.Length - j];
        over := RowDone(a0, b0, was, Total(pn[..]), j, carried, over);
      }
      assert a0[..pn.Length] == a0;
      TotalBound(pn[..]);
      WrapIs(Total(pn[..]), over, Mul(Total(a0), Total(b0)), pn.Length);
      if b.pn == pn { TotalZeros(pn[..]); }
    }

    /** <<= : times a power of two, modulo two to the number of bits. */
    method ShiftLeft(shift: nat)
      requires Valid()
      modifies pn
      ensures Valid() && Value() == Wrap(Mul(old(Value()), Pow(2, shift)), pn.Length)
    {
      hide Total, Pow, Mul, Wrap, Upper, Lower, BitOr, LeftSoFar;
      ghost var a0 := pn[..];
      var a := new BaseUint.Copy(this);
      Clear();
      var k, s := shift / 32, shift % 32;
      ghost var top: nat := 0;
      LeftStart(pn[..], a0, k, s);
      for i := 0 to pn.Length
        invariant a.pn[..] == a0 && LeftSoFar(pn[..], a0, i, k, s, top)
      {
        ghost var now := pn[..];
        LeftNext(now, a0, i, k, s, top);
        if i + k < pn.Length {
          if i + k + 1 < pn.Length && s != 0 {
            pn[i + k + 1] := BitOr(pn[i + k + 1], Upper(a.pn[i], s));
          }
          pn[i + k] := BitOr(pn[i + k], Lower(a.pn[i], s));
          assert pn[..] == Raised(now, a0[i], i + k, s);
          top := Upper(a0[i], s);
        }
      }
      LeftEnd(a0, pn[..], k, s, top);
      assert 32 * k + s == shift;
    }

    /** >>= : the floor of the quotient by a power of two. */
    method ShiftRight(shift: nat)
      requires Valid()
      modifies pn
      ensures Valid() && Pow(2, shift) > 0 && Value() == Quo(old(Value()), Pow(2, shift))
    {
      hide Total, Pow, Mul, Quo, Lower, Kept, BitOr, RightSoFar;
      ghost var a0 := pn[..];
      var a := new BaseUint.Copy(this);
      Clear();
      var k, s := shift / 32, shift % 32;
      ghost var c := if k <= pn.Length then a0[k..] else [];
      RightStart(pn[..], c, k, s);
      for i := 0 to pn.Length
        invariant a.pn[..] == a0 && RightSoFar(pn[..], c, i - k, s)
      {
        ghost var now := pn[..];
        RightNext(now, c, i - k, s);
        if i >= k {
          assert c[i - k] == a0[i];
          if i - k - 1 >= 0 && s != 0 {
            pn[i - k - 1] := BitOr(pn[i - k - 1], Lower(a.pn[i], 32 - s));
          }
          pn[i - k] := BitOr(pn[i - k], Kept(a.pn[i], s));
          assert pn[..] == Joined(now, c[i - k], i - k, s);
        }
      }
      RightEnd(a0, pn[..], k, s);
      assert 32 * k + s == shift;
    }

    /** The position of the highest bit plus one, or zero. */
    method Bits() returns (n: nat)
      requires Valid()
      ensures n <= 32 * pn.Length && (n == 0 <==> Value() == 0)
      ensures n > 0 ==> Pow(2, n - 1) <= Value() < Pow(2, n)
    {
      hide Total, Pow, Mul, Kept;
      var pos := pn.Length - 1;
      PowWord();
      PowUnit(2);
      while pos >= 0
        invariant -1 <= pos < pn.Length && forall j :: pos < j < pn.Length ==> pn[j] == 0
      {
        if pn[pos] != 0 {
          var bits := 31;
          while bits > 0
            invariant 0 <= bits <= 31 && pn[pos] < Pow(2, bits + 1)
          {
            TopBit(pn[pos], bits);
            if Kept(pn[pos], bits) % 2 == 1 { break; }
            bits := bits - 1;
          }
          PowPositive(2, 32 * pos + bits);
          HighestBit(pn[..], pos, bits);
          return 32 * pos + bits + 1;
        }
        pos := pos - 1;
      }
      TotalZeros(pn[..]);
      return 0;
    }

    /** CompareTo: the order of the numbers. */
    method CompareTo(b: BaseUint) returns (r: int)
      requires Valid() && b.Valid() && b.pn.Length == pn.Length
      ensures r == if Value() < b.Value() then -1 else if Value() > b.Value() then 1 else 0
    {
      hide Total, Pow, Mul;
      var i := pn.Length;
      while i > 0
        invariant 0 <= i <= pn.Length && pn[i..] == b.pn[i..]
      {
        i := i - 1;
        if pn[i] < b.pn[i] {
          HigherLimb(pn[..], b.pn[..], i);
          return -1;
        }
        if pn[i] > b.pn[i] {
          HigherLimb(b.pn[..], pn[..], i);
          return 1;
        }
        assert pn[i..] == [pn[i]] + pn[i + 1..] && b.pn[i..] == [b.pn[i]] + b.pn[i + 1..];
      }
      assert pn[0..] == pn[..] && b.pn[0..] == b.pn[..];
      return 0;
    }

    /** The decision of one bit of the quotient: take the shifted divisor off if it goes. */
    method DecideBit(num: BaseUint, div: BaseUint, shift: nat, ghost n: nat, ghost d: nat, ghost h: nat)
      returns (ghost more: nat)
      requires Valid() && div.Valid() && num.Valid() && div.pn.Length == num.pn.Length == pn.Length
      requires div.pn != num.pn && pn != num.pn && pn != div.pn && shift < 32 * pn.Length
      requires Dividing(n, d, num.Value(), Value(), h, shift) && div.Value() == Mul(d, Pow(2, shift))
      modifies pn, num.pn
      ensures Valid() && num.Valid() && Dividing(n, d, num.Value(), Value(), more, shift - 1)
    {
      hide Total, Pow, Mul, Wrap, BitOr, Dividing;
      var order := num.CompareTo(div);
      DividingBit(n, d, num.Value(), Value(), h, shift);
      if order >= 0 {
        TotalBound(num.pn[..]);
        WrapSame(num.Value() - div.Value(), pn.Length);
        num.Subtract(div);
        ghost var limbs := pn[..];
        SetBit(limbs, shift / 32, shift % 32, h);
        pn[shift / 32] := BitOr(pn[shift / 32], Pow(2, shift % 32));
        assert pn[..] == limbs[shift / 32 := BitOr(limbs[shift / 32], Pow(2, shift % 32))];
        more := 2 * h + 1;
      } else {
        more := 2 * h;
      }
    }

    /** /= : the floor of the quotient; what is left of the dividend is the remainder. Division by zero is refused,
        but only after the quotient has been cleared. The divisor may be this number. */
    method Divide(b: BaseUint) returns (ok: bool, num: BaseUint)
      requires Valid() && b.Valid() && b.pn.Length == pn.Length
      modifies pn
      ensures Valid() && fresh(num) && fresh(num.pn)
      ensures ok <==> old(b.Value()) != 0
      ensures !ok ==> Value() == 0
      ensures ok ==> Value() == Quo(old(Value()), old(b.Value())) && num.Value() == Rem(old(Value()), old(b.Value()))
    {
      hide Total, Pow, Mul, Quo, Rem, Wrap, Dividing;
      var div := new BaseUint.Copy(b);
      num := new BaseUint.Copy(this);
      ghost var n, d := Value(), b.Value();
      Clear();
      var numBits := num.Bits();
      var divBits := div.Bits();
      if divBits == 0 { return false, num; }
      ok := true;
      if divBits > numBits {
        SmallQuotient(n, d, numBits, divBits);
        return;
      }
      var shift: int := numBits - divBits;
      Aligned(n, d, numBits, divBits, pn.Length);
      div.ShiftLeft(shift);
      ghost var h: nat := 0;
      while shift >= 0
        invariant -1 <= shift < 32 * pn.Length
        invariant Valid() && div.Valid() && num.Valid() && div.pn.Length == num.pn.Length == pn.Length
        invariant fresh(div.pn) && fresh(num.pn) && div.pn != num.pn
        invariant Dividing(n, d, num.Value(), Value(), h, shift)
        invariant shift >= 0 ==> div.Value() == Mul(d, Pow(2, shift))
      {
        h := DecideBit(num, div, shift, n, d, h);
        Halve(d, shift);
        div.ShiftRight(1);
        shift := shift - 1;
      }
      DividingDone(n, d, num.Value(), Value(), h);
    }
  }

  // ----------------------------------------------------------------- division

  /** The state of the long division before the bit at `shift` is decided: what has been taken off the
      number is the quotient so far, and what is left is less than twice the shifted divisor. */
  ghost predicate Dividing(n: nat, d: nat, num: nat, quotient: nat, h: nat, shift: int)
    requires shift >= -1
  {
    && num + Mul(quotient, d) == n
    && num < Mul(d, Pow(2, shift + 1))
    && quotient == Mul(h, Pow(2, shift + 1))
  }

  lemma SmallQuotient(n: nat, d: nat, numBits: nat, divBits: nat)
    requires numBits < divBits && Pow(2, divBits - 1) <= d
    requires (numBits == 0 ==> n == 0) && (numBits > 0 ==> n < Pow(2, numBits))
    ensures d > 0 && Quo(n, d) == 0 && Rem(n, d) == n
  {
    hide Pow, Mul, Quo, Rem;
    PowPositive(2, divBits - 1);
    PowGrows(2, numBits, divBits - 1);
    MulUnit(d);
    QuoRemUnique(n, d, 0, n);
  }

  /** Aligned, the divisor still fits and twice the divisor exceeds the number. */
  lemma Aligned(n: nat, d: nat, numBits: nat, divBits: nat, width: nat)
    requires 0 < divBits <= numBits <= 32 * width
    requires Pow(2, numBits - 1) <= n < Pow(2, numBits) && Pow(2, divBits - 1) <= d < Pow(2, divBits)
    ensures Mul(d, Pow(2, numBits - divBits)) >= 0
    ensures Wrap(Mul(d, Pow(2, numBits - divBits)), width) == Mul(d, Pow(2, numBits - divBits))
    ensures Dividing(n, d, n, 0, 0, numBits - divBits)
  {
    hide Pow, Mul, Wrap;
    var s := numBits - divBits;
    PowPositive(2, s);
    PowAdd(2, divBits, s);
    PowGrows(2, numBits, 32 * width);
    PowBits(width);
    MulNat(d, Pow(2, s));
    MulGrows(Pow(2, s), d + 1, Pow(2, divBits));
    MulPlus(Pow(2, s), d, 1);
    MulUnit(Pow(2, s));
    WrapSame(Mul(d, Pow(2, s)), width);
    PowAdd(2, divBits - 1, s + 1);
    PowPositive(2, s + 1);
    MulGrows(Pow(2, s + 1), Pow(2, divBits - 1), d);
    MulUnit(d);
    MulUnit(Pow(2, s + 1));
  }

  /** Deciding a bit. */
  lemma DividingBit(n: nat, d: nat, num: nat, quotient: nat, h: nat, shift: nat)
    requires Dividing(n, d, num, quotient, h, shift)
    ensures quotient == Mul(h, Pow(2, shift + 1))
    ensures var e := Mul(d, Pow(2, shift));
      && (num < e ==> Dividing(n, d, num, quotient, 2 * h, shift - 1))
      && (num >= e ==> Dividing(n, d, num - e, quotient + Pow(2, shift), 2 * h + 1, shift - 1))
  {
    hide Pow, Mul;
    var p := Pow(2, shift);
    PowTwice(shift);
    MulPlus(d, p, p);
    MulPlus(h, p, p);
    MulPlus(p, h, h);
    MulPlus(p, h + h, 1);
    MulUnit(p);
    MulPlus(d, quotient, p);
    MulSwap(d, p);
  }

  /** Shifting the divisor back by one place. */
  lemma Halve(d: nat, shift: nat)
    ensures Pow(2, 1) > 0
    ensures shift > 0 ==> Quo(Mul(d, Pow(2, shift)), Pow(2, 1)) == Mul(d, Pow(2, shift - 1))
  {
    hide Pow, Mul, Quo, Rem;
    PowUnit(2);
    if shift > 0 {
      PowAdd(2, shift - 1, 1);
      MulMul(d, Pow(2, shift - 1), Pow(2, 1));
      QuoRemUnique(Mul(d, Pow(2, shift)), Pow(2, 1), Mul(d, Pow(2, shift - 1)), 0);
    }
  }

  lemma DividingDone(n: nat, d: nat, num: nat, quotient: nat, h: nat)
    requires Dividing(n, d, num, quotient, h, -1)
    ensures d > 0 && quotient == Quo(n, d) && num == Rem(n, d)
  {
    hide Pow, Mul, Quo, Rem;
    PowUnit(2);
    MulUnit(d);
    QuoRemUnique(n, d, quotient, num);
  }

  // ------------------------------------------------------------------- lemmas

  /** The limbs of <<= after its i-th round: the upper word of the last limb is the lower one of the next. */
  ghost predicate LeftSoFar(now: seq<nat>, a: seq<nat>, i: nat, k: nat, s: nat, top: nat) {
    && i <= |a| == |now| && Limbed(now) && top < Pow(2, s)
    && (forall j :: 0 <= j < |now| && (j < k || j > i + k) ==> now[j] == 0)
    && (i + k < |now| ==> now[i + k] == top)
    && (k <= |now| ==> var e := if i + k <= |now| then i else |now| - k;
        Total(now[..e + k]) + Mul(top, Pow(B, e + k)) == Mul(Mul(Total(a[..e]), Pow(2, s)), Pow(B, k)))
  }

  lemma LeftStart(now: seq<nat>, a: seq<nat>, k: nat, s: nat)
    requires |a| == |now| && forall i :: 0 <= i < |now| ==> now[i] == 0
    ensures LeftSoFar(now, a, 0, k, s, 0)
  {
    hide Mul, Pow;
    PowPositive(2, s);
    if k <= |now| { TotalZeros(now[..k]); }
    MulUnit(Pow(B, k));
    MulUnit(Pow(2, s));
  }

  /** The limbs after a round of <<=. */
  ghost function Raised(now: seq<nat>, x: nat, m: nat, s: nat): seq<nat>
    requires m < |now| && s < 32
  {
    var upper := if m + 1 < |now| && s != 0 then now[m + 1 := BitOr(now[m + 1], Upper(x, s))] else now;
    upper[m := BitOr(upper[m], Lower(x, s))]
  }

  lemma LeftNext(now: seq<nat>, a: seq<nat>, i: nat, k: nat, s: nat, top: nat)
    requires s < 32 && i < |a| && Limbed(a) && LeftSoFar(now, a, i, k, s, top)
    ensures if i + k < |now| then LeftSoFar(Raised(now, a[i], i + k, s), a, i + 1, k, s, Upper(a[i], s))
            else LeftSoFar(now, a, i + 1, k, s, top)
  {
    hide Total, Pow, Mul, Upper, Lower, BitOr;
    if i + k < |now| {
      var x, m := a[i], i + k;
      LeftStep(now[..m], a, i, k, s, top);
      OrZero(Upper(x, s));
      UpperLimb(x, s);
      if s == 0 { UpperNone(x); }
      assert Raised(now, x, m, s)[..m + 1] == now[..m] + [BitOr(top, Lower(x, s))];
    }
  }

  lemma LeftEnd(a: seq<nat>, now: seq<nat>, k: nat, s: nat, top: nat)
    requires |a| == |now| && s < 32 && LeftSoFar(now, a, |a|, k, s, top)
    ensures Limbed(now) && Total(now) == Wrap(Mul(Total(a), Pow(2, 32 * k + s)), |a|)
  {
    hide Total, Pow, Mul, Wrap;
    if k <= |a| {
      assert now[..|a|] == now;
      LeftDone(a, now, k, s, top);
    } else {
      TotalZeros(now);
      LeftOut(Total(a), |a|, k, s);
    }
  }

  lemma UpperNone(a: nat)
    requires a < B
    ensures Upper(a, 0) == 0
  {
    hide Pow;
    UpperBound(a, 0);
    PowUnit(2);
  }

  lemma UpperLimb(a: nat, s: nat)
    requires a < B && s < 32
    ensures Upper(a, s) < B
  {
    hide Pow, Upper;
    UpperBound(a, s);
    PowGrows(2, s, 32);
    PowWord();
  }

  /** The limbs of >>= after its m-th round, counted from the first limb that is kept. */
  ghost predicate RightSoFar(now: seq<nat>, c: seq<nat>, m: int, s: nat) {
    && m <= |c| <= |now| && Limbed(now)
    && (forall j :: 0 <= j < |now| && j >= m ==> now[j] == 0)
    && (m > 0 ==> now[m - 1] == Kept(c[m - 1], s))
    && (m > 0 ==> Mul(Total(now[..m]), Pow(2, s)) + Dropped(c[0], s) == Total(c[..m]))
  }

  lemma RightStart(now: seq<nat>, c: seq<nat>, k: nat, s: nat)
    requires |c| <= |now| && forall j :: 0 <= j < |now| ==> now[j] == 0
    ensures RightSoFar(now, c, 0 - k, s)
  {
  }

  lemma RightFirst(c: seq<nat>, s: nat)
    requires Limbed(c) && s < 32 && c != []
    ensures Mul(Total([] + [Kept(c[0], s)]), Pow(2, s)) + Dropped(c[0], s) == Total(c[..1])
  {
    hide Total, Pow, Mul, Kept, Dropped;
    KeptDropped(c[0], s);
    OneLimb(Kept(c[0], s));
    OneLimb(c[0]);
    assert c[..1] == [c[0]] && [] + [Kept(c[0], s)] == [Kept(c[0], s)];
  }

  /** The limbs after a round of >>=. */
  ghost function Joined(now: seq<nat>, x: nat, m: nat, s: nat): seq<nat>
    requires m < |now| && s < 32
  {
    var lower := if m > 0 && s != 0 then now[m - 1 := BitOr(now[m - 1], Lower(x, 32 - s))] else now;
    lower[m := BitOr(lower[m], Kept(x, s))]
  }

  lemma RightNext(now: seq<nat>, c: seq<nat>, m: int, s: nat)
    requires s < 32 && m < |now| && Limbed(c) && RightSoFar(now, c, m, s) && (m >= 0 ==> m < |c|)
    ensures RightSoFar(if m < 0 then now else Joined(now, c[m], m, s), c, m + 1, s)
  {
    hide Total, Pow, Mul, Lower, Kept, Dropped, BitOr, Joined;
    if m >= 0 {
      RightJoin(now, c, m, s);
      JoinedZeros(now, c[m], m, s);
    }
  }

  lemma JoinedZeros(now: seq<nat>, x: nat, m: nat, s: nat)
    requires m < |now| && s < 32 && forall j :: 0 <= j < |now| && j >= m ==> now[j] == 0
    ensures |Joined(now, x, m, s)| == |now| && forall j :: m < j < |now| ==> Joined(now, x, m, s)[j] == 0
  {
    hide Lower, Kept, BitOr;
  }

  lemma RightJoin(now: seq<nat>, c: seq<nat>, m: nat, s: nat)
    requires m < |now| && m < |c| && s < 32 && Limbed(c) && Limbed(now) && now[m] == 0
    requires m > 0 ==> now[m - 1] == Kept(c[m - 1], s)
    requires m > 0 ==> Mul(Total(now[..m]), Pow(2, s)) + Dropped(c[0], s) == Total(c[..m])
    ensures var j := Joined(now, c[m], m, s);
      && Limbed(j) && |j| == |now| && j[m] == Kept(c[m], s)
      && Mul(Total(j[..m + 1]), Pow(2, s)) + Dropped(c[0], s) == Total(c[..m + 1])
  {
    hide Total, Pow, Mul, Lower, Kept, Dropped, BitOr;
    var x := c[m];
    KeptDropped(x, s);
    KeptLimb(x, s);
    OrZero(Kept(x, s));
    var j := Joined(now, x, m, s);
    if m == 0 {
      RightFirst(c, s);
      assert j[..1] == [] + [Kept(x, s)];
    } else if s == 0 {
      DroppedNone(c[0]);
      RightStepWords(now[..m], c);
      assert j[..m + 1] == now[..m] + [Kept(x, s)];
    } else {
      KeptDropped(c[m - 1], s);
      assert now[..m] == now[..m - 1] + [now[m - 1]];
      RightStep(now[..m - 1], now[m - 1], c, s, Dropped(c[0], s));
      assert j[..m + 1] == now[..m - 1] + [BitOr(now[m - 1], Lower(x, 32 - s))] + [Kept(x, s)];
    }
  }

  lemma KeptLimb(a: nat, s: nat)
    requires a < B
    ensures Kept(a, s) < B
  {
    hide Mul, Pow, Quo;
    PowPositive(2, s);
    QuoNat(a, Pow(2, s));
  }

  lemma DroppedNone(a: nat)
    ensures Dropped(a, 0) == 0
  {
    hide Mul, Pow, Rem;
    PowUnit(2);
    QuoRem(a, Pow(2, 0));
  }

  lemma RightEnd(a0: seq<nat>, now: seq<nat>, k: nat, s: nat)
    requires |a0| == |now| && s < 32 && Limbed(a0)
    requires RightSoFar(now, if k <= |a0| then a0[k..] else [], |a0| - k, s)
    ensures Limbed(now) && Pow(2, 32 * k + s) > 0 && Total(now) == Quo(Total(a0), Pow(2, 32 * k + s))
  {
    hide Total, Pow, Mul, Quo, Kept, Dropped;
    if k < |a0| {
      assert a0[k..][..|a0| - k] == a0[k..];
      KeptDropped(a0[k], s);
      RightDone(a0, now, k, s, Dropped(a0[k], s));
    } else {
      TotalZeros(now);
      RightOut(a0, k, s);
    }
  }

  lemma ComplementStep(x: nat, i: nat)
    requires x < B
    ensures Pow(B, i) + Mul(B - 1 - x, Pow(B, i)) + Mul(x, Pow(B, i)) == Pow(B, i + 1)
  {
    hide Mul;
    MulPlus(Pow(B, i), B - 1 - x, x);
    MulPlus(Pow(B, i), B, 1);
    MulUnit(Pow(B, i));
  }

  /** The carry of an increment goes on while the limbs become zero. */
  lemma IncrementStep(a0: seq<nat>, now: seq<nat>, i: nat)
    requires |a0| == |now| && i < |a0| && a0[i] < B && now[i] == (a0[i] + 1) % B
    requires Total(now[..i]) + Pow(B, i) == Total(a0[..i]) + 1
    ensures Total(now[..i + 1]) + (if now[i] == 0 then Pow(B, i + 1) else 0) == Total(a0[..i + 1]) + 1
  {
    hide Mul, Total;
    TotalStep(a0, i);
    TotalStep(now, i);
    MulUnit(Pow(B, i));
    MulPlus(Pow(B, i), a0[i], 1);
    if a0[i] == B - 1 { MulPlus(Pow(B, i), B, 1); }
  }

  lemma IncrementDone(a0: seq<nat>, now: seq<nat>, i: nat)
    requires |a0| == |now| && i < |a0| && Limbed(now) && now[i + 1..] == a0[i + 1..]
    requires Total(now[..i + 1]) + (if now[i] == 0 then Pow(B, i + 1) else 0) == Total(a0[..i + 1]) + 1
    requires i == |a0| - 1 || now[i] != 0
    ensures Total(now) == Wrap(Total(a0) + 1, |a0|)
  {
    hide Mul, Total, Pow, Wrap;
    TotalSplit(a0, i + 1);
    TotalSplit(now, i + 1);
    TotalBound(now);
    MulUnit(Pow(B, |a0|));
    WrapIs(Total(now), if now[i] == 0 then 1 else 0, Total(a0) + 1, |a0|);
  }

  lemma DecrementStep(a0: seq<nat>, now: seq<nat>, i: nat)
    requires |a0| == |now| && i < |a0| && a0[i] < B && now[i] == (a0[i] + B - 1) % B
    requires Total(now[..i]) + 1 == Total(a0[..i]) + Pow(B, i)
    ensures Total(now[..i + 1]) + 1 == Total(a0[..i + 1]) + (if now[i] == B - 1 then Pow(B, i + 1) else 0)
  {
    hide Mul, Total;
    TotalStep(a0, i);
    TotalStep(now, i);
    MulUnit(Pow(B, i));
    if a0[i] == 0 {
      MulPlus(Pow(B, i), B, 1);
    } else {
      MulPlus(Pow(B, i), a0[i], 1);
    }
  }

  lemma DecrementDone(a0: seq<nat>, now: seq<nat>, i: nat)
    requires |a0| == |now| && i < |a0| && Limbed(now) && now[i + 1..] == a0[i + 1..]
    requires Total(now[..i + 1]) + 1 == Total(a0[..i + 1]) + (if now[i] == B - 1 then Pow(B, i + 1) else 0)
    requires i == |a0| - 1 || now[i] != B - 1
    ensures Total(now) == Wrap(Total(a0) - 1, |a0|)
  {
    hide Mul, Total, Pow, Wrap;
    TotalSplit(a0, i + 1);
    TotalSplit(now, i + 1);
    TotalBound(now);
    MulUnit(Pow(B, |a0|));
    MulPlus(Pow(B, |a0|), 0, 1);
    WrapIs(Total(now), if now[i] == B - 1 then -1 else 0, Total(a0) - 1, |a0|);
  }

  lemma NegateIs(x: nat, width: nat)
    ensures Wrap(Pow(B, width) - 1 - x + 1, width) == Wrap(0 - x, width)
  {
    hide Mul, Pow, Wrap;
    var q := WrapAway(0 - x, width);
    MulPlus(Pow(B, width), q, 1);
    MulUnit(Pow(B, width));
    WrapIs(Wrap(0 - x, width), q + 1, Pow(B, width) - x, width);
  }

  lemma WordProduct(x: nat, y: nat)
    requires x < B && y < B
    ensures 0 <= Mul(x, y) <= (B - 1) * (B - 1)
  {
    hide Mul;
    MulIs(x, y);
    MulMonotone(x, y, B - 1);
    MulMonotone(B - 1, x, B - 1);
    MulMonotone(x, 0, y);
  }

  lemma MulRow(a: seq<nat>, b32: nat, i: nat)
    requires i < |a|
    ensures Mul(Total(a[..i + 1]), b32) == Mul(Total(a[..i]), b32) + Mul(Mul(b32, a[i]), Pow(B, i))
  {
    hide Mul, Total, Pow;
    TotalStep(a, i);
    MulPlus(b32, Total(a[..i]), Mul(a[i], Pow(B, i)));
    MulSwap(b32, Mul(a[i], Pow(B, i)));
    MulMul(b32, a[i], Pow(B, i));
  }

  /** The highest limb that differs decides. */
  lemma HigherLimb(a: seq<nat>, b: seq<nat>, i: nat)
    requires |a| == |b| && Limbed(a) && Limbed(b) && i < |a| && a[i + 1..] == b[i + 1..] && a[i] < b[i]
    ensures Total(a) < Total(b)
  {
    hide Mul, Total, Pow;
    TotalSplit(a, i + 1);
    TotalSplit(b, i + 1);
    TotalStep(a, i);
    TotalStep(b, i);
    TotalBound(a[..i]);
    MulGrows(Pow(B, i), a[i] + 1, b[i]);
    MulPlus(Pow(B, i), a[i], 1);
    MulUnit(Pow(B, i));
  }
}
