/** Compression of amounts (src/compressor.cpp). */
module Amounts {
  import opened Numbers

  /** The larger of the two networks' limits on amounts (src/chainparams.cpp). */
  const MAX_MONEY := 43_199_500 * 100_000_000

  /** A number without its last zeros, of which at most nine are taken off. */
  function Stripped(n: nat): nat { Strip(n, 0).0 }

  function Zeros(n: nat): nat { Strip(n, 0).1 }

  function Strip(n: nat, e: nat): (nat, nat)
    decreases 9 - e
  {
    if n % 10 == 0 && e < 9 then Strip(n / 10, e + 1) else (n, e)
  }

  function Packed(m: nat, e: nat): nat
    requires m > 0
  {
    if e < 9 then 1 + (m / 10 * 9 + (if m % 10 == 0 then 0 else m % 10 - 1)) * 10 + e else 1 + (m - 1) * 10 + 9
  }

  function Compressed(n: nat): nat {
    if n == 0 then 0 else StripPositive(n, 0); Packed(Stripped(n), Zeros(n))
  }

  /** The number and the zeros that a compressed amount stands for. */
  function Digits(x: nat): nat
    requires x > 0
  {
    if (x - 1) % 10 < 9 then (x - 1) / 10 / 9 * 10 + (x - 1) / 10 % 9 + 1 else (x - 1) / 10 + 1
  }

  function Decompressed(x: nat): nat {
    if x == 0 then 0 else MulNat(Digits(x), Pow(10, (x - 1) % 10)); Mul(Digits(x), Pow(10, (x - 1) % 10))
  }

  // --------------------------------------------------------------- stripping

  lemma {:induction false} StripPositive(n: nat, e: nat)
    requires n > 0 && e <= 9
    ensures Strip(n, e).0 > 0
    decreases 9 - e
  {
    if n % 10 == 0 && e < 9 { StripPositive(n / 10, e + 1); }
  }

  /** A number is what stripping leaves, times the power of ten taken off; only nine zeros leave another. */
  lemma {:induction false} StripIs(n: nat, e: nat)
    requires n > 0 && e <= 9
    ensures var (m, f) := Strip(n, e);
      e <= f <= 9 && n == Mul(m, Pow(10, f - e)) && (f < 9 ==> m % 10 != 0)
    decreases 9 - e
  {
    hide Mul;
    if n % 10 == 0 && e < 9 {
      StripIs(n / 10, e + 1);
      var (m, f) := Strip(n, e);
      PowAdd(10, f - e - 1, 1);
      PowUnit(10);
      MulMul(m, Pow(10, f - e - 1), 10);
      MulIs(n / 10, 10);
    } else {
      PowUnit(10);
      MulUnit(n);
    }
  }

  /** Stripping finds a number that was not to be stripped any further. */
  lemma {:induction false} StripPower(m: nat, k: nat, e: nat)
    requires m > 0 && e + k <= 9 && (e + k < 9 ==> m % 10 != 0)
    ensures Mul(m, Pow(10, k)) >= 0 && Strip(Mul(m, Pow(10, k)), e) == (m, e + k)
    decreases k
  {
    hide Mul, Pow, Strip;
    if k == 0 {
      PowUnit(10);
      MulUnit(m);
      StripNone(m, e);
    } else {
      TenTimes(m, k);
      StripOne(Mul(m, Pow(10, k)), e);
      StripPower(m, k - 1, e + 1);
    }
  }

  lemma TenTimes(m: nat, k: nat)
    requires k > 0
    ensures Mul(m, Pow(10, k - 1)) >= 0 && Mul(m, Pow(10, k)) >= 0
    ensures Mul(m, Pow(10, k)) % 10 == 0 && Mul(m, Pow(10, k)) / 10 == Mul(m, Pow(10, k - 1))
  {
    hide Mul, Pow;
    PowAdd(10, k - 1, 1);
    PowUnit(10);
    MulMul(m, Pow(10, k - 1), 10);
    MulNat(m, Pow(10, k - 1));
    MulIs(Mul(m, Pow(10, k - 1)), 10);
  }

  lemma StripOne(n: nat, e: nat)
    requires n % 10 == 0 && e < 9
    ensures Strip(n, e) == Strip(n / 10, e + 1)
  {
  }

  lemma StripNone(n: nat, e: nat)
    requires n % 10 != 0 || e >= 9
    ensures Strip(n, e) == (n, e)
  {
  }

  // -------------------------------------------------------------- round trips

  lemma PackedParts(m: nat, e: nat)
    requires m > 0 && e <= 9 && (e < 9 ==> m % 10 != 0)
    ensures Packed(m, e) > 0 && (Packed(m, e) - 1) % 10 == e && Digits(Packed(m, e)) == m
  {
    if e < 9 {
      var q, d := m / 10, m % 10;
      ByTen(9 * q + d - 1, e);
      ByNine(q, d - 1);
    } else {
      ByTen(m - 1, 9);
    }
  }

  lemma ByTen(y: nat, e: nat)
    requires e < 10
    ensures (10 * y + e) / 10 == y && (10 * y + e) % 10 == e
  {
  }

  lemma ByNine(q: nat, r: nat)
    requires r < 9
    ensures (9 * q + r) / 9 == q && (9 * q + r) % 9 == r
  {
  }

  lemma DigitsPacked(x: nat)
    requires x > 0
    ensures var e := (x - 1) % 10;
      Digits(x) > 0 && (e < 9 ==> Digits(x) % 10 != 0) && Packed(Digits(x), e) == x
  {
    var y, e := (x - 1) / 10, (x - 1) % 10;
    if e < 9 { ByTen(y / 9, y % 9 + 1); }
  }

  /** Decompressing gives back the amount that was compressed. */
  lemma DecompressCompress(n: nat)
    ensures Decompressed(Compressed(n)) == n
  {
    hide Mul, Pow, Strip, Packed, Digits;
    if n > 0 {
      StripPositive(n, 0);
      StripIs(n, 0);
      PackedParts(Stripped(n), Zeros(n));
    }
  }

  /** Every number is the compression of the amount it decompresses to. */
  lemma CompressDecompress(x: nat)
    ensures Compressed(Decompressed(x)) == x
  {
    hide Mul, Pow, Strip, Packed, Digits;
    if x > 0 {
      DigitsPacked(x);
      var m, e := Digits(x), (x - 1) % 10;
      StripPower(m, e, 0);
      PowPositive(10, e);
      MulGrows(Pow(10, e), 1, m);
      MulUnit(Pow(10, e));
    }
  }

  /** Compression grows an amount ninefold at most, so that no amount of money overflows. */
  lemma CompressedBound(n: nat)
    ensures Compressed(n) <= 9 * n
    ensures n <= MAX_MONEY ==> Compressed(n) < 0x1_0000_0000_0000_0000
  {
    hide Mul, Pow, Strip;
    if n > 0 {
      StripPositive(n, 0);
      StripIs(n, 0);
      PackedBound(Stripped(n), Zeros(n), n);
    }
  }

  lemma PackedBound(m: nat, e: nat, n: nat)
    requires m > 0 && e <= 9 && n == Mul(m, Pow(10, e)) && (e < 9 ==> m % 10 != 0)
    ensures Packed(m, e) <= 9 * n
  {
    hide Mul, Pow, Packed;
    PackedLinear(m, e);
    PowUnit(10);
    MulUnit(m);
    if e > 0 {
      PowGrows(10, 1, e);
      MulGrows(m, 10, Pow(10, e));
      MulIs(m, 10);
    }
  }

  lemma PackedLinear(m: nat, e: nat)
    requires m > 0 && e <= 9 && (e < 9 ==> m % 10 != 0)
    ensures Packed(m, e) <= 10 * m + 8 && (e == 0 ==> Packed(m, e) <= 9 * m)
  {
  }

  /** The compressed form by the parts of an amount: its zeros, up to nine, its last digit before them, and the rest. */
  lemma CompressedIs(n: nat, d: nat, e: nat)
    requires if e < 9 then 1 <= d <= 9 else e == 9 && d == 0 && n > 0
    ensures if e < 9 then
        Mul(10 * n + d, Pow(10, e)) >= 0 && Compressed(Mul(10 * n + d, Pow(10, e))) == 1 + 10 * (9 * n + d - 1) + e
      else
        Mul(n, Pow(10, 9)) >= 0 && Compressed(Mul(n, Pow(10, 9))) == 1 + 10 * (n - 1) + 9
  {
    hide Mul, Pow, Strip;
    var m := if e < 9 then 10 * n + d else n;
    StripPower(m, e, 0);
    PowPositive(10, e);
    MulGrows(Pow(10, e), 1, m);
    MulUnit(Pow(10, e));
    MulSwap(m, Pow(10, e));
  }

  /** Round amounts are short: a cent is 7, a coin 9, fifty coins 50, and all coins of old times 21 million. */
  lemma KnownAmounts()
    ensures Compressed(0) == 0 && Compressed(1) == 1
    ensures Compressed(1_000_000) == 7 && Compressed(100_000_000) == 9
    ensures Compressed(5_000_000_000) == 50 && Compressed(2_100_000_000_000_000) == 21_000_000
  {
  }

  // ------------------------------------------------------------- in 64 bits

  const WORD := 0x1_0000_0000_0000_0000

  /** What CompressAmount returns for a signed amount. */
  function Squeezed(v: int): nat {
    Compressed(v % WORD) % WORD
  }

  /** The signed amount that DecompressAmount gives. */
  function Expanded(x: nat): int {
    Signed(Decompressed(x) % WORD)
  }

  function Signed(n: nat): int {
    if n < WORD / 2 then n else n - WORD
  }

  /** Signed amounts whose compressed form does not overflow. */
  predicate InWord(v: int) {
    -WORD / 2 <= v < WORD / 2 && Compressed(v % WORD) < WORD
  }

  /** Every such amount comes back. */
  lemma ComesBack(v: int)
    requires InWord(v)
    ensures Expanded(Squeezed(v)) == v
  {
    hide Compressed, Decompressed;
    DecompressCompress(v % WORD);
  }

  /** All money is among them. */
  lemma MoneyComesBack(v: int)
    requires 0 <= v <= MAX_MONEY
    ensures InWord(v) && Expanded(Squeezed(v)) == v
  {
    hide Compressed, Decompressed;
    CompressedBound(v);
    ComesBack(v);
  }

  lemma ModTen(a: nat)
    ensures (a % WORD * 10) % WORD == (a * 10) % WORD
  {
    var q := a / WORD;
    assert a * 10 == WORD * (10 * q) + a % WORD * 10;
    ModWhole(a % WORD * 10, 10 * q);
  }

  lemma ModWhole(x: nat, k: nat)
    ensures (WORD * k + x) % WORD == x % WORD
  {
  }

  // ------------------------------------------------------------------- methods

  /** CompressAmount, in 64-bit arithmetic. */
  method Compress(v: int) returns (x: nat)
    ensures x == Squeezed(v)
  {
    var n := v % WORD;
    ghost var n0 := n;
    if n == 0 { return 0; }
    var e := 0;
    while n % 10 == 0 && e < 9
      invariant n > 0 && 0 <= e <= 9 && Strip(n, e) == Strip(n0, 0)
    {
      n := n / 10;
      e := e + 1;
    }
    if e < 9 {
      var d := n % 10;
      assert 1 <= d <= 9;
      n := n / 10;
      x := (1 + (n * 9 + d - 1) * 10 + e) % WORD;
    } else {
      x := (1 + (n - 1) * 10 + 9) % WORD;
    }
  }

  /** DecompressAmount, in 64-bit arithmetic. */
  method Decompress(x0: nat) returns (v: int)
    ensures v == Expanded(x0)
  {
    hide Mul, Pow;
    if x0 == 0 { return 0; }
    var n := DecompressDigits(x0);
    var e := (x0 - 1) % 10;
    ghost var f := e;
    ghost var all: nat := Digits(x0);
    PowUnit(10);
    MulUnit(all);
    while e != 0
      invariant 0 <= e <= f && all == Mul(Digits(x0), Pow(10, f - e)) && n == all % WORD
    {
      PowAdd(10, f - e, 1);
      MulMul(Digits(x0), Pow(10, f - e), 10);
      MulIs(all, 10);
      ModTen(all);
      all := all * 10;
      n := n * 10 % WORD;
      e := e - 1;
    }
    v := Signed(n);
  }

  method DecompressDigits(x0: nat) returns (n: nat)
    requires x0 > 0
    ensures n == Digits(x0) % WORD
  {
    var x := x0 - 1;
    var e := x % 10;
    x := x / 10;
    if e < 9 {
      var d := x % 9 + 1;
      x := x / 9;
      n := (x * 10 + d) % WORD;
    } else {
      n := (x + 1) % WORD;
    }
  }
}
