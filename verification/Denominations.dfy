/** Amounts made of coins whose denominations divide one another
    (src/libzerocoin/Denominations.h, src/libzerocoin/Denominations.cpp). A
    holding is a count for each denomination, smallest first; a denomination is
    its index, and -1 stands for ZQ_ERROR. */
module Denominations {
  import opened Numbers

  type Counts = seq<nat>

  const COIN := 100_000_000

  /** zerocoinDenomList, as amounts. */
  const ZEROCOIN: seq<nat> :=
    [COIN, 5 * COIN, 10 * COIN, 50 * COIN, 100 * COIN, 500 * COIN, 1000 * COIN, 5000 * COIN]

  predicate Divides(a: int, x: int) {
    a > 0 && Rem(x, a) == 0
  }

  /** Ascending positive amounts, each dividing the next. */
  ghost predicate Chain(d: seq<nat>) {
    |d| > 0 && d[0] > 0 && forall i :: 0 < i < |d| ==> d[i - 1] < d[i] && Divides(d[i - 1], d[i])
  }

  lemma ZerocoinChain()
    ensures Chain(ZEROCOIN)
  {
    hide Quo, Rem;
    forall i | 0 < i < |ZEROCOIN| ensures ZEROCOIN[i - 1] < ZEROCOIN[i] && Divides(ZEROCOIN[i - 1], ZEROCOIN[i]) {
      if i == 1 {} else if i == 2 {} else if i == 3 {} else if i == 4 {} else if i == 5 {} else if i == 6 {} else {}
      QuoIs(ZEROCOIN[i], ZEROCOIN[i - 1]);
    }
  }

  /** What n coins of one amount are worth. */
  function Worth(amount: nat, n: nat): nat {
    MulNat(amount, n);
    Mul(amount, n)
  }

  function Value(d: seq<nat>, u: Counts): nat
    requires |u| <= |d|
  {
    if u == [] then 0 else Value(d, u[..|u| - 1]) + Worth(d[|u| - 1], u[|u| - 1])
  }

  function Count(u: Counts): nat {
    if u == [] then 0 else Count(u[..|u| - 1]) + u[|u| - 1]
  }

  predicate AtMost(u: Counts, v: Counts) {
    |u| == |v| && forall i :: 0 <= i < |u| ==> u[i] <= v[i]
  }

  function Zeros(n: nat): Counts {
    seq(n, _ => 0)
  }

  function Minus(u: Counts, v: Counts): Counts
    requires AtMost(v, u)
  {
    seq(|u|, i requires 0 <= i < |u| => u[i] - v[i])
  }

  // ------------------------------------------------------------- arithmetic

  lemma WorthAdd(a: nat, m: nat, n: nat)
    ensures Worth(a, m + n) == Worth(a, m) + Worth(a, n)
  {
    hide Mul;
    MulPlus(a, m, n);
  }

  lemma WorthMonotone(a: nat, m: nat, n: nat)
    requires m <= n
    ensures Worth(a, m) <= Worth(a, n)
  {
    hide Mul;
    MulGrows(a, m, n);
  }

  lemma WorthLess(a: nat, m: nat, n: nat)
    requires a > 0 && Worth(a, m) <= Worth(a, n)
    ensures m <= n
  {
    hide Mul;
    MulUnit(a);
    MulPlus(a, m, n);
    MulSmall(a, m - n);
  }

  lemma WorthUnit(a: nat)
    ensures Worth(a, 0) == 0 && Worth(a, 1) == a
  {
    hide Mul;
    MulUnit(a);
  }

  lemma Quotient(a: nat, t: nat) returns (q: nat)
    requires Divides(a, t)
    ensures t == Worth(a, q)
  {
    hide Mul, Quo, Rem;
    QuoNat(t, a);
    QuoRem(t, a);
    q := Quo(t, a);
    MulSwap(q, a);
  }

  lemma DividesWorth(a: nat, b: nat, n: nat)
    requires Divides(a, b)
    ensures Divides(a, Worth(b, n))
  {
    hide Mul, Quo, Rem;
    var q := Quotient(a, b);
    MulMul(a, q, n);
    MulSwap(a, Mul(q, n));
    QuoRemUnique(Worth(b, n), a, Mul(q, n), 0);
  }

  lemma DividesSum(a: nat, x: int, y: int)
    requires Divides(a, x) && Divides(a, y)
    ensures Divides(a, x + y) && Divides(a, x - y)
  {
    hide Mul, Quo, Rem;
    QuoRem(x, a);
    QuoRem(y, a);
    var p, q := Quo(x, a), Quo(y, a);
    MulPlus(a, p, q);
    QuoRemUnique(x + y, a, p + q, 0);
    QuoRemUnique(x - y, a, p - q, 0);
  }

  lemma DividesTrans(a: nat, b: nat, x: nat)
    requires Divides(a, b) && Divides(b, x)
    ensures Divides(a, x)
  {
    hide Worth, Divides;
    var q := Quotient(b, x);
    DividesWorth(a, b, q);
  }

  lemma DividesSelf(a: nat)
    requires a > 0
    ensures Divides(a, a) && Divides(a, 0)
  {
    hide Mul, Quo, Rem;
    MulUnit(a);
    QuoRemUnique(a, a, 1, 0);
    QuoRemUnique(0, a, 0, 0);
  }

  // ----------------------------------------------------------- about values

  lemma {:induction false} ChainPositive(d: seq<nat>, i: nat)
    requires Chain(d) && i < |d|
    ensures d[i] > 0
  {
    if i > 0 { ChainPositive(d, i - 1); }
  }

  lemma {:induction false} ChainAscends(d: seq<nat>, i: nat, j: nat)
    requires Chain(d) && i <= j < |d|
    ensures d[i] <= d[j] && (i < j ==> d[i] < d[j])
  {
    if i < j { ChainAscends(d, i, j - 1); }
  }

  lemma {:induction false} DividesAll(d: seq<nat>, i: nat, j: nat)
    requires Chain(d) && i <= j < |d|
    ensures Divides(d[i], d[j])
  {
    hide Divides;
    ChainPositive(d, i);
    if i < j {
      DividesAll(d, i, j - 1);
      DividesTrans(d[i], d[j - 1], d[j]);
    } else {
      DividesSelf(d[i]);
    }
  }

  /** Every value is a multiple of the smallest denomination. */
  lemma {:induction false} ValueMultiple(d: seq<nat>, u: Counts)
    requires Chain(d) && |u| <= |d|
    ensures Divides(d[0], Value(d, u))
  {
    hide Divides, Worth;
    if u == [] {
      DividesSelf(d[0]);
    } else {
      var k := |u| - 1;
      ValueMultiple(d, u[..k]);
      DividesAll(d, 0, k);
      DividesWorth(d[0], d[k], u[k]);
      DividesSum(d[0], Value(d, u[..k]), Worth(d[k], u[k]));
    }
  }

  lemma {:induction false} ValueMinus(d: seq<nat>, u: Counts, v: Counts)
    requires |u| <= |d| && AtMost(v, u)
    ensures Value(d, Minus(u, v)) == Value(d, u) - Value(d, v)
    ensures Count(Minus(u, v)) == Count(u) - Count(v)
  {
    hide Worth;
    if u != [] {
      var k := |u| - 1;
      ValueMinus(d, u[..k], v[..k]);
      assert Minus(u, v)[..k] == Minus(u[..k], v[..k]);
      WorthAdd(d[k], u[k] - v[k], v[k]);
    }
  }

  lemma {:induction false} ValueMonotone(d: seq<nat>, u: Counts, v: Counts)
    requires |u| <= |d| && AtMost(u, v)
    ensures Value(d, u) <= Value(d, v)
  {
    hide Worth;
    if u != [] {
      var k := |u| - 1;
      ValueMonotone(d, u[..k], v[..k]);
      WorthMonotone(d[k], u[k], v[k]);
    }
  }

  /** Coins of at most an amount: it takes so many of them to reach a value. */
  lemma {:induction false} CountBound(d: seq<nat>, u: Counts, v: nat)
    requires |u| <= |d| && forall i :: 0 <= i < |u| ==> d[i] <= v
    ensures Value(d, u) <= Worth(v, Count(u))
  {
    hide Worth;
    if u == [] {
      WorthUnit(v);
    } else {
      var k := |u| - 1;
      CountBound(d, u[..k], v);
      WorthAdd(v, Count(u[..k]), u[k]);
      assert Worth(d[k], u[k]) <= Worth(v, u[k]) by { LargerAmount(d[k], v, u[k]); }
    }
  }

  lemma LargerAmount(a: nat, b: nat, n: nat)
    requires a <= b
    ensures Worth(a, n) <= Worth(b, n)
  {
    hide Mul;
    MulGrows(n, a, b);
  }

  lemma {:induction false} ValueZeros(d: seq<nat>, n: nat)
    requires n <= |d|
    ensures Value(d, Zeros(n)) == 0 && Count(Zeros(n)) == 0
  {
    hide Worth;
    if n > 0 {
      WorthUnit(d[n - 1]);
      ValueZeros(d, n - 1);
      assert Zeros(n)[..n - 1] == Zeros(n - 1);
    }
  }

  lemma ValueAppend(d: seq<nat>, u: Counts, n: nat)
    requires |u| < |d|
    ensures Value(d, u + [n]) == Value(d, u) + Worth(d[|u|], n) && Count(u + [n]) == Count(u) + n
  {
    assert (u + [n])[..|u|] == u;
  }

  lemma {:induction false} ValueUpdate(d: seq<nat>, u: Counts, i: nat, n: nat)
    requires i < |u| <= |d|
    ensures Value(d, u[i := n]) == Value(d, u) - Worth(d[i], u[i]) + Worth(d[i], n)
    ensures Count(u[i := n]) == Count(u) - u[i] + n
  {
    hide Worth;
    var k := |u| - 1;
    if i < k {
      ValueUpdate(d, u[..k], i, n);
      assert u[i := n][..k] == u[..k][i := n];
    } else {
      assert u[i := n][..k] == u[..k];
    }
  }

  // ------------------------------------------------------------------ greedy

  /** How many coins of one denomination the greedy selection takes. */
  function Take(held: nat, rest: int, v: nat): nat
    requires v > 0
  {
    if rest < v then 0 else QuoNat(rest, v); Min(held, Quo(rest, v))
  }

  lemma TakeBounds(held: nat, rest: int, v: nat)
    requires v > 0
    ensures Take(held, rest, v) <= held
    ensures rest >= 0 ==> Worth(v, Take(held, rest, v)) <= rest
    ensures rest < 0 ==> Take(held, rest, v) == 0
  {
    hide Mul, Quo, Rem;
    MulUnit(v);
    if rest >= v {
      QuoRem(rest, v);
      MulSwap(Quo(rest, v), v);
      MulGrows(v, Take(held, rest, v), Quo(rest, v));
    }
  }

  /** Greedy takes at least as many coins as anyone can. */
  lemma TakeMost(held: nat, rest: int, v: nat, n: nat)
    requires v > 0 && n <= held && Worth(v, n) <= rest
    ensures n <= Take(held, rest, v)
  {
    hide Worth, Quo;
    if rest >= v {
      AtMostQuotient(v, n, rest);
    } else {
      WorthUnit(v);
      if n > 0 { WorthMonotone(v, 1, n); }
    }
  }

  lemma AtMostQuotient(v: nat, n: nat, rest: nat)
    requires v > 0 && Worth(v, n) <= rest
    ensures n <= Quo(rest, v)
  {
    hide Mul, Quo, Rem;
    QuoRem(rest, v);
    var q := Quo(rest, v);
    MulSwap(q, v);
    MulPlus(v, n, q);
    MulUnit(v);
    MulSmall(v, n - q);
  }

  /** Greedy selection among the first k denominations, from the highest down. */
  function Greedy(d: seq<nat>, held: Counts, k: nat, target: int): (u: Counts)
    requires Chain(d) && k <= |d| == |held|
    ensures |u| == k
  {
    if k == 0 then []
    else
      ChainPositive(d, k - 1);
      var n := Take(held[k - 1], target, d[k - 1]);
      Greedy(d, held, k - 1, target - Worth(d[k - 1], n)) + [n]
  }

  /** The greedy selection stays within what is held and does not exceed the target. */
  lemma {:induction false} GreedyBounds(d: seq<nat>, held: Counts, k: nat, target: int)
    requires Chain(d) && k <= |d| == |held|
    ensures AtMost(Greedy(d, held, k, target), held[..k])
    ensures Value(d, Greedy(d, held, k, target)) <= if target < 0 then 0 else target
  {
    hide Chain, Worth, Take, AtMost, Greedy, Value, Count;
    GreedyUnfold(d, held, k, target);
    if k == 0 {
      EmptyAtMost(held);
      ValueZeros(d, 0);
      assert Zeros(0) == [];
    } else {
      GreedyStep(d, held, k, target);
      var n := Take(held[k - 1], target, d[k - 1]);
      var rest := target - Worth(d[k - 1], n);
      GreedyBounds(d, held, k - 1, rest);
      AppendAtMost(Greedy(d, held, k - 1, rest), held, n);
      ValueAppend(d, Greedy(d, held, k - 1, rest), n);
    }
  }

  lemma GreedyUnfold(d: seq<nat>, held: Counts, k: nat, target: int)
    requires Chain(d) && k <= |d| == |held|
    ensures k == 0 ==> Greedy(d, held, k, target) == []
    ensures k > 0 ==> d[k - 1] > 0
    ensures k > 0 ==> var n := Take(held[k - 1], target, d[k - 1]);
      Greedy(d, held, k, target) == Greedy(d, held, k - 1, target - Worth(d[k - 1], n)) + [n]
  {
    hide Chain, Worth, Take;
    if k > 0 { ChainPositive(d, k - 1); }
  }

  lemma EmptyAtMost(held: Counts)
    ensures AtMost([], held[..0])
  {
  }

  lemma AppendAtMost(u: Counts, held: Counts, n: nat)
    requires |u| < |held| && AtMost(u, held[..|u|]) && n <= held[|u|]
    ensures AtMost(u + [n], held[..|u| + 1])
  {
  }

  lemma GreedyStep(d: seq<nat>, held: Counts, k: nat, target: int)
    requires Chain(d) && 0 < k <= |d| == |held|
    ensures d[k - 1] > 0
    ensures var n := Take(held[k - 1], target, d[k - 1]);
      && n <= held[k - 1]
      && (target < 0 ==> Worth(d[k - 1], n) == 0)
      && (target >= 0 ==> Worth(d[k - 1], n) <= target)
  {
    hide Worth, Take;
    ChainPositive(d, k - 1);
    TakeBounds(held[k - 1], target, d[k - 1]);
    WorthUnit(d[k - 1]);
  }

  /** Coins worth at least a multiple of every denomination among them contain coins worth exactly that. */
  lemma {:induction false} ExactPart(d: seq<nat>, u: Counts, t: nat) returns (v: Counts)
    requires Chain(d) && 0 < |u| <= |d| && Divides(d[|u| - 1], t) && Value(d, u) >= t
    ensures AtMost(v, u) && Value(d, v) == t
    decreases |u|
  {
    hide Worth, Divides;
    var k := |u| - 1;
    ChainPositive(d, k);
    var want := Quotient(d[k], t);
    if want <= u[k] {
      ValueZeros(d, k);
      v := Zeros(k) + [want];
      ValueAppend(d, Zeros(k), want);
    } else {
      WorthMonotone(d[k], u[k], want);
      var rest := t - Worth(d[k], u[k]);
      if k == 0 {
        v := u;
      } else {
        DividesSelf(d[k]);
        DividesWorth(d[k], d[k], u[k]);
        DividesSum(d[k], t, Worth(d[k], u[k]));
        DividesTrans(d[k - 1], d[k], rest);
        var w := ExactPart(d, u[..k], rest);
        v := w + [u[k]];
        ValueAppend(d, w, u[k]);
      }
    }
  }

  /** The exchange step: any exact selection can be changed to take as many of the highest denomination as greedy does,
      with no more coins. */
  lemma Exchange(d: seq<nat>, held: Counts, u: Counts, t: nat) returns (w: Counts)
    requires Chain(d) && |d| == |held| && 0 < |u| <= |d| && AtMost(u, held[..|u|]) && Value(d, u) == t
    ensures d[|u| - 1] > 0
    ensures var g := Take(held[|u| - 1], t, d[|u| - 1]);
      && AtMost(w, held[..|u| - 1]) && Value(d, w) == t - Worth(d[|u| - 1], g) && Count(w) + g <= Count(u)
  {
    hide Worth, Divides, Take;
    var k := |u| - 1;
    ChainPositive(d, k);
    var a := d[k];
    assert u[k] <= held[k];
    TakeMost(held[k], t, a, u[k]);
    TakeBounds(held[k], t, a);
    var g := Take(held[k], t, a);
    var low, extra := u[..k], g - u[k];
    WorthAdd(a, u[k], extra);
    if extra == 0 {
      w := low;
      WorthUnit(a);
    } else {
      w := LowerPart(d, low, extra);
      forall i | 0 <= i < |w| ensures w[i] <= held[i] { assert u[i] <= held[i]; }
    }
  }

  /** Coins below a denomination that are worth so many of it can be traded for them, without gaining coins. */
  lemma LowerPart(d: seq<nat>, low: Counts, extra: nat) returns (w: Counts)
    requires Chain(d) && |low| < |d| && extra > 0 && Value(d, low) >= Worth(d[|low|], extra)
    ensures AtMost(w, low) && Value(d, w) == Value(d, low) - Worth(d[|low|], extra) && Count(w) + extra <= Count(low)
  {
    hide Worth, Divides;
    var k := |low|;
    var a := d[k];
    ChainPositive(d, k);
    WorthMonotone(a, 1, extra);
    WorthUnit(a);
    DividesWorth(d[k - 1], a, extra);
    var v := ExactPart(d, low, Worth(a, extra));
    w := Minus(low, v);
    ValueMinus(d, low, v);
    forall i | 0 <= i < |v| ensures d[i] <= a { ChainAscends(d, i, k); }
    CountBound(d, v, a);
    WorthLess(a, extra, Count(v));
  }

  /** Whatever can be met exactly from what is held, greedy meets exactly, and with the fewest coins. */
  lemma {:induction false} GreedyIsBest(d: seq<nat>, held: Counts, u: Counts, t: nat)
    requires Chain(d) && |d| == |held| && |u| <= |d| && AtMost(u, held[..|u|]) && Value(d, u) == t
    ensures Value(d, Greedy(d, held, |u|, t)) == t && Count(Greedy(d, held, |u|, t)) <= Count(u)
    decreases |u|
  {
    hide Worth, Divides, Take, Chain;
    var k := |u|;
    if k > 0 {
      var w := Exchange(d, held, u, t);
      var g := Take(held[k - 1], t, d[k - 1]);
      GreedyIsBest(d, held, w, t - Worth(d[k - 1], g));
      ValueAppend(d, Greedy(d, held, k - 1, t - Worth(d[k - 1], g)), g);
    }
  }
}
