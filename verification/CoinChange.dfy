/** What the passes of minimizeChange and calculateChange compute
    (src/denomination_functions.cpp). */
module CoinChange {
  import opened Numbers
  import opened Denominations

  function Full(k: nat, n: nat): Counts {
    seq(k, _ => n)
  }

  /** getChange: the greedy selection when there is no limit on the coins. */
  function Change(d: seq<nat>, amount: int): Counts
    requires Chain(d)
  {
    Greedy(d, Full(|d|, if amount < 0 then 0 else amount), |d|, amount)
  }

  /** How many coins of one denomination calculateChange uses on its own: up to the first that reaches the amount. */
  function Fill(held: nat, rest: int, v: nat): nat
    requires v > 0
  {
    if rest <= 0 then 0 else Take(held, rest + v - 1, v)
  }

  /** calculateChange's own pass over the first k denominations. */
  function Own(d: seq<nat>, held: Counts, k: nat, target: int): (u: Counts)
    requires Chain(d) && k <= |d| == |held|
    ensures |u| == k
  {
    if k == 0 then []
    else
      ChainPositive(d, k - 1);
      var n := Fill(held[k - 1], target, d[k - 1]);
      Own(d, held, k - 1, target - Worth(d[k - 1], n)) + [n]
  }

  /** minimizeChange's first pass: the greedy selection that stays below the target, in the first k denominations. */
  function Below(d: seq<nat>, held: Counts, k: nat, target: int): (u: Counts)
    requires Chain(d) && k <= |d| == |held|
    ensures |u| == |d|
  {
    Greedy(d, held, k, target - 1) + Zeros(|d| - k)
  }

  /** A coin that is left after the first pass and is worth more than what remains. */
  predicate TopsUp(d: seq<nat>, held: Counts, used: Counts, target: int, i: nat)
    requires |d| == |held| == |used|
  {
    i < |d| && used[i] < held[i] && d[i] > target - Value(d, used)
  }

  /** minimizeChange's second pass, from one denomination on: one coin worth more than what remains, the smallest there
      is. */
  function Topped(d: seq<nat>, held: Counts, used: Counts, target: int, i: nat): (u: Counts)
    requires |d| == |held| == |used| && i <= |d|
    ensures |u| == |d|
    decreases |d| - i
  {
    if i == |d| then used
    else if TopsUp(d, held, used, target, i) then used[i := used[i] + 1]
    else if target - Value(d, used) < 0 then used
    else Topped(d, held, used, target, i + 1)
  }

  /** Its third pass: the coins spent without those that would come back as change. */
  function Freed(used: Counts, change: Counts): (u: Counts)
    requires |used| == |change|
    ensures |u| == |used|
  {
    seq(|used|, i requires 0 <= i < |used| => if used[i] < change[i] then 0 else used[i] - change[i])
  }

  /** The amount that the three passes come to. */
  function AltAmount(d: seq<nat>, held: Counts, k: nat, target: int): nat
    requires Chain(d) && k <= |d| == |held|
  {
    var topped := Topped(d, held, Below(d, held, k, target), target, 0);
    Value(d, Freed(topped, Change(d, Value(d, topped) - target)))
  }

  /** The coins that meet it. */
  function Alternative(d: seq<nat>, held: Counts, k: nat, target: int): (u: Counts)
    requires Chain(d) && k <= |d| == |held|
    ensures |u| == |d|
  {
    Greedy(d, held, |d|, AltAmount(d, held, k, target))
  }

  function AltChange(d: seq<nat>, held: Counts, k: nat, target: int): nat
    requires Chain(d) && k <= |d| == |held|
  {
    Count(Change(d, AltAmount(d, held, k, target) - target))
  }

  /** minimizeChange's choice. */
  predicate Prefers(d: seq<nat>, max: int, held: Counts, k: nat, target: int, change: nat)
    requires Chain(d) && k <= |d| == |held|
  {
    AltChange(d, held, k, target) < change && Count(Alternative(d, held, k, target)) <= max
  }

  /** The denominations up to the highest one held below a limit. */
  function HeldBelow(held: Counts, limit: nat): (k: nat)
    requires limit <= |held|
    ensures k <= limit
  {
    if limit == 0 || held[limit - 1] != 0 then limit else HeldBelow(held, limit - 1)
  }

  ghost predicate CanTopUp(d: seq<nat>, held: Counts, k: nat, target: int)
    requires Chain(d) && k <= |d| == |held|
  {
    exists i :: TopsUp(d, held, Below(d, held, k, target), target, i)
  }

  // ------------------------------------------------------------ single takes

  /** A loop that takes coins while it can has taken exactly Take. */
  lemma TakeUnique(held: nat, rest: int, v: nat, n: nat)
    requires v > 0 && n <= held && (n == 0 || Worth(v, n) <= rest)
    requires n == held || rest - Worth(v, n) < v
    ensures n == Take(held, rest, v)
  {
    hide Worth;
    WorthUnit(v);
    if Worth(v, n) <= rest {
      TakeMost(held, rest, v, n);
      TakeBounds(held, rest, v);
      if n < held { TakeNoMore(held, rest, v, n); }
    }
  }

  lemma TakeNoMore(held: nat, rest: nat, v: nat, n: nat)
    requires v > 0 && Worth(v, n) <= rest && rest - Worth(v, n) < v
    ensures Take(held, rest, v) <= n
  {
    hide Take, Worth;
    TakeBounds(held, rest, v);
    var m := Take(held, rest, v);
    WorthAdd(v, n, 1);
    WorthUnit(v);
    if m > n { WorthMonotone(v, n + 1, m); }
  }

  lemma FillUnique(held: nat, rest: int, v: nat, n: nat)
    requires v > 0 && n <= held && (n == 0 || Worth(v, n) < rest + v)
    requires n == held || rest - Worth(v, n) <= 0
    ensures n == Fill(held, rest, v)
  {
    hide Worth, Take;
    WorthUnit(v);
    if rest <= 0 {
      if n > 0 { WorthMonotone(v, 1, n); }
    } else {
      TakeUnique(held, rest + v - 1, v, n);
    }
  }

  lemma FillBounds(held: nat, rest: int, v: nat)
    requires v > 0
    ensures Fill(held, rest, v) <= held
    ensures Fill(held, rest, v) == held || Worth(v, Fill(held, rest, v)) >= rest
  {
    hide Worth, Take;
    WorthUnit(v);
    if rest > 0 {
      TakeBounds(held, rest + v - 1, v);
      if Take(held, rest + v - 1, v) < held { TakeReaches(held, rest + v - 1, v); }
    }
  }

  lemma TakeReaches(held: nat, rest: nat, v: nat)
    requires v > 0 && Take(held, rest, v) < held
    ensures rest - Worth(v, Take(held, rest, v)) < v
  {
    hide Mul, Quo, Rem;
    MulUnit(v);
    if rest >= v {
      QuoRem(rest, v);
      MulSwap(Quo(rest, v), v);
    }
  }

  // -------------------------------------------------------------- change

  lemma {:induction false} GreedyRounds(d: seq<nat>, held: Counts, k: nat, t: nat, r: nat)
    requires Chain(d) && k <= |d| == |held| && Divides(d[0], t) && r < d[0]
    ensures Greedy(d, held, k, t + r) == Greedy(d, held, k, t)
  {
    hide Divides, Worth, Take;
    if k > 0 {
      var v := d[k - 1];
      GreedyStep(d, held, k, t);
      DividesAll(d, 0, k - 1);
      TakeRounds(held[k - 1], t, r, v, d[0]);
      var n := Take(held[k - 1], t, v);
      DividesWorth(d[0], v, n);
      DividesSum(d[0], t, Worth(v, n));
      GreedyRounds(d, held, k - 1, t - Worth(v, n), r);
    }
  }

  lemma TakeRounds(held: nat, t: nat, r: nat, v: nat, unit: nat)
    requires unit > 0 && v > 0 && Divides(unit, v) && Divides(unit, t) && r < unit
    ensures Take(held, t + r, v) == Take(held, t, v)
  {
    hide Take, Worth, Divides;
    var n := Take(held, t, v);
    TakeBounds(held, t, v);
    if n < held {
      TakeReaches(held, t, v);
      DividesWorth(unit, v, n);
      DividesSum(unit, t, Worth(v, n));
      DividesGap(unit, t - Worth(v, n), v);
    }
    TakeUnique(held, t + r, v, n);
  }

  /** Two multiples that differ, differ by the unit at least. */
  lemma DividesGap(unit: nat, x: nat, y: nat)
    requires unit > 0 && Divides(unit, x) && Divides(unit, y) && x < y
    ensures x + unit <= y
  {
    hide Worth;
    DividesSum(unit, y, x);
    var q := Quotient(unit, y - x);
    WorthUnit(unit);
    if q == 0 {} else { WorthMonotone(unit, 1, q); }
  }

  /** getChange returns the amount rounded down to the smallest denomination, and nothing for a negative amount. */
  lemma ChangeValue(d: seq<nat>, amount: int)
    requires Chain(d)
    ensures |Change(d, amount)| == |d|
    ensures amount >= 0 ==> d[0] > 0 && Value(d, Change(d, amount)) == amount - amount % d[0]
    ensures amount < 0 ==> Value(d, Change(d, amount)) == 0 && Count(Change(d, amount)) == 0
  {
    hide Worth, Divides;
    if amount >= 0 {
      var held, r := Full(|d|, amount), amount % d[0];
      var t := RoundDown(d[0], amount);
      GreedyRounds(d, held, |d|, t, r);
      var u := Units(d, t);
      GreedyIsBest(d, held, u, t);
    } else {
      GreedyBounds(d, Full(|d|, 0), |d|, amount);
      BoundedByZeros(d, Change(d, amount));
    }
  }

  lemma RoundDown(unit: nat, amount: nat) returns (t: nat)
    requires unit > 0
    ensures t == amount - amount % unit && Divides(unit, t) && t <= amount
  {
    hide Mul, Quo, Rem;
    QuoIs(amount, unit);
    QuoRem(amount, unit);
    t := amount - amount % unit;
    QuoNat(amount, unit);
    MulNat(Quo(amount, unit), unit);
    QuoRemUnique(t, unit, Quo(amount, unit), 0);
  }

  /** An amount as coins of the smallest denomination only. */
  lemma Units(d: seq<nat>, t: nat) returns (u: Counts)
    requires Chain(d) && Divides(d[0], t)
    ensures |u| == |d| && AtMost(u, Full(|d|, t)) && Value(d, u) == t
  {
    hide Worth, Divides;
    var q := Quotient(d[0], t);
    u := Zeros(|d|)[0 := q];
    ValueZeros(d, |d|);
    ValueUpdate(d, Zeros(|d|), 0, q);
    WorthUnit(d[0]);
    assert q <= t by { CoinsBelowAmount(d[0], q); }
  }

  lemma CoinsBelowAmount(v: nat, q: nat)
    requires v > 0
    ensures q <= Worth(v, q)
  {
    hide Mul;
    MulUnit(q);
    MulGrows(q, 1, v);
  }

  lemma BoundedByZeros(d: seq<nat>, u: Counts)
    requires |u| == |d| && AtMost(u, Full(|d|, 0)[..|d|])
    ensures Value(d, u) == 0 && Count(u) == 0
  {
    ValueZeros(d, |d|);
    assert u == Zeros(|d|);
  }

  /** No other coins make the same change with fewer of them. */
  lemma ChangeIsBest(d: seq<nat>, u: Counts)
    requires Chain(d) && |u| == |d|
    ensures Count(Change(d, Value(d, u))) <= Count(u) && Value(d, Change(d, Value(d, u))) == Value(d, u)
  {
    hide Worth, Divides;
    var t := Value(d, u);
    forall i | 0 <= i < |u| ensures u[i] <= t { CountBelowValue(d, u, i); }
    GreedyIsBest(d, Full(|d|, t), u, t);
  }

  lemma CountBelowValue(d: seq<nat>, u: Counts, i: nat)
    requires Chain(d) && i < |u| == |d|
    ensures u[i] <= Value(d, u)
  {
    hide Worth;
    ValueUpdate(d, u, i, 0);
    WorthUnit(d[i]);
    ChainPositive(d, i);
    CoinsBelowAmount(d[i], u[i]);
  }

  // ------------------------------------------------------------ the own pass

  /** The own pass stays within what is held. */
  lemma {:induction false} OwnBounds(d: seq<nat>, held: Counts, k: nat, target: int)
    requires Chain(d) && k <= |d| == |held|
    ensures AtMost(Own(d, held, k, target), held[..k])
  {
    hide Chain, Worth, Fill, AtMost;
    if k == 0 {
      EmptyAtMost(held);
    } else {
      ChainPositive(d, k - 1);
      FillBounds(held[k - 1], target, d[k - 1]);
      var n := Fill(held[k - 1], target, d[k - 1]);
      OwnBounds(d, held, k - 1, target - Worth(d[k - 1], n));
      AppendAtMost(Own(d, held, k - 1, target - Worth(d[k - 1], n)), held, n);
    }
  }

  /** The own pass reaches the target unless it uses everything. */
  lemma {:induction false} OwnMeets(d: seq<nat>, held: Counts, k: nat, target: int)
    requires Chain(d) && k <= |d| == |held|
    ensures Own(d, held, k, target) == held[..k] || Value(d, Own(d, held, k, target)) >= target
  {
    hide Chain, Worth, Fill, Value, Count;
    if k > 0 {
      ChainPositive(d, k - 1);
      var v := d[k - 1];
      FillBounds(held[k - 1], target, v);
      var n := Fill(held[k - 1], target, v);
      var rest := Own(d, held, k - 1, target - Worth(v, n));
      OwnMeets(d, held, k - 1, target - Worth(v, n));
      ValueAppend(d, rest, n);
      assert held[..k] == held[..k - 1] + [held[k - 1]];
    }
  }

  lemma {:induction false} OwnNothing(d: seq<nat>, held: Counts, k: nat, target: int)
    requires Chain(d) && k <= |d| == |held| && target <= 0
    ensures Own(d, held, k, target) == Zeros(k) && Value(d, Zeros(k)) == 0
  {
    hide Chain, Worth;
    if k > 0 {
      ChainPositive(d, k - 1);
      WorthUnit(d[k - 1]);
      OwnNothing(d, held, k - 1, target);
      assert Zeros(k) == Zeros(k - 1) + [0];
    }
    ValueZeros(d, k);
  }

  /** When nothing held tops up the greedy selection that stays below the target, the own pass does not overshoot. */
  lemma {:induction false} OwnExact(d: seq<nat>, held: Counts, k: nat, target: nat)
    requires Chain(d) && k <= |d| == |held| && target > 0
    requires forall i :: 0 <= i < k ==>
      Greedy(d, held, k, target - 1)[i] == held[i] || d[i] <= target - Value(d, Greedy(d, held, k, target - 1))
    ensures Value(d, Own(d, held, k, target)) <= target
  {
    hide Chain, Worth, Take, Fill, Value, Count, Greedy, Own;
    OwnUnfold(d, held, k, target);
    GreedyUnfold(d, held, k, target - 1);
    if k == 0 {
      ValueZeros(d, 0);
      assert Zeros(0) == [];
    } else {
      var v, h := d[k - 1], held[k - 1];
      GreedyStep(d, held, k, target - 1);
      var n := Take(h, target - 1, v);
      var low := Greedy(d, held, k - 1, target - 1 - Worth(v, n));
      ValueAppend(d, low, n);
      if n == h {
        FillAll(h, target, v);
        forall i | 0 <= i < k - 1 ensures low[i] == held[i] || d[i] <= target - Worth(v, n) - Value(d, low) {
          assert (low + [n])[i] == low[i];
        }
        OwnExact(d, held, k - 1, target - Worth(v, n));
        ValueAppend(d, Own(d, held, k - 1, target - Worth(v, n)), n);
      } else {
        assert (low + [n])[k - 1] == n;
        FillExact(h, target, v, n);
        OwnNothing(d, held, k - 1, 0);
        ValueAppend(d, Zeros(k - 1), n + 1);
      }
    }
  }

  /** The own pass spends no coin too many: without one of its smallest coins it does not reach the target. */
  lemma {:induction false} OwnTight(d: seq<nat>, held: Counts, k: nat, target: int, j: nat)
    requires Chain(d) && j < k <= |d| == |held|
    requires var u := Own(d, held, k, target); u[j] > 0 && forall i :: 0 <= i < j ==> u[i] == 0
    ensures Value(d, Own(d, held, k, target)) - d[j] < target
  {
    hide Chain, Worth, Take, Fill, Value, Count, Own;
    OwnUnfold(d, held, k, target);
    var v := d[k - 1];
    var n := Fill(held[k - 1], target, v);
    var rest := target - Worth(v, n);
    var low := Own(d, held, k - 1, rest);
    ValueAppend(d, low, n);
    if j < k - 1 {
      assert forall i :: 0 <= i <= j ==> (low + [n])[i] == low[i];
      OwnTight(d, held, k - 1, rest, j);
    } else {
      assert forall i :: 0 <= i < j ==> (low + [n])[i] == low[i];
      assert low == Zeros(k - 1);
      ValueZeros(d, k - 1);
      FillTight(held[k - 1], target, v);
    }
  }

  lemma FillTight(held: nat, rest: int, v: nat)
    requires v > 0 && Fill(held, rest, v) > 0
    ensures Worth(v, Fill(held, rest, v)) - v < rest
  {
    hide Worth, Take;
    TakeBounds(held, rest + v - 1, v);
  }

  lemma OwnUnfold(d: seq<nat>, held: Counts, k: nat, target: int)
    requires Chain(d) && k <= |d| == |held|
    ensures k == 0 ==> Own(d, held, k, target) == []
    ensures k > 0 ==> d[k - 1] > 0
    ensures k > 0 ==> var n := Fill(held[k - 1], target, d[k - 1]);
      Own(d, held, k, target) == Own(d, held, k - 1, target - Worth(d[k - 1], n)) + [n]
  {
    hide Chain, Worth, Fill;
    if k > 0 { ChainPositive(d, k - 1); }
  }

  lemma FillAll(h: nat, target: nat, v: nat)
    requires v > 0 && target > 0 && Take(h, target - 1, v) == h
    ensures Fill(h, target, v) == h
  {
    hide Take, Worth;
    TakeBounds(h, target - 1, v);
    TakeMost(h, target + v - 1, v, h);
    TakeBounds(h, target + v - 1, v);
  }

  lemma FillExact(h: nat, target: nat, v: nat, n: nat)
    requires v > 0 && target > 0 && n == Take(h, target - 1, v) < h && v <= target - Worth(v, n)
    ensures Fill(h, target, v) == n + 1 && Worth(v, n + 1) == target
  {
    hide Take, Worth, Fill;
    TakeReaches(h, target - 1, v);
    WorthAdd(v, n, 1);
    WorthUnit(v);
    FillUnique(h, target, v, n + 1);
  }
}
