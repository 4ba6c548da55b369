/** Spending with change: minimizeChange, calculateChange and SelectMintsFromList
    (src/denomination_functions.cpp). */
module ChangePlans {
  import opened Numbers
  import opened Denominations
  import opened CoinChange
  import opened CoinSelection

  /** getNumberOfCoinsUsed. */
  method CountCoins(u: Counts) returns (n: nat)
    ensures n == Count(u)
  {
    n := 0;
    for i := 0 to |u|
      invariant n == Count(u[..i])
    {
      n := n + u[i];
      assert u[..i + 1][..i] == u[..i];
    }
    assert u[..|u|] == u;
  }

  /** getNextLowerDenomHeld, and getMaxDenomHeld when the limit is above every denomination. */
  method HighestHeld(held: Counts, limit: nat) returns (i: int)
    requires limit <= |held|
    ensures -1 <= i < limit && (i >= 0 ==> held[i] != 0)
    ensures forall j :: i < j < limit ==> held[j] == 0
    ensures i + 1 == HeldBelow(held, limit)
  {
    i := limit - 1;
    while i >= 0 && held[i] == 0
      invariant -1 <= i < limit && HeldBelow(held, i + 1) == HeldBelow(held, limit)
      invariant forall j :: i < j < limit ==> held[j] == 0
    {
      i := i - 1;
    }
  }

  // ---------------------------------------------------------- minimizeChange

  /** The first pass of minimizeChange. */
  method BelowPass(d: seq<nat>, held: Counts, k: nat, target: int) returns (used: Counts, rest: int, amount: int)
    requires Chain(d) && k <= |d| == |held|
    ensures used == Below(d, held, k, target)
    ensures amount == Value(d, used) && rest == target - amount
  {
    hide Chain, Take, Worth, Value, Count;
    used, rest, amount := Zeros(|d|), target, 0;
    ValueZeros(d, |d|);
    var j := |d|;
    assert Zeros(|d|)[k..] == Zeros(|d| - k);
    while j > 0
      invariant 0 <= j <= |d| == |used|
      invariant forall i :: 0 <= i < j ==> used[i] == 0
      invariant j >= k ==> used == Zeros(|d|) && rest == target
      invariant j <= k ==> Greedy(d, held, j, rest - 1) + used[j..] == Below(d, held, k, target)
      invariant amount == Value(d, used) && rest == target - amount
    {
      j := j - 1;
      if j < k {
        ghost var before, start := used, rest;
        ChainPositive(d, j);
        WorthUnit(d[j]);
        while rest > d[j] && used[j] < held[j]
          invariant |used| == |d| && used == before[j := used[j]]
          invariant used[j] <= held[j] && rest == start - Worth(d[j], used[j])
          invariant used[j] == 0 || rest >= 1
          invariant rest == target - amount
          decreases held[j] - used[j]
        {
          WorthAdd(d[j], used[j], 1);
          used := used[j := used[j] + 1];
          rest := rest - d[j];
          amount := amount + d[j];
        }
        TakeUnique(held[j], start - 1, d[j], used[j]);
        ValueUpdate(d, before, j, used[j]);
        assert used[j..] == [used[j]] + before[j + 1..];
      }
    }
  }

  /** The second pass of minimizeChange. */
  method TopUp(d: seq<nat>, held: Counts, target: int, used0: Counts, rest0: int, amount0: int)
    returns (used: Counts, amount: int)
    requires Chain(d) && |d| == |held| == |used0|
    requires amount0 == Value(d, used0) && rest0 == target - amount0
    ensures used == Topped(d, held, used0, target, 0) && amount == Value(d, used)
  {
    hide Chain, Worth, Value, Count;
    var rest;
    used, rest, amount := used0, rest0, amount0;
    for i := 0 to |d|
      invariant used == used0 && rest == rest0 && amount == amount0
      invariant Topped(d, held, used0, target, 0) == Topped(d, held, used0, target, i)
    {
      if d[i] > rest && used[i] < held[i] {
        ToppedValue(d, held, used0, target, i);
        used := used[i := used[i] + 1];
        rest := rest - d[i];
        amount := amount + d[i];
      }
      if rest < 0 { break; }
    }
  }

  lemma ToppedValue(d: seq<nat>, held: Counts, used: Counts, target: int, i: nat)
    requires Chain(d) && |d| == |held| == |used| && TopsUp(d, held, used, target, i)
    ensures Topped(d, held, used, target, i) == used[i := used[i] + 1]
    ensures Value(d, used[i := used[i] + 1]) == Value(d, used) + d[i] > target
  {
    hide Chain, Worth, Value;
    ValueUpdate(d, used, i, used[i] + 1);
    WorthAdd(d[i], used[i], 1);
    WorthUnit(d[i]);
  }

  /** A coin is added if one tops up, and then the target is covered. */
  lemma {:induction false} ToppedIs(d: seq<nat>, held: Counts, used: Counts, target: int, i: nat)
    requires Chain(d) && |d| == |held| == |used| && i <= |d| && AtMost(used, held)
    ensures var u := Topped(d, held, used, target, i);
      && |u| == |d| && AtMost(u, held)
      && (u == used && Value(d, used) <= target ==> forall j: nat :: i <= j ==> !TopsUp(d, held, used, target, j))
      && (u != used ==> Value(d, u) > target && exists j: nat :: TopsUp(d, held, used, target, j))
    decreases |d| - i
  {
    hide Chain, Worth, Value;
    if i < |d| {
      if TopsUp(d, held, used, target, i) {
        ToppedValue(d, held, used, target, i);
        assert used[i := used[i] + 1][i] == used[i] + 1;
      } else if target - Value(d, used) >= 0 {
        ToppedIs(d, held, used, target, i + 1);
      }
    }
  }

  /** The third pass of minimizeChange: coins that would come back as change are not spent. */
  method RemoveOverlap(d: seq<nat>, used0: Counts, amount0: int, change0: Counts) returns (used: Counts, amount: int)
    requires |d| == |used0| == |change0| && amount0 == Value(d, used0)
    ensures used == Freed(used0, change0) && amount == Value(d, used)
  {
    hide Worth, Value, Count;
    used, amount := used0, amount0;
    var change := change0;
    for i := 0 to |d|
      invariant |used| == |change| == |d| && amount == Value(d, used)
      invariant used[i..] == used0[i..] && change[i..] == change0[i..]
      invariant forall j :: 0 <= j < i ==> used[j] == Freed(used0, change0)[j]
    {
      ghost var before := used;
      while change[i] != 0 && used[i] != 0
        invariant |used| == |change| == |d| && amount == Value(d, used)
        invariant used == before[i := used[i]] && change[i + 1..] == change0[i + 1..]
        invariant used[i] <= used0[i] && used0[i] + change[i] == used[i] + change0[i]
        decreases used[i]
      {
        ValueUpdate(d, used, i, used[i] - 1);
        WorthAdd(d[i], used[i] - 1, 1);
        WorthUnit(d[i]);
        used := used[i := used[i] - 1];
        change := change[i := change[i] - 1];
        amount := amount - d[i];
      }
    }
  }

  /** What the passes promise: an amount that can be met exactly and that still covers the target
      just when the first pass can be topped up. */
  ghost predicate Reworked(d: seq<nat>, held: Counts, k: nat, target: int, u: Counts)
    requires Chain(d) && k <= |d| == |held|
  {
    && |u| == |d|
    && AtMost(u, held)
    && (Value(d, u) >= target <==> target <= 0 || CanTopUp(d, held, k, target))
  }

  /** The three passes of minimizeChange together. */
  method Rework(d: seq<nat>, held: Counts, k: nat, target: int) returns (amount: nat)
    requires Chain(d) && k <= |d| == |held|
    ensures amount == AltAmount(d, held, k, target)
  {
    hide Chain, Worth, Value, Count, Take, Greedy, Below, Change, Topped;
    var below, rest, low := BelowPass(d, held, k, target);
    var topped, high := TopUp(d, held, target, below, rest, low);
    var change := GetChange(d, high - target);
    ChangeBounds(d, high - target);
    var used, n := RemoveOverlap(d, topped, high, change);
    amount := n;
  }

  /** Their outcome is what they promise. */
  lemma Reworks(d: seq<nat>, held: Counts, k: nat, target: int)
    requires Chain(d) && k <= |d| == |held|
    ensures Reworked(d, held, k, target, Alternative(d, held, k, target))
    ensures AltAmount(d, held, k, target) == Value(d, Alternative(d, held, k, target))
  {
    hide Chain, Worth, Value, Count, Take, AtMost, Greedy, Below, Change, Topped;
    var below := Below(d, held, k, target);
    BelowBounds(d, held, k, target);
    ToppedIs(d, held, below, target, 0);
    var topped := Topped(d, held, below, target, 0);
    var high := Value(d, topped);
    var change := Change(d, high - target);
    ChangeBounds(d, high - target);
    var u := Freed(topped, change);
    FreedBounds(topped, change);
    AtMostTrans(u, topped, held);
    ValueMinus(d, topped, u);
    ValueMonotone(d, Minus(topped, u), change);
    RespendReworked(d, held, k, target, u);
  }

  /** What the alternative spends and gets back has no denomination in common, and what it gets back is its change. */
  lemma NothingBack(d: seq<nat>, held: Counts, k: nat, target: int) returns (u: Counts, b: Counts)
    requires Chain(d) && k <= |d| == |held|
    ensures |u| == |b| == |d| && AtMost(u, held) && Value(d, u) == AltAmount(d, held, k, target)
    ensures Value(d, b) == Value(d, Change(d, Value(d, u) - target)) && Count(b) == AltChange(d, held, k, target)
    ensures forall i :: 0 <= i < |d| ==> u[i] == 0 || b[i] == 0
  {
    hide Chain, Worth, Value, Count, Take, AtMost, Greedy, Below, Change, Topped, Freed;
    var below := Below(d, held, k, target);
    BelowBounds(d, held, k, target);
    ToppedIs(d, held, below, target, 0);
    var topped := Topped(d, held, below, target, 0);
    var back := Change(d, Value(d, topped) - target);
    ChangeBounds(d, Value(d, topped) - target);
    u := Freed(topped, back);
    FreedBounds(topped, back);
    AtMostTrans(u, topped, held);
    var overlap := Minus(topped, u);
    MinusLength(topped, u);
    b := Minus(back, overlap);
    MinusLength(back, overlap);
    ValueMinus(d, topped, u);
    ValueMinus(d, back, overlap);
    PartOfChange(d, Value(d, topped) - target, overlap);
    forall i | 0 <= i < |d| ensures u[i] == 0 || b[i] == 0 { FreedApart(topped, back, i); }
  }

  lemma MinusLength(u: Counts, v: Counts)
    requires AtMost(v, u)
    ensures |Minus(u, v)| == |u| == |v|
  {
  }

  lemma FreedApart(used: Counts, change: Counts, i: nat)
    requires |used| == |change| && i < |used|
    ensures var u := Freed(used, change);
      AtMost(u, used) && AtMost(Minus(used, u), change) && (u[i] == 0 || Minus(change, Minus(used, u))[i] == 0)
  {
  }

  /** What is left of change when a part of it is taken out is as good as the change of what is left. */
  lemma PartOfChange(d: seq<nat>, amount: int, part: Counts)
    requires Chain(d) && |Change(d, amount)| == |d| && AtMost(part, Change(d, amount))
    ensures |part| == |d|
    ensures var rest := Minus(Change(d, amount), part); var left := Change(d, amount - Value(d, part));
      |rest| == |left| == |d| && Value(d, rest) == Value(d, left) && Count(rest) == Count(left)
  {
    hide Chain, Worth, Value, Count, Change, AtMost;
    var all := Change(d, amount);
    MinusLength(all, part);
    var p := Value(d, part);
    var rest, left := Minus(all, part), Change(d, amount - p);
    ValueMinus(d, all, part);
    ValueMonotone(d, part, all);
    ChangeValue(d, amount);
    ChangeValue(d, amount - p);
    if amount >= 0 {
      SameMultiple(d, rest, left, amount - p);
      ChangeIsFewest(d, amount - p, rest);
      var both := Both(left, part);
      BothParts(left, part);
      ValueMinus(d, both, part);
      ChangeIsFewest(d, amount, both);
    }
  }

  function Both(u: Counts, v: Counts): Counts
    requires |u| == |v|
  {
    seq(|u|, i requires 0 <= i < |u| => u[i] + v[i])
  }

  lemma BothParts(u: Counts, v: Counts)
    requires |u| == |v|
    ensures |Both(u, v)| == |u| && AtMost(v, Both(u, v)) && Minus(Both(u, v), v) == u
  {
  }

  /** Two holdings whose values are within one smallest coin of each other have the same value. */
  lemma SameMultiple(d: seq<nat>, u: Counts, v: Counts, amount: int)
    requires Chain(d) && |u| == |v| == |d|
    requires amount - d[0] < Value(d, u) <= amount && amount - d[0] < Value(d, v) <= amount
    ensures Value(d, u) == Value(d, v)
  {
    hide Worth, Value, Divides;
    ValueMultiple(d, u);
    ValueMultiple(d, v);
    if Value(d, u) < Value(d, v) { DividesGap(d[0], Value(d, u), Value(d, v)); }
    if Value(d, v) < Value(d, u) { DividesGap(d[0], Value(d, v), Value(d, u)); }
  }

  /** No coins of the same value are fewer than change, whatever it is rounded from. */
  lemma ChangeIsFewest(d: seq<nat>, amount: nat, u: Counts)
    requires Chain(d) && |u| == |d| == |Change(d, amount)| && Value(d, u) == Value(d, Change(d, amount))
    ensures Count(Change(d, amount)) <= Count(u)
  {
    hide Worth, Divides, Value, Count, Greedy;
    ChangeValue(d, amount);
    var t := RoundDown(d[0], amount);
    GreedyRounds(d, Full(|d|, amount), |d|, t, amount % d[0]);
    forall i | 0 <= i < |u| ensures u[i] <= amount { CountBelowValue(d, u, i); }
    GreedyIsBest(d, Full(|d|, amount), u, t);
  }

  lemma FreedBounds(used: Counts, change: Counts)
    requires |used| == |change|
    ensures var u := Freed(used, change); AtMost(u, used) && AtMost(Minus(used, u), change)
  {
  }

  lemma BelowBounds(d: seq<nat>, held: Counts, k: nat, target: int)
    requires Chain(d) && k <= |d| == |held|
    ensures AtMost(Below(d, held, k, target), held)
    ensures target <= 0 ==> Value(d, Below(d, held, k, target)) == 0
    ensures target > 0 ==> Value(d, Below(d, held, k, target)) < target
  {
    hide Chain, Worth, Value, Count, Take;
    GreedyBounds(d, held, k, target - 1);
    ValuePadded(d, Greedy(d, held, k, target - 1), |d| - k);
  }

  lemma {:induction false} ValuePadded(d: seq<nat>, u: Counts, n: nat)
    requires |u| + n <= |d|
    ensures Value(d, u + Zeros(n)) == Value(d, u)
  {
    hide Worth;
    if n == 0 {
      assert u + Zeros(0) == u;
    } else {
      WorthUnit(d[|u| + n - 1]);
      ValuePadded(d, u, n - 1);
      assert u + Zeros(n) == u + Zeros(n - 1) + [0];
      ValueAppend(d, u + Zeros(n - 1), 0);
    }
  }

  lemma ChangeBounds(d: seq<nat>, amount: int)
    requires Chain(d)
    ensures |Change(d, amount)| == |d|
    ensures Value(d, Change(d, amount)) <= if amount < 0 then 0 else amount
  {
    hide Chain, Worth, Value, Count, Take;
    GreedyBounds(d, Full(|d|, if amount < 0 then 0 else amount), |d|, amount);
  }

  lemma AtMostTrans(u: Counts, v: Counts, w: Counts)
    requires AtMost(u, v) && AtMost(v, w)
    ensures AtMost(u, w)
  {
  }

  /** Whatever the passes come to, getSpendCoins meets it, with the fewest coins. */
  lemma RespendReworked(d: seq<nat>, held: Counts, k: nat, target: int, u: Counts)
    requires Chain(d) && k <= |d| == |held| && Reworked(d, held, k, target, u)
    ensures var w := Greedy(d, held, |d|, Value(d, u)); Reworked(d, held, k, target, w) && Value(d, w) == Value(d, u)
  {
    hide Chain, Worth, Value, Count, Take, AtMost, Below, Change, Greedy;
    assert held[..|d|] == held;
    GreedyBounds(d, held, |d|, Value(d, u));
    GreedyIsBest(d, held, u, Value(d, u));
  }

  /** minimizeChange. Its alternative is taken exactly when it needs fewer coins of change and few enough coins; it
      covers the target just when the first pass can be topped up. */
  method MinimizeChange(d: seq<nat>, max: int, changeCount: nat, k: nat, target: int, held: Counts, saved: Counts)
    returns (used: Counts, change: nat)
    requires Chain(d) && k <= |d| == |held|
    ensures if Prefers(d, max, held, k, target, changeCount)
      then used == Alternative(d, held, k, target) && change == AltChange(d, held, k, target)
      else used == saved && change == changeCount
    ensures change < changeCount ==>
      && Reworked(d, held, k, target, used)
      && Count(used) <= max
      && change == Count(Change(d, Value(d, used) - target))
      && used == Greedy(d, held, |d|, Value(d, used))
  {
    hide Chain, Worth, Value, Count, Take, AtMost, Greedy, Below, Change, Reworked, AltAmount;
    var amount := Rework(d, held, k, target);
    used := GetSpendCoins(d, amount, held);
    Reworks(d, held, k, target);
    var coins := CountCoins(used);
    var alt := GetChange(d, amount - target);
    change := CountCoins(alt);
    if !(change < changeCount && coins <= max) {
      used, change := saved, changeCount;
    }
  }

  /** With one coin of the smallest denomination, which is exactly the target, nothing tops up and minimizeChange comes
      to nothing; it would prefer that to any plan with change. */
  lemma NothingToTopUp()
    ensures Chain(ZEROCOIN) && Value(ZEROCOIN, Single(8, 0)) == COIN && !CanTopUp(ZEROCOIN, Single(8, 0), 1, COIN)
    ensures Reworked(ZEROCOIN, Single(8, 0), 1, COIN, Zeros(8)) && Value(ZEROCOIN, Zeros(8)) == 0
  {
    hide Chain, Value, Greedy, Worth, Quo;
    ZerocoinChain();
    var held := Single(8, 0);
    ValueZeros(ZEROCOIN, 8);
    ValueUpdate(ZEROCOIN, Zeros(8), 0, 1);
    WorthUnit(COIN);
    GreedyUnfold(ZEROCOIN, held, 1, COIN - 1);
    GreedyUnfold(ZEROCOIN, held, 0, COIN - 1);
    assert Below(ZEROCOIN, held, 1, COIN) == Zeros(8);
    forall i: nat ensures !TopsUp(ZEROCOIN, held, Zeros(8), COIN, i) { if i < 8 && i != 0 { assert held[i] == 0; } }
  }

  // --------------------------------------------------------- calculateChange

  /** A held coin worth more than the target. */
  predicate Over(d: seq<nat>, held: Counts, target: int, i: nat)
    requires |d| == |held|
  {
    i < |d| && target < d[i] && held[i] != 0
  }

  /** The first such coin from one on. */
  function OverFrom(d: seq<nat>, held: Counts, target: int, i: nat): (first: nat)
    requires |d| == |held| && i <= |d|
    ensures i <= first <= |d| && (first < |d| ==> Over(d, held, target, first))
    decreases |d| - i
  {
    if i == |d| || Over(d, held, target, i) then i else OverFrom(d, held, target, i + 1)
  }

  function Single(n: nat, i: nat): Counts
    requires i < n
  {
    Zeros(n)[i := 1]
  }

  method FirstOver(d: seq<nat>, held: Counts, target: int) returns (i: nat)
    requires |d| == |held|
    ensures i <= |d| && (i < |d| ==> Over(d, held, target, i))
    ensures forall j: nat :: j < i ==> !Over(d, held, target, j)
    ensures i == OverFrom(d, held, target, 0)
  {
    i := 0;
    while i < |d| && !Over(d, held, target, i)
      invariant i <= |d| && OverFrom(d, held, target, i) == OverFrom(d, held, target, 0)
      invariant forall j: nat :: j < i ==> !Over(d, held, target, j)
    {
      i := i + 1;
    }
  }

  /** calculateChange's own pass. */
  method OwnPass(d: seq<nat>, held: Counts, target: int) returns (used: Counts, amount: int, coins: nat)
    requires Chain(d) && |d| == |held|
    ensures used == Own(d, held, |d|, target)
    ensures amount == Value(d, used) && coins == Count(used)
  {
    hide Chain, Fill, Worth, Value, Count;
    used, amount, coins := Zeros(|d|), 0, 0;
    ValueZeros(d, |d|);
    var rest, k := target, |d|;
    while k > 0
      invariant 0 <= k <= |d| == |used|
      invariant forall i :: 0 <= i < k ==> used[i] == 0
      invariant Own(d, held, k, rest) + used[k..] == Own(d, held, |d|, target)
      invariant amount == Value(d, used) && coins == Count(used)
    {
      k := k - 1;
      ghost var before, start := used, rest;
      ChainPositive(d, k);
      WorthUnit(d[k]);
      while rest > 0 && used[k] < held[k]
        invariant |used| == |d| && used == before[k := used[k]]
        invariant used[k] <= held[k] && rest == start - Worth(d[k], used[k])
        invariant used[k] == 0 || rest + d[k] > 0
        invariant amount == Value(d, before) + Worth(d[k], used[k]) && coins == Count(before) + used[k]
        decreases held[k] - used[k]
      {
        WorthAdd(d[k], used[k], 1);
        used := used[k := used[k] + 1];
        amount := amount + d[k];
        rest := rest - d[k];
        coins := coins + 1;
      }
      FillUnique(held[k], start, d[k], used[k]);
      ValueUpdate(d, before, k, used[k]);
      assert used[k..] == [used[k]] + before[k + 1..];
      if rest < 0 {
        OwnNothing(d, held, k, rest);
        assert used == Zeros(k) + used[k..];
        break;
      }
    }
  }

  /** With nothing held from the k-th denomination up, greedy takes nothing there. */
  lemma {:induction false} GreedyTrim(d: seq<nat>, held: Counts, k: nat, n: nat, target: int)
    requires Chain(d) && k + n <= |d| == |held| && forall i :: k <= i < |d| ==> held[i] == 0
    ensures Greedy(d, held, k + n, target) == Greedy(d, held, k, target) + Zeros(n)
  {
    hide Chain, Worth;
    if n == 0 {
      assert Greedy(d, held, k, target) + Zeros(0) == Greedy(d, held, k, target);
    } else {
      ChainPositive(d, k + n - 1);
      TakeBounds(held[k + n - 1], target, d[k + n - 1]);
      WorthUnit(d[k + n - 1]);
      GreedyTrim(d, held, k, n - 1, target);
      assert Zeros(n) == Zeros(n - 1) + [0];
    }
  }

  /** The own plan has no change to save when nothing tops up the first pass. */
  lemma OwnOrTopUp(d: seq<nat>, held: Counts, k: nat, target: int)
    requires Chain(d) && k <= |d| == |held| && forall i :: k <= i < |d| ==> held[i] == 0
    requires target > 0 && !CanTopUp(d, held, k, target)
    ensures Value(d, Own(d, held, |d|, target)) <= target
  {
    hide Chain, Worth, Value, Count, Take, Greedy, Own;
    BelowBounds(d, held, k, target);
    GreedyTrim(d, held, k, |d| - k, target - 1);
    var used := Below(d, held, k, target);
    forall i: nat | i < |d| ensures used[i] == held[i] || d[i] <= target - Value(d, used) {
      assert !TopsUp(d, held, used, target, i);
    }
    OwnExact(d, held, |d|, target);
  }

  /** A plan: coins held, covering the target, and the coins its change takes. */
  ghost predicate Plan(d: seq<nat>, held: Counts, target: int, used: Counts, change: nat)
    requires Chain(d) && |d| == |held|
  {
    && |used| == |d|
    && AtMost(used, held)
    && (target <= Value(d, held) ==> Value(d, used) >= target)
    && (target > Value(d, held) ==> used == held)
    && change == Count(Change(d, Value(d, used) - target))
  }

  lemma SinglePlan(d: seq<nat>, held: Counts, target: int, i: nat)
    requires Chain(d) && |d| == |held| && Over(d, held, target, i)
    ensures Value(d, Single(|d|, i)) == d[i] && AtMost(Single(|d|, i), held) && target < Value(d, held)
  {
    hide Chain, Worth, Value, Count;
    ValueZeros(d, |d|);
    ValueUpdate(d, Zeros(|d|), i, 1);
    WorthUnit(d[i]);
    ValueMonotone(d, Single(|d|, i), held);
  }

  /** What calculateChange chooses when one coin is enough. */
  function OneCoinPlan(d: seq<nat>, max: int, minimize: bool, target: int, held: Counts, i: nat): (Counts, nat)
    requires Chain(d) && |d| == |held| && i < |d|
  {
    var change, k := Count(Change(d, d[i] - target)), HeldBelow(held, i);
    if minimize && Prefers(d, max, held, k, target, change)
    then (Alternative(d, held, k, target), AltChange(d, held, k, target))
    else (Single(|d|, i), change)
  }

  /** What it chooses when several are needed. */
  function SeveralCoinsPlan(d: seq<nat>, max: int, minimize: bool, target: int, held: Counts): (Counts, nat)
    requires Chain(d) && |d| == |held|
  {
    var own, k := Own(d, held, |d|, target), HeldBelow(held, |d|);
    var change := Count(Change(d, Value(d, own) - target));
    if Prefers(d, max, held, k, target, change)
       && (minimize || Count(Alternative(d, held, k, target)) <= Count(own))
    then (Alternative(d, held, k, target), AltChange(d, held, k, target))
    else (own, change)
  }

  function Planned(d: seq<nat>, max: int, minimize: bool, target: int, held: Counts): (Counts, nat)
    requires Chain(d) && |d| == |held|
  {
    var first := OverFrom(d, held, target, 0);
    if first < |d| then OneCoinPlan(d, max, minimize, target, held, first)
    else SeveralCoinsPlan(d, max, minimize, target, held)
  }

  /** The first branch of calculateChange: one coin is enough. */
  method OneCoin(d: seq<nat>, max: int, minimize: bool, target: int, held: Counts, i: nat)
    returns (used: Counts, change: nat)
    requires Chain(d) && |d| == |held| && Over(d, held, target, i)
    ensures (used, change) == OneCoinPlan(d, max, minimize, target, held, i)
    ensures Plan(d, held, target, used, change)
    ensures change <= Count(Change(d, d[i] - target))
    ensures used != Single(|d|, i) ==> minimize && Count(used) <= max && change < Count(Change(d, d[i] - target))
  {
    hide Chain, Worth, Value, Count, AtMost, Change, Below, Greedy, AltAmount;
    SinglePlan(d, held, target, i);
    used := Single(|d|, i);
    var coins := GetChange(d, d[i] - target);
    change := CountCoins(coins);
    if minimize {
      var next := HighestHeld(held, i);
      var alt, n := MinimizeChange(d, max, change, next + 1, target, held, used);
      if n < change {
        OverTopsUp(d, held, next + 1, target, i);
        return alt, n;
      }
    }
  }

  lemma OverTopsUp(d: seq<nat>, held: Counts, k: nat, target: int, i: nat)
    requires Chain(d) && k <= i && |d| == |held| && Over(d, held, target, i)
    ensures CanTopUp(d, held, k, target)
  {
    hide Chain, Worth, Value, Count, Greedy;
    assert TopsUp(d, held, Below(d, held, k, target), target, i);
  }

  /** The second branch of calculateChange: several coins. */
  method SeveralCoins(d: seq<nat>, max: int, minimize: bool, target: int, held: Counts)
    returns (used: Counts, change: nat)
    requires Chain(d) && |d| == |held|
    ensures (used, change) == SeveralCoinsPlan(d, max, minimize, target, held)
    ensures Plan(d, held, target, used, change)
    ensures var own := Own(d, held, |d|, target);
      change <= Count(Change(d, Value(d, own) - target)) && (used != own ==> Count(used) <= max)
  {
    hide Chain, Worth, Value, Count, AtMost, Change, Own, Greedy, Below, CanTopUp, AltAmount;
    var amount, coins;
    used, amount, coins := OwnPass(d, held, target);
    var back := GetChange(d, amount - target);
    change := CountCoins(back);
    OwnPlan(d, held, target);
    var top := HighestHeld(held, |d|);
    var alt, n := MinimizeChange(d, max, change, top + 1, target, held, used);
    var spends := CountCoins(alt);
    if !minimize && coins < spends { return; }
    if n < change { AlternativePlan(d, held, top + 1, target, alt, n); }
    used, change := alt, n;
  }

  lemma OwnPlan(d: seq<nat>, held: Counts, target: int)
    requires Chain(d) && |d| == |held|
    ensures var own := Own(d, held, |d|, target); Plan(d, held, target, own, Count(Change(d, Value(d, own) - target)))
  {
    hide Chain, Worth, Value, Count, AtMost, Change, Own;
    assert held[..|d|] == held;
    OwnBounds(d, held, |d|, target);
    OwnMeets(d, held, |d|, target);
    ValueMonotone(d, Own(d, held, |d|, target), held);
  }

  lemma AlternativePlan(d: seq<nat>, held: Counts, k: nat, target: int, alt: Counts, n: nat)
    requires Chain(d) && k <= |d| == |held| && forall i :: k <= i < |d| ==> held[i] == 0
    requires Reworked(d, held, k, target, alt) && n == Count(Change(d, Value(d, alt) - target))
    requires n < Count(Change(d, Value(d, Own(d, held, |d|, target)) - target))
    ensures Plan(d, held, target, alt, n)
  {
    hide Chain, Worth, Value, Count, AtMost, Change, Own, Greedy, CanTopUp;
    var own := Own(d, held, |d|, target);
    NoChange(d, Value(d, own) - target);
    OwnBounds(d, held, |d|, target);
    assert held[..|d|] == held;
    ValueMonotone(d, own, held);
    if target > 0 && !CanTopUp(d, held, k, target) {
      OwnOrTopUp(d, held, k, target);
    }
  }

  lemma NoChange(d: seq<nat>, amount: int)
    requires Chain(d) && Count(Change(d, amount)) > 0
    ensures amount > 0
  {
    hide Chain, Worth, Take, Greedy;
    if amount < 0 { ChangeValue(d, amount); }
    if amount == 0 { ZeroChange(d); }
  }

  lemma ZeroChange(d: seq<nat>)
    requires Chain(d)
    ensures Count(Change(d, 0)) == 0
  {
    hide Chain, Worth, Take;
    GreedyBounds(d, Full(|d|, 0), |d|, 0);
    BoundedByZeros(d, Change(d, 0));
  }

  /** The value selected is the target and the change, when the target is a whole number of the smallest coin. */
  lemma PlanBalances(d: seq<nat>, held: Counts, target: int, used: Counts, change: nat)
    requires Chain(d) && |d| == |held| && Plan(d, held, target, used, change)
    requires target <= Value(d, held) && Divides(d[0], target)
    ensures |used| == |d| && |Change(d, Value(d, used) - target)| == |d|
    ensures Value(d, used) == target + Value(d, Change(d, Value(d, used) - target))
  {
    hide Worth, Value, Count, Change, Divides, AtMost;
    ValueMultiple(d, used);
    DividesSum(d[0], Value(d, used), target);
    ExactChange(d, Value(d, used) - target);
  }

  /** What the flag decides. Without it, one coin that is enough is spent alone, and otherwise no more coins are spent
      than by the own pass. With it, no alternative within the limit has less change. */
  ghost predicate FlagKept(d: seq<nat>, max: int, minimize: bool, target: int, held: Counts, used: Counts, change: nat)
    requires Chain(d) && |d| == |held|
  {
    && (forall i: nat :: Over(d, held, target, i) && (forall j: nat :: j < i ==> !Over(d, held, target, j)) ==>
          && (!minimize ==> Count(used) == 1 && |used| == |d| && used[i] == 1)
          && (minimize && Count(Alternative(d, held, HeldBelow(held, i), target)) <= max ==>
                change <= AltChange(d, held, HeldBelow(held, i), target)))
    && ((forall i: nat :: !Over(d, held, target, i)) ==>
          var own, alt := Own(d, held, |d|, target), Alternative(d, held, HeldBelow(held, |d|), target);
          && (!minimize ==> Count(used) <= Count(own))
          && (Count(alt) <= max && (minimize || Count(alt) <= Count(own)) ==>
                change <= AltChange(d, held, HeldBelow(held, |d|), target)))
  }

  lemma PlannedByFlag(d: seq<nat>, max: int, minimize: bool, target: int, held: Counts)
    requires Chain(d) && |d| == |held|
    ensures var (used, change) := Planned(d, max, minimize, target, held);
      FlagKept(d, max, minimize, target, held, used, change)
  {
    hide Chain, Worth, Value, Count, Change, Own, Greedy, AltAmount, AltChange, Alternative;
    var first := OverFrom(d, held, target, 0);
    NoneBefore(d, held, target, 0);
    if first < |d| { SingleCount(d, first); }
  }

  lemma {:induction false} NoneBefore(d: seq<nat>, held: Counts, target: int, i: nat)
    requires |d| == |held| && i <= |d|
    ensures forall j: nat :: i <= j < OverFrom(d, held, target, i) ==> !Over(d, held, target, j)
    decreases |d| - i
  {
    if i < |d| && !Over(d, held, target, i) { NoneBefore(d, held, target, i + 1); }
  }

  /** calculateChange. */
  method CalculateChange(d: seq<nat>, max: int, minimize: bool, target: int, held: Counts)
    returns (used: Counts, change: nat)
    requires Chain(d) && |d| == |held|
    ensures (used, change) == Planned(d, max, minimize, target, held)
    ensures Plan(d, held, target, used, change)
    ensures target <= Value(d, held) && Divides(d[0], target) ==>
      && |used| == |d| && |Change(d, Value(d, used) - target)| == |d|
      && Value(d, used) == target + Value(d, Change(d, Value(d, used) - target))
    ensures forall i: nat :: Over(d, held, target, i) && (forall j: nat :: j < i ==> !Over(d, held, target, j)) ==>
      && change <= Count(Change(d, d[i] - target))
      && (used == Single(|d|, i) || (minimize && Count(used) <= max))
    ensures (forall i: nat :: !Over(d, held, target, i)) ==>
      var own := Own(d, held, |d|, target);
      change <= Count(Change(d, Value(d, own) - target)) && (used == own || Count(used) <= max)
    ensures FlagKept(d, max, minimize, target, held, used, change)
  {
    hide FlagKept, Worth, Value, Count, AtMost, Change, Own, Plan, Divides, OneCoinPlan, SeveralCoinsPlan;
    var first := FirstOver(d, held, target);
    if first < |d| {
      used, change := OneCoin(d, max, minimize, target, held, first);
      forall i: nat | Over(d, held, target, i) && (forall j: nat :: j < i ==> !Over(d, held, target, j))
        ensures i == first
      {
      }
    } else {
      used, change := SeveralCoins(d, max, minimize, target, held);
    }
    if target <= Value(d, held) && Divides(d[0], target) { PlanBalances(d, held, target, used, change); }
    PlannedByFlag(d, max, minimize, target, held);
  }

  /** When a plan keeps to the limit on spends: the first plan may be over it, and stays unless the alternative is
      preferred. */
  predicate WithinLimit(d: seq<nat>, max: int, minimize: bool, target: int, held: Counts)
    requires Chain(d) && |d| == |held|
  {
    var first := OverFrom(d, held, target, 0);
    if first < |d| then
      1 <= max
        || (minimize && Prefers(d, max, held, HeldBelow(held, first), target, Count(Change(d, d[first] - target))))
    else
      var own := Own(d, held, |d|, target);
      Count(own) <= max
        || Prefers(d, max, held, HeldBelow(held, |d|), target, Count(Change(d, Value(d, own) - target)))
  }

  lemma LimitKept(d: seq<nat>, max: int, minimize: bool, target: int, held: Counts)
    requires Chain(d) && |d| == |held|
    ensures Count(Planned(d, max, minimize, target, held).0) <= max <==> WithinLimit(d, max, minimize, target, held)
  {
    hide Chain, Worth, Value, Count, Change, Own, Greedy, AltAmount, AltChange, Alternative;
    var first := OverFrom(d, held, target, 0);
    if first < |d| { SingleCount(d, first); }
  }

  lemma SingleCount(d: seq<nat>, i: nat)
    requires i < |d|
    ensures Count(Single(|d|, i)) == 1
  {
    hide Count, Value;
    ValueZeros(d, |d|);
    ValueUpdate(d, Zeros(|d|), i, 1);
  }

  function TwoFives(): (held: Counts)
    ensures |held| == 8
  {
    Zeros(8)[1 := 2]
  }

  lemma Fives(u: Counts)
    requires |u| == 8 && AtMost(u, TwoFives())
    ensures Value(ZEROCOIN, u) == 5 * COIN * u[1] && Count(u) == u[1] <= 2
  {
    hide Value, Count, Worth;
    assert u == Zeros(8)[1 := u[1]];
    ValueZeros(ZEROCOIN, 8);
    ValueUpdate(ZEROCOIN, Zeros(8), 1, u[1]);
    WorthUnit(ZEROCOIN[1]);
    WorthAdd(ZEROCOIN[1], 1, 1);
  }

  lemma FivesHeld()
    ensures Value(ZEROCOIN, TwoFives()) == 10 * COIN && !CanMeet(ZEROCOIN, TwoFives(), 6 * COIN)
  {
    hide Value;
    Fives(TwoFives());
    forall u: Counts | |u| == 8 && AtMost(u, TwoFives()) ensures Value(ZEROCOIN, u) != 6 * COIN {
      Fives(u);
    }
  }

  lemma FivesOwn()
    requires Chain(ZEROCOIN)
    ensures var own := Own(ZEROCOIN, TwoFives(), 8, 6 * COIN); Count(own) == 2 && Value(ZEROCOIN, own) == 10 * COIN
  {
    hide Chain, Value, Count, Own, AtMost, TwoFives;
    var held := TwoFives();
    FivesHeld();
    assert held[..8] == held;
    OwnBounds(ZEROCOIN, held, 8, 6 * COIN);
    OwnMeets(ZEROCOIN, held, 8, 6 * COIN);
    Fives(Own(ZEROCOIN, held, 8, 6 * COIN));
  }

  lemma FivesAlternative()
    requires Chain(ZEROCOIN)
    ensures Count(Alternative(ZEROCOIN, TwoFives(), HeldBelow(TwoFives(), 8), 6 * COIN)) == 2
  {
    hide Chain, Value, Count, Own, AtMost, TwoFives, CanTopUp, Alternative, AltAmount;
    var held := TwoFives();
    var k := HeldBelow(held, 8);
    Reworks(ZEROCOIN, held, k, 6 * COIN);
    FivesOwn();
    NoneAbove(held, 8);
    if !CanTopUp(ZEROCOIN, held, k, 6 * COIN) { OwnOrTopUp(ZEROCOIN, held, k, 6 * COIN); }
    Fives(Alternative(ZEROCOIN, held, k, 6 * COIN));
  }

  /** Two coins of five are spent on a target of six, though the limit is one. */
  lemma LimitIsExceeded(minimize: bool)
    ensures var held := TwoFives();
      && Chain(ZEROCOIN) && 6 * COIN <= Value(ZEROCOIN, held) && !CanMeet(ZEROCOIN, held, 6 * COIN)
      && !WithinLimit(ZEROCOIN, 1, minimize, 6 * COIN, held)
  {
    hide Chain, Value, Count, Own, Change, Alternative, AltChange, CanMeet, TwoFives, OverFrom;
    ZerocoinChain();
    FivesHeld();
    FivesOwn();
    FivesAlternative();
    NoneOver(TwoFives(), 0);
  }

  lemma {:induction false} NoneOver(held: Counts, i: nat)
    requires held == TwoFives() && i <= 8
    ensures OverFrom(ZEROCOIN, held, 6 * COIN, i) == 8
    decreases 8 - i
  {
    if i < 8 { NoneOver(held, i + 1); }
  }

  lemma {:induction false} NoneAbove(held: Counts, limit: nat)
    requires limit <= |held|
    ensures forall i :: HeldBelow(held, limit) <= i < limit ==> held[i] == 0
  {
    if limit > 0 && held[limit - 1] == 0 { NoneAbove(held, limit - 1); }
  }

  // ----------------------------------------------------- SelectMintsFromList

  /** The comparison with the limit on spends: a negative limit becomes a huge unsigned one. */
  predicate Fits(n: nat, max: int) {
    max < 0 || n <= max
  }

  /** Mints of the list, none taken more often than it is there, with the given coins of each denomination. */
  ghost predicate Chosen(d: seq<nat>, mints: seq<Mint>, selected: seq<Mint>, used: Counts)
    requires |used| == |d|
  {
    && HeldIn(selected, |d|) == used
    && (forall m :: m in selected ==> !m.isUsed && 0 <= m.denom < |d|)
    && forall m :: multiset(selected)[m] <= multiset(mints)[m]
  }

  lemma ChosenHeld(d: seq<nat>, mints: seq<Mint>, selected: seq<Mint>, used: Counts)
    requires |used| == |d| && Chosen(d, mints, selected, used)
    ensures HeldIn(selected, |d|) == used
  {
  }

  lemma PickedIsChosen(d: seq<nat>, mints: seq<Mint>, used: Counts)
    requires |used| == |d| && AtMost(used, HeldIn(mints, |d|))
    ensures Covered(mints, used)
    ensures Chosen(d, mints, Picked(mints, used, 0), used)
  {
    hide Unused, Picked;
    HeldCovers(mints, used);
    var selected := Picked(mints, used, 0);
    forall m ensures multiset(selected)[m] <= multiset(mints)[m] { PickedFromList(mints, used, 0, m); }
    forall i | 0 <= i < |d| ensures |Unused(selected, i)| == used[i] { PickedCounts(mints, used, 0, i); }
    PickedRange(mints, used, 0);
  }

  /** As many mints are picked as coins were asked for. */
  lemma {:induction false} PickedLength(mints: seq<Mint>, used: Counts, n: nat)
    requires n <= |used| && AtMost(used, HeldIn(mints, |used|))
    ensures Covered(mints, used)
    ensures |Picked(mints, used, n)| + Count(used[..n]) == Count(used)
    decreases |used| - n
  {
    hide Rounds;
    HeldCovers(mints, used);
    if n == |used| {
      assert used[..n] == used;
    } else {
      PickedStep(mints, used, n);
      PickedLength(mints, used, n + 1);
      assert used[..n + 1][..n] == used[..n];
    }
  }

  /** The outcome of a selection, with the coins it takes. */
  ghost predicate Outcome(d: seq<nat>, mints: seq<Mint>, target: int, max: int, used: Counts,
                          selected: seq<Mint>, worth: int, returned: nat)
    requires Chain(d) && |used| == |d|
  {
    var held := HeldIn(mints, |d|);
    && Chosen(d, mints, selected, used)
    && (returned == 0 && selected != [] ==> worth == target == Value(d, used) && Fits(|selected|, max))
    && (returned > 0 ==> worth == Value(d, used) && Plan(d, held, target, used, returned))
  }

  /** SelectMintsFromList, given the holding that its list amounts to. */
  method SelectMints(d: seq<nat>, target: int, worth0: int, max: int, minimize: bool, mints: seq<Mint>, held: Counts)
    returns (selected: seq<Mint>, worth: int, returned: nat, needed: nat)
    requires Chain(d) && held == HeldIn(mints, |d|)
    ensures exists used: Counts :: |used| == |d| && Outcome(d, mints, target, max, used, selected, worth, returned)
    ensures needed > 0 ==> !Fits(needed, max) && CanMeet(d, held, target)
    ensures CanMeet(d, held, target) && needed == 0 ==> returned == 0 && worth == target && Fits(|selected|, max)
    ensures CanMeet(d, held, target) ==> var n := if needed == 0 then |selected| else needed;
      forall u: Counts :: |u| == |d| && AtMost(u, held) && Value(d, u) == target ==> n <= Count(u)
    ensures !CanMeet(d, held, target) && target <= Value(d, held) && Divides(d[0], target) ==> returned > 0
    ensures returned > 0 && target >= 0 ==> selected != [] && worth > target
    ensures returned > 0 ==>
      && HeldIn(selected, |d|) == Planned(d, max, minimize, target, held).0
      && FlagKept(d, max, minimize, target, held, HeldIn(selected, |d|), returned)
      && |selected| == Count(HeldIn(selected, |d|))
      && (|selected| <= max <==> WithinLimit(d, max, minimize, target, held))
  {
    hide FlagKept, Planned, WithinLimit, Worth, Value, Count, AtMost, Change, Own, Plan, Greedy, Unused, Picked, Chosen,
         Divides;
    selected, worth, needed := [], worth0, 0;
    var exact, used := GetIdealSpends(d, target, mints);
    if exact {
      PickedIsChosen(d, mints, used);
      selected, worth := GetSpends(d, mints, used);
      PickedLength(mints, used, 0);
      EmptyCount();
      if Fits(|selected|, max) {
        returned := 0;
        return;
      }
      needed := |selected|;
    }
    used, returned := CalculateChange(d, max, minimize, target, held);
    if returned == 0 {
      selected := [];
      NothingChosen(d, mints);
      PlanIsHeld(d, held, target, used, 0);
      if target <= Value(d, held) && Divides(d[0], target) {
        ChangeIsDue(d, target, used);
        assert CanMeet(d, held, target);
      }
    } else {
      PlanIsHeld(d, held, target, used, returned);
      PickedIsChosen(d, mints, used);
      selected, worth := GetSpends(d, mints, used);
      ChosenHeld(d, mints, selected, used);
      PickedLength(mints, used, 0);
      EmptyCount();
      LimitKept(d, max, minimize, target, held);
      if target >= 0 { SpendsSomething(d, held, target, used, returned); }
    }
  }

  /** A plan with change spends more than the target. */
  lemma SpendsSomething(d: seq<nat>, held: Counts, target: nat, used: Counts, change: nat)
    requires Chain(d) && |d| == |held| && Plan(d, held, target, used, change) && change > 0
    ensures |used| == |d| && Count(used) > 0 && Value(d, used) > target
  {
    hide Chain, Worth, Value, Count, AtMost, Change;
    NoChange(d, Value(d, used) - target);
    if Count(used) == 0 { NoCoins(d, used); }
  }

  lemma EmptyCount()
    ensures forall u: Counts :: u[..0] == [] && Count(u[..0]) == 0
  {
  }

  lemma PlanIsHeld(d: seq<nat>, held: Counts, target: int, used: Counts, change: nat)
    requires Chain(d) && |d| == |held| && Plan(d, held, target, used, change)
    ensures |used| == |d| && AtMost(used, held)
    ensures target <= Value(d, held) ==> Value(d, used) >= target
    ensures change == Count(Change(d, Value(d, used) - target))
  {
  }

  lemma NothingChosen(d: seq<nat>, mints: seq<Mint>)
    ensures Chosen(d, mints, [], Zeros(|d|))
  {
    assert HeldIn([], |d|) == Zeros(|d|);
  }

  /** Coins that overshoot a whole number of the smallest coin leave change. */
  lemma ChangeIsDue(d: seq<nat>, target: int, used: Counts)
    requires Chain(d) && |used| == |d| && target <= Value(d, used) && Divides(d[0], target)
    requires Count(Change(d, Value(d, used) - target)) == 0
    ensures Value(d, used) == target
  {
    hide Worth, Value, Count, Change, Divides;
    var excess := Value(d, used) - target;
    ValueMultiple(d, used);
    DividesSum(d[0], Value(d, used), target);
    ExactChange(d, excess);
    NoCoins(d, Change(d, excess));
  }

  lemma ExactChange(d: seq<nat>, excess: nat)
    requires Chain(d) && Divides(d[0], excess)
    ensures |Change(d, excess)| == |d| && Value(d, Change(d, excess)) == excess
  {
    hide Worth, Value, Change, Quo, Rem;
    ChangeValue(d, excess);
    QuoIs(excess, d[0]);
  }

  lemma {:induction false} NoCoins(d: seq<nat>, u: Counts)
    requires |u| <= |d| && Count(u) == 0
    ensures Value(d, u) == 0
  {
    hide Worth;
    if u != [] {
      NoCoins(d, u[..|u| - 1]);
      WorthUnit(d[|u| - 1]);
    }
  }
}
