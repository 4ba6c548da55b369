/** Choosing the mints for a spend (src/denomination_functions.cpp). */
module CoinSelection {
  import opened Denominations
  import opened CoinChange

  /** CMintMeta, with its denomination as an index. */
  datatype Mint = Mint(id: int, denom: int, isUsed: bool)

  predicate Matches(m: Mint, coin: int) {
    !m.isUsed && m.denom == coin
  }

  /** The unused mints of one denomination, in list order. */
  function Unused(mints: seq<Mint>, coin: int): seq<Mint> {
    if mints == [] then []
    else
      var m := mints[|mints| - 1];
      Unused(mints[..|mints| - 1], coin) + (if Matches(m, coin) then [m] else [])
  }

  /** What the list holds of each denomination. */
  function HeldIn(mints: seq<Mint>, n: nat): (held: Counts)
    ensures |held| == n
  {
    seq(n, i => |Unused(mints, i)|)
  }

  // ---------------------------------------------------------- exact amounts

  /** getSpendCoins. */
  method GetSpendCoins(d: seq<nat>, target: int, held: Counts) returns (used: Counts)
    requires Chain(d) && |held| == |d|
    ensures used == Greedy(d, held, |d|, target)
  {
    hide Chain, Take, Worth, Value, Count;
    used := Zeros(|d|);
    var rest, k := target, |d|;
    while k > 0
      invariant 0 <= k <= |d| == |used|
      invariant forall i :: 0 <= i < k ==> used[i] == 0
      invariant Greedy(d, held, k, rest) + used[k..] == Greedy(d, held, |d|, target)
    {
      ghost var before := used;
      k := k - 1;
      ghost var start := rest;
      ChainPositive(d, k);
      WorthUnit(d[k]);
      while rest >= d[k] && used[k] < held[k]
        invariant |used| == |d| && used == before[k := used[k]]
        invariant used[k] <= held[k] && rest == start - Worth(d[k], used[k])
        invariant used[k] == 0 || rest >= 0
        decreases held[k] - used[k]
      {
        WorthAdd(d[k], used[k], 1);
        used := used[k := used[k] + 1];
        rest := rest - d[k];
      }
      TakeUnique(held[k], start, d[k], used[k]);
      assert used[k..] == [used[k]] + before[k + 1..];
    }
  }

  /** getChange. */
  method GetChange(d: seq<nat>, amount: int) returns (change: Counts)
    requires Chain(d)
    ensures change == Change(d, amount)
  {
    hide Chain, Take, Worth, Value, Count;
    change := Zeros(|d|);
    var rest, k := amount, |d|;
    ghost var held := Full(|d|, if amount < 0 then 0 else amount);
    while k > 0
      invariant 0 <= k <= |d| == |change| && rest <= amount
      invariant forall i :: 0 <= i < k ==> change[i] == 0
      invariant Greedy(d, held, k, rest) + change[k..] == Greedy(d, held, |d|, amount)
    {
      ghost var before := change;
      k := k - 1;
      ghost var start := rest;
      ChainPositive(d, k);
      WorthUnit(d[k]);
      while rest >= d[k]
        invariant |change| == |d| && change == before[k := change[k]]
        invariant rest == start - Worth(d[k], change[k])
        invariant change[k] == 0 || rest >= 0
      {
        WorthAdd(d[k], change[k], 1);
        change := change[k := change[k] + 1];
        rest := rest - d[k];
      }
      CoinsBelowAmount(d[k], change[k]);
      TakeUnique(held[k], start, d[k], change[k]);
      assert change[k..] == [change[k]] + before[k + 1..];
    }
  }

  /** The scan of getIdealSpends over the list for one denomination. */
  method TakeFromList(mints: seq<Mint>, coin: nat, v: nat, start: int) returns (n: nat, rest: int)
    requires v > 0
    ensures n == Take(|Unused(mints, coin)|, start, v) && rest == start - Worth(v, n)
  {
    hide Take, Worth;
    n, rest := 0, start;
    WorthUnit(v);
    var j := 0;
    while j < |mints| && (mints[j].isUsed || rest >= v)
      invariant 0 <= j <= |mints|
      invariant n == |Unused(mints[..j], coin)| && rest == start - Worth(v, n)
      invariant n == 0 || rest >= 0
    {
      assert mints[..j + 1][..j] == mints[..j];
      if Matches(mints[j], coin) {
        WorthAdd(v, n, 1);
        n, rest := n + 1, rest - v;
      }
      j := j + 1;
    }
    assert mints[..|mints|] == mints;
    UnusedPrefix(mints, j, coin);
    TakeUnique(|Unused(mints, coin)|, start, v, n);
  }

  lemma {:induction false} UnusedPrefix(mints: seq<Mint>, j: nat, coin: int)
    requires j <= |mints|
    ensures Unused(mints[..j], coin) <= Unused(mints, coin)
  {
    if j < |mints| {
      UnusedPrefix(mints[..|mints| - 1], j, coin);
      assert mints[..|mints| - 1][..j] == mints[..j];
    } else {
      assert mints[..j] == mints;
    }
  }

  /** Coins within what is held that are worth exactly the target. */
  ghost predicate CanMeet(d: seq<nat>, held: Counts, target: int)
    requires |d| == |held|
  {
    exists u: Counts :: |u| == |d| && AtMost(u, held) && Value(d, u) == target
  }

  /** getIdealSpends: the exact selection with the fewest coins, found whenever there is one. */
  method GetIdealSpends(d: seq<nat>, target: int, mints: seq<Mint>) returns (ok: bool, used: Counts)
    requires Chain(d)
    ensures used == Greedy(d, HeldIn(mints, |d|), |d|, target)
    ensures ok <==> CanMeet(d, HeldIn(mints, |d|), target)
    ensures ok ==> Value(d, used) == target && AtMost(used, HeldIn(mints, |d|))
    ensures forall u: Counts :: |u| == |d| && AtMost(u, HeldIn(mints, |d|)) && Value(d, u) == target ==>
      Count(used) <= Count(u)
  {
    hide Chain, Take, Worth, AtMost, Value, Count, Unused;
    ghost var held := HeldIn(mints, |d|);
    used := Zeros(|d|);
    var rest, k := target, |d|;
    ValueZeros(d, |d|);
    while k > 0
      invariant 0 <= k <= |d| == |used|
      invariant forall i :: 0 <= i < k ==> used[i] == 0
      invariant Greedy(d, held, k, rest) + used[k..] == Greedy(d, held, |d|, target)
      invariant rest == target - Value(d, used)
    {
      ghost var before := used;
      k := k - 1;
      ChainPositive(d, k);
      var n, left := TakeFromList(mints, k, d[k], rest);
      used := used[k := n];
      ValueUpdate(d, before, k, n);
      WorthUnit(d[k]);
      rest := left;
      assert used[k..] == [n] + before[k + 1..];
    }
    ok := rest == 0;
    IdealIsBest(d, held, target, used);
  }

  lemma IdealIsBest(d: seq<nat>, held: Counts, target: int, used: Counts)
    requires Chain(d) && |held| == |d| && used == Greedy(d, held, |d|, target)
    ensures AtMost(used, held)
    ensures Value(d, used) == target <==> CanMeet(d, held, target)
    ensures forall u: Counts :: |u| == |d| && AtMost(u, held) && Value(d, u) == target ==> Count(used) <= Count(u)
  {
    hide Chain, Take, Worth, AtMost, Value, Count;
    GreedyBounds(d, held, |d|, target);
    assert held[..|d|] == held;
    forall u: Counts | |u| == |d| && AtMost(u, held) && Value(d, u) == target
      ensures Value(d, used) == target && Count(used) <= Count(u)
    {
      GreedyIsBest(d, held, u, target);
    }
  }

  // ------------------------------------------------------------ taking mints

  /** So many mints of a list, which is gone through again when it is too short. */
  function Rounds(list: seq<Mint>, want: nat): seq<Mint>
    requires want > 0 ==> list != []
    decreases want
  {
    if want <= |list| then list[..want] else list + Rounds(list, want - |list|)
  }

  /** Some mint is there for every denomination that is asked for. */
  ghost predicate Covered(mints: seq<Mint>, used: Counts) {
    forall i :: 0 <= i < |used| ==> (used[i] > 0 ==> Unused(mints, i) != [])
  }

  /** The mints getSpends returns: of each denomination from the highest down, the first unused ones. */
  function Picked(mints: seq<Mint>, used: Counts, n: nat): seq<Mint>
    requires n <= |used| && Covered(mints, used)
    decreases |used| - n
  {
    if n == |used| then [] else Picked(mints, used, n + 1) + Rounds(Unused(mints, n), used[n])
  }

  /** One pass of getSpends over the list for one denomination. */
  method PickPass(mints: seq<Mint>, coin: nat, v: nat, want: nat) returns (picked: seq<Mint>, worth: nat, left: nat)
    ensures worth == Worth(v, |picked|)
    ensures left + |picked| == want
    ensures picked == if want <= |Unused(mints, coin)| then Unused(mints, coin)[..want] else Unused(mints, coin)
  {
    hide Worth;
    picked, worth, left := [], 0, want;
    WorthUnit(v);
    for j := 0 to |mints|
      invariant left + |picked| == want && worth == Worth(v, |picked|)
      invariant left > 0 ==> picked == Unused(mints[..j], coin)
      invariant left == 0 ==> want <= |Unused(mints[..j], coin)| && picked == Unused(mints[..j], coin)[..want]
    {
      assert mints[..j + 1][..j] == mints[..j];
      if Matches(mints[j], coin) && left != 0 {
        WorthAdd(v, |picked|, 1);
        picked := picked + [mints[j]];
        worth := worth + v;
        left := left - 1;
      }
    }
    assert mints[..|mints|] == mints;
  }

  /** getSpends. Asked for more than the list has, it takes the same mints again; only when the list has none at all of
      a denomination it would go round for ever. */
  method GetSpends(d: seq<nat>, mints: seq<Mint>, used: Counts) returns (selected: seq<Mint>, spent: nat)
    requires Chain(d) && |used| == |d| && Covered(mints, used)
    ensures selected == Picked(mints, used, 0)
    ensures spent == Value(d, used)
  {
    hide Chain, Worth, Value, Count, Unused, Rounds;
    selected, spent := [], 0;
    var k := |d|;
    ghost var done := Zeros(|d|);
    ValueZeros(d, |d|);
    while k > 0
      invariant 0 <= k <= |d| == |done|
      invariant selected == Picked(mints, used, k)
      invariant done[..k] == Zeros(k) && done[k..] == used[k..]
      invariant spent == Value(d, done)
    {
      k := k - 1;
      var more, worth := PickRounds(mints, k, d[k], used[k]);
      selected := selected + more;
      spent := spent + worth;
      ValueUpdate(d, done, k, used[k]);
      WorthUnit(d[k]);
      done := done[k := used[k]];
    }
    assert done == used;
  }

  /** The passes of getSpends for one denomination. */
  method PickRounds(mints: seq<Mint>, coin: nat, v: nat, want: nat) returns (picked: seq<Mint>, worth: nat)
    requires want > 0 ==> Unused(mints, coin) != []
    ensures picked == Rounds(Unused(mints, coin), want) && worth == Worth(v, want)
  {
    hide Worth, Unused;
    picked, worth := [], 0;
    var left: nat, again := want, true;
    WorthUnit(v);
    while again
      invariant left <= want && (!again ==> left == 0)
      invariant picked + Rounds(Unused(mints, coin), left) == Rounds(Unused(mints, coin), want)
      invariant worth + Worth(v, left) == Worth(v, want)
      decreases left, again
    {
      var pass: seq<Mint>, value: nat;
      pass, value, left := PickPass(mints, coin, v, left);
      WorthAdd(v, |pass|, left);
      picked := picked + pass;
      worth := worth + value;
      again := left != 0;
    }
    assert picked + [] == picked;
  }

  /** Only unused mints are taken, of the denominations asked for. */
  lemma {:induction false} PickedRange(mints: seq<Mint>, used: Counts, n: nat)
    requires n <= |used| && AtMost(used, HeldIn(mints, |used|))
    ensures Covered(mints, used)
    ensures forall m :: m in Picked(mints, used, n) ==> !m.isUsed && n <= m.denom < |used|
    decreases |used| - n
  {
    HeldCovers(mints, used);
    if n < |used| {
      PickedStep(mints, used, n);
      PickedRange(mints, used, n + 1);
      PrefixMatches(mints, n, used[n]);
    }
  }

  /** As many of each denomination are taken as asked for. */
  lemma {:induction false} PickedCounts(mints: seq<Mint>, used: Counts, n: nat, i: nat)
    requires n <= i < |used| && AtMost(used, HeldIn(mints, |used|))
    ensures Covered(mints, used)
    ensures |Unused(Picked(mints, used, n), i)| == used[i]
    decreases |used| - n
  {
    hide Unused, Picked;
    HeldCovers(mints, used);
    var high, low := Picked(mints, used, n + 1), Unused(mints, n)[..used[n]];
    PickedStep(mints, used, n);
    PickedRange(mints, used, n + 1);
    PrefixMatches(mints, n, used[n]);
    UnusedAppend(high, low, i);
    if i == n {
      UnusedNone(high, n);
      UnusedAll(low, n);
    } else {
      UnusedNone(low, i);
      PickedCounts(mints, used, n + 1, i);
    }
  }

  /** Where no more are used than held, there are unused mints enough. */
  lemma HeldCovers(mints: seq<Mint>, used: Counts)
    requires AtMost(used, HeldIn(mints, |used|))
    ensures Covered(mints, used)
  {
  }

  lemma PickedStep(mints: seq<Mint>, used: Counts, n: nat)
    requires n < |used| && AtMost(used, HeldIn(mints, |used|))
    ensures Covered(mints, used)
    ensures used[n] <= |Unused(mints, n)|
    ensures Picked(mints, used, n) == Picked(mints, used, n + 1) + Unused(mints, n)[..used[n]]
  {
  }

  /** No mint is taken more often than it is in the list. */
  lemma {:induction false} PickedFromList(mints: seq<Mint>, used: Counts, n: nat, m: Mint)
    requires n <= |used| && AtMost(used, HeldIn(mints, |used|))
    ensures Covered(mints, used)
    ensures multiset(Picked(mints, used, n))[m] <= multiset(mints)[m]
    decreases |used| - n
  {
    hide Unused, Rounds;
    HeldCovers(mints, used);
    if n < |used| {
      PickedStep(mints, used, n);
      var high, low := Picked(mints, used, n + 1), Unused(mints, n)[..used[n]];
      PickedFromList(mints, used, n + 1, m);
      PickedRange(mints, used, n + 1);
      PrefixMatches(mints, n, used[n]);
      UnusedCounted(mints, n, m);
      assert Unused(mints, n) == low + Unused(mints, n)[used[n]..];
      Apart(high, low, m);
    }
  }

  lemma Apart(high: seq<Mint>, low: seq<Mint>, m: Mint)
    requires m in high ==> m !in low
    ensures multiset(high + low)[m] == if m in low then multiset(low)[m] else multiset(high)[m]
  {
    if m in low {
      assert m !in high;
      assert multiset(high)[m] == 0;
    } else {
      assert multiset(low)[m] == 0;
    }
  }

  lemma {:induction false} UnusedMatches(mints: seq<Mint>, coin: int)
    ensures forall m :: m in Unused(mints, coin) ==> Matches(m, coin)
  {
    if mints != [] { UnusedMatches(mints[..|mints| - 1], coin); }
  }

  lemma PrefixMatches(mints: seq<Mint>, coin: int, n: nat)
    requires n <= |Unused(mints, coin)|
    ensures forall m :: m in Unused(mints, coin)[..n] ==> Matches(m, coin)
  {
    hide Unused;
    UnusedMatches(mints, coin);
    forall m | m in Unused(mints, coin)[..n] ensures Matches(m, coin) {
      assert m in Unused(mints, coin);
    }
  }

  lemma {:induction false} UnusedAppend(a: seq<Mint>, b: seq<Mint>, coin: int)
    ensures Unused(a + b, coin) == Unused(a, coin) + Unused(b, coin)
  {
    if b == [] {
      assert a + b == a;
    } else {
      UnusedAppend(a, b[..|b| - 1], coin);
      assert (a + b)[..|a + b| - 1] == a + b[..|b| - 1];
    }
  }

  lemma {:induction false} UnusedNone(mints: seq<Mint>, coin: int)
    requires forall m :: m in mints ==> !Matches(m, coin)
    ensures Unused(mints, coin) == []
  {
    if mints != [] { UnusedNone(mints[..|mints| - 1], coin); }
  }

  lemma {:induction false} UnusedAll(mints: seq<Mint>, coin: int)
    requires forall m :: m in mints ==> Matches(m, coin)
    ensures Unused(mints, coin) == mints
  {
    if mints != [] { UnusedAll(mints[..|mints| - 1], coin); }
  }

  lemma {:induction false} UnusedCounted(mints: seq<Mint>, coin: int, m: Mint)
    ensures multiset(Unused(mints, coin))[m] <= multiset(mints)[m]
  {
    if mints != [] {
      UnusedCounted(mints[..|mints| - 1], coin, m);
      assert mints == mints[..|mints| - 1] + [mints[|mints| - 1]];
    }
  }
}
