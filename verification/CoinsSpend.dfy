/** Spending outputs of a record with undo information (src/coins.cpp, Spend; src/main.cpp, UpdateCoins). */
module CoinsSpend {
  import opened Coins

  /** The output before it was spent and, if it was the last one, what the record said about its transaction. */
  datatype Undo = Undo(out: TxOut, coinBase: bool, coinStake: bool, height: int, version: int)

  predicate CanSpend(c: Coins, n: nat) {
    n < |c.vout| && !IsNull(c.vout[n])
  }

  function Spent(c: Coins, n: nat): Coins
    requires CanSpend(c, n)
  {
    Cleanup(c.(vout := c.vout[n := NULL_OUT]))
  }

  function UndoOf(c: Coins, n: nat): Undo
    requires CanSpend(c, n)
  {
    if Spent(c, n).vout == [] then Undo(c.vout[n], c.coinBase, c.coinStake, c.height, c.version)
    else Undo(c.vout[n], false, false, 0, 0)
  }

  /** The record as it runs: outputs are popped and overwritten in place. */
  class Record {
    var coinBase: bool
    var coinStake: bool
    var vout: seq<TxOut>
    var height: int
    var version: int

    ghost function Model(): Coins
      reads this
    {
      Coins(coinBase, coinStake, vout, height, version)
    }

    method CleanUp()
      modifies this
      ensures Model() == Cleanup(old(Model()))
    {
      while |vout| > 0 && IsNull(vout[|vout| - 1])
        invariant Model() == old(Model()).(vout := vout) && Trim(vout) == Trim(old(vout))
      {
        vout := vout[..|vout| - 1];
      }
    }

    method Spend(n: nat) returns (ok: bool, undo: Undo)
      modifies this
      ensures ok <==> CanSpend(old(Model()), n)
      ensures ok ==> Model() == Spent(old(Model()), n) && undo == UndoOf(old(Model()), n)
      ensures !ok ==> Model() == old(Model())
    {
      undo := Undo(NULL_OUT, false, false, 0, 0);
      if n >= |vout| { return false, undo; }
      if IsNull(vout[n]) { return false, undo; }
      undo := undo.(out := vout[n]);
      vout := vout[n := NULL_OUT];
      CleanUp();
      if |vout| == 0 {
        undo := undo.(height := height, coinBase := coinBase, coinStake := coinStake, version := version);
      }
      ok := true;
    }
  }

  // ---------------------------------------------------------- many spends

  /** The value of the outputs that are left. */
  function Value(vout: seq<TxOut>): int {
    if vout == [] then 0
    else Value(vout[..|vout| - 1]) + if IsNull(vout[|vout| - 1]) then 0 else vout[|vout| - 1].value
  }

  lemma {:induction false} ValueUpdate(vout: seq<TxOut>, n: nat, o: TxOut)
    requires n < |vout| && !IsNull(vout[n]) && IsNull(o)
    ensures Value(vout[n := o]) == Value(vout) - vout[n].value
  {
    var last := |vout| - 1;
    if n < last {
      assert vout[n := o][..last] == vout[..last][n := o];
      ValueUpdate(vout[..last], n, o);
    } else {
      assert vout[n := o][..last] == vout[..last];
    }
  }

  lemma {:induction false} ValueTrim(vout: seq<TxOut>)
    ensures Value(Trim(vout)) == Value(vout)
  {
    if !Tidy(vout) { ValueTrim(vout[..|vout| - 1]); }
  }

  lemma SpentValue(c: Coins, n: nat)
    requires CanSpend(c, n)
    ensures Value(Spent(c, n).vout) == Value(c.vout) - c.vout[n].value
  {
    ValueUpdate(c.vout, n, NULL_OUT);
    ValueTrim(c.vout[n := NULL_OUT]);
  }

  /** An output is available after a spend exactly when it was before and is not the one spent. */
  lemma SpentLeaves(c: Coins, n: nat, i: nat)
    requires CanSpend(c, n)
    ensures CanSpend(Spent(c, n), i) <==> CanSpend(c, i) && i != n
    ensures CanSpend(Spent(c, n), i) ==> Spent(c, n).vout[i] == c.vout[i]
    ensures Spent(c, n) == c.(vout := Spent(c, n).vout)
  {
    var v := c.vout[n := NULL_OUT];
    var r := Trim(v);
    assert v == r + v[|r|..];
    if |r| <= i < |v| { assert IsNull(v[|r|..][i - |r|]); }
  }

  datatype Result = Refused | Done(undo: Undo)

  /** A run of spends of one record, one result for each. */
  function SpendAll(c: Coins, ns: seq<nat>): (Coins, seq<Result>)
    decreases |ns|
  {
    if ns == [] then (c, [])
    else if !CanSpend(c, ns[0]) then
      var (d, rs) := SpendAll(c, ns[1..]);
      (d, [Refused] + rs)
    else
      var (d, rs) := SpendAll(Spent(c, ns[0]), ns[1..]);
      (d, [Done(UndoOf(c, ns[0]))] + rs)
  }

  function UndoValue(rs: seq<Result>): int {
    if rs == [] then 0 else (if rs[0].Done? then rs[0].undo.out.value else 0) + UndoValue(rs[1..])
  }

  /** Over any run of spends no value is lost: what is left and what the undo records hold add up to the start. */
  lemma {:induction false} ValueConserved(c: Coins, ns: seq<nat>)
    ensures var (d, rs) := SpendAll(c, ns);
      |rs| == |ns| && Value(d.vout) + UndoValue(rs) == Value(c.vout)
    decreases |ns|
  {
    hide Spent, UndoOf, Value;
    if ns != [] {
      if CanSpend(c, ns[0]) {
        ValueConserved(Spent(c, ns[0]), ns[1..]);
        SpentValue(c, ns[0]);
        UndoHolds(c, ns[0]);
        assert SpendAll(c, ns).1[1..] == SpendAll(Spent(c, ns[0]), ns[1..]).1;
      } else {
        ValueConserved(c, ns[1..]);
        assert SpendAll(c, ns).1[1..] == SpendAll(c, ns[1..]).1;
      }
    }
  }

  lemma UndoHolds(c: Coins, n: nat)
    requires CanSpend(c, n)
    ensures UndoOf(c, n).out == c.vout[n]
  {
  }

  /** An output that is not available never becomes so, and each index is spent at most once. */
  lemma {:induction false} SpentOnce(c: Coins, ns: seq<nat>, i: nat, j: nat)
    requires i < j < |ns| && ns[i] == ns[j]
    ensures var rs := SpendAll(c, ns).1; |rs| == |ns| && !(rs[i].Done? && rs[j].Done?)
    decreases |ns|
  {
    hide Spent, UndoOf, CanSpend;
    ValueConserved(c, ns);
    var d := if CanSpend(c, ns[0]) then Spent(c, ns[0]) else c;
    ValueConserved(d, ns[1..]);
    if i > 0 {
      SpentOnce(d, ns[1..], i - 1, j - 1);
    } else if CanSpend(c, ns[0]) {
      SpentLeaves(c, ns[0], ns[0]);
      StaysSpent(d, ns[1..], j - 1);
    }
  }

  lemma {:induction false} StaysSpent(c: Coins, ns: seq<nat>, j: nat)
    requires j < |ns| && !CanSpend(c, ns[j])
    ensures var rs := SpendAll(c, ns).1; |rs| == |ns| && rs[j].Refused?
    decreases |ns|
  {
    hide Spent, UndoOf, CanSpend;
    ValueConserved(c, ns);
    var d := if CanSpend(c, ns[0]) then Spent(c, ns[0]) else c;
    ValueConserved(d, ns[1..]);
    if j > 0 {
      if CanSpend(c, ns[0]) { SpentLeaves(c, ns[0], ns[j]); }
      StaysSpent(d, ns[1..], j - 1);
    }
  }

  // --------------------------------------------------- what undo records hold

  /** Spent outputs inside a record look as SetNull leaves them. */
  predicate Canonical(c: Coins) {
    Tidy(c.vout) && forall i :: 0 <= i < |c.vout| && IsNull(c.vout[i]) ==> c.vout[i] == NULL_OUT
  }

  predicate SameMeta(a: Coins, b: Coins) {
    a.coinBase == b.coinBase && a.coinStake == b.coinStake && a.height == b.height && a.version == b.version
  }

  lemma SpentCanonical(c: Coins, n: nat)
    requires Canonical(c) && CanSpend(c, n)
    ensures Canonical(Spent(c, n))
  {
    var v := c.vout[n := NULL_OUT];
    var r := Trim(v);
    forall i | 0 <= i < |r| && IsNull(r[i]) ensures r[i] == NULL_OUT { assert r[i] == v[i]; }
  }

  function Nulls(n: nat): seq<TxOut> {
    seq(n, _ => NULL_OUT)
  }

  /** The outputs come back as they were. */
  lemma RestoredOutputs(vout: seq<TxOut>, n: nat)
    requires n < |vout| && Tidy(vout) && !IsNull(vout[n])
    requires forall i :: 0 <= i < |vout| && IsNull(vout[i]) ==> vout[i] == NULL_OUT
    ensures var r := Trim(vout[n := NULL_OUT]);
      var p := if |r| < n + 1 then r + Nulls(n + 1 - |r|) else r;
      |p| > n && p[n := vout[n]] == vout
  {
    hide Trim;
    var v := vout[n := NULL_OUT];
    var r := Trim(v);
    var p := if |r| < n + 1 then r + Nulls(n + 1 - |r|) else r;
    TrimTail(v);
    assert n < |vout| - 1 ==> !IsNull(v[|v| - 1]);
    assert |p| == |v|;
    forall i | 0 <= i < |v| ensures p[i] == v[i] {
      if i < |r| { assert r[i] == v[i]; } else { assert IsNull(v[i]); }
    }
    assert p == v;
  }

  /** Nothing is missing from the undo record itself: with what is left it determines the record, coinstakes
      included. */
  lemma UndoDetermines(a: Coins, b: Coins, n: nat)
    requires Canonical(a) && Canonical(b) && CanSpend(a, n) && CanSpend(b, n)
    requires Same(Spent(a, n), Spent(b, n)) && UndoOf(a, n) == UndoOf(b, n)
    ensures a == b
  {
    hide Trim;
    SpentPruned(a, n);
    SpentPruned(b, n);
    RestoredOutputs(a.vout, n);
    RestoredOutputs(b.vout, n);
  }

  lemma SpentPruned(c: Coins, n: nat)
    requires CanSpend(c, n)
    ensures IsPruned(Spent(c, n)) <==> Spent(c, n).vout == []
  {
  }

  /** Over any run of spends, what is left and the undo records determine the record there was. */
  lemma {:induction false} UndosDetermine(a: Coins, b: Coins, ns: seq<nat>)
    requires Canonical(a) && Canonical(b)
    requires Same(SpendAll(a, ns).0, SpendAll(b, ns).0) && SpendAll(a, ns).1 == SpendAll(b, ns).1
    ensures Same(a, b)
    decreases |ns|
  {
    hide Spent, UndoOf, CanSpend, Canonical, Same;
    if ns != [] {
      var n := ns[0];
      assert SpendAll(a, ns).1[0] == SpendAll(b, ns).1[0];
      assert SpendAll(a, ns).1[1..] == SpendAll(b, ns).1[1..];
      assert CanSpend(a, n) == CanSpend(b, n);
      if CanSpend(a, n) {
        SpentCanonical(a, n);
        SpentCanonical(b, n);
        assert SpendAll(a, ns).1[1..] == SpendAll(Spent(a, n), ns[1..]).1;
        assert SpendAll(b, ns).1[1..] == SpendAll(Spent(b, n), ns[1..]).1;
        UndosDetermine(Spent(a, n), Spent(b, n), ns[1..]);
        UndoDetermines(a, b, n);
        SameSelf(a);
      } else {
        assert SpendAll(a, ns).1[1..] == SpendAll(a, ns[1..]).1;
        assert SpendAll(b, ns).1[1..] == SpendAll(b, ns[1..]).1;
        UndosDetermine(a, b, ns[1..]);
      }
    }
  }

  lemma SameSelf(c: Coins)
    ensures Same(c, c)
  {
  }

  lemma TrimTidy(vout: seq<TxOut>)
    requires Tidy(vout)
    ensures Trim(vout) == vout
  {
  }
}
