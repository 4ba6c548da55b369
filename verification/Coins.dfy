/** The unspent outputs of one transaction (src/coins.h, CCoins;
    src/primitives/transaction.h, CTxOut). */
module Coins {
  import opened Bytes

  datatype TxOut = TxOut(value: int, script: seq<Byte>, rounds: int)

  /** A spent output, as SetNull leaves it. */
  const NULL_OUT := TxOut(-1, [], -10)

  predicate IsNull(o: TxOut) {
    o.value == -1
  }

  datatype Coins = Coins(coinBase: bool, coinStake: bool, vout: seq<TxOut>, height: int, version: int)

  const CLEARED := Coins(false, false, [], 0, 0)

  predicate AllNull(vout: seq<TxOut>) {
    forall i :: 0 <= i < |vout| ==> IsNull(vout[i])
  }

  predicate IsPruned(c: Coins) {
    AllNull(c.vout)
  }

  /** Equality as the record defines it: all fully spent records are the same. */
  predicate Same(a: Coins, b: Coins) {
    (IsPruned(a) && IsPruned(b)) || a == b
  }

  predicate Tidy(vout: seq<TxOut>) {
    vout == [] || !IsNull(vout[|vout| - 1])
  }

  /** Spent outputs at the end are dropped. */
  function Trim(vout: seq<TxOut>): (r: seq<TxOut>)
    ensures Tidy(r) && r <= vout && AllNull(vout[|r|..])
    ensures AllNull(vout) <==> r == []
  {
    if Tidy(vout) then vout else Trim(vout[..|vout| - 1])
  }

  function Cleanup(c: Coins): (r: Coins)
    ensures Tidy(r.vout) && IsPruned(r) == IsPruned(c)
  {
    var r := c.(vout := Trim(c.vout));
    assert AllNull(r.vout) == AllNull(c.vout) by {
      assert c.vout == Trim(c.vout) + c.vout[|Trim(c.vout)|..];
    }
    r
  }

  /** What is dropped is spent, output by output. */
  lemma TrimTail(v: seq<TxOut>)
    ensures forall i :: |Trim(v)| <= i < |v| ==> IsNull(v[i])
  {
    hide Trim;
    var r := Trim(v);
    forall i | |r| <= i < |v| ensures IsNull(v[i]) { assert v[|r|..][i - |r|] == v[i]; }
  }

  type Txid = nat

  /** Records by the id of their transaction: the live ones and nothing else. */
  type Plain = map<Txid, Coins>

  /** Storing a record; one with nothing left in it is taken out. */
  function Put(m: Plain, id: Txid, c: Coins): Plain {
    if IsPruned(c) then m - {id} else m[id := c]
  }
}
