/** What the coins are after a block: which outputs can be spent, and in which records (src/main.cpp, UpdateCoins). */
module CoinsBlocks {
  import opened Wrappers
  import opened Coins
  import opened CoinsSpend
  import opened CoinsUndo
  import opened UndoLoss

  predicate Available(m: Plain, id: Txid, n: nat) {
    id in m && CanSpend(m[id], n)
  }

  /** The output and what its record says about its transaction are those of another record. */
  predicate AsIn(m: Plain, id: Txid, n: nat, c: Coins)
    requires Available(m, id, n)
  {
    n < |c.vout| && m[id].vout[n] == c.vout[n] && SameMeta(m[id], c)
  }

  lemma SpentAvailable(m: Plain, i: Input, id: Txid, n: nat)
    requires Finds(m, i)
    ensures var d := SpendInput(m, i);
      && (Available(d, id, n) <==> Available(m, id, n) && Input(id, n) != i)
      && (Available(d, id, n) ==> AsIn(d, id, n, m[id]))
  {
    hide Spent;
    if id == i.txid {
      SpentLeaves(m[id], i.n, n);
      var s := Spent(m[id], i.n);
      if IsPruned(s) { NotAvailable(s, n); }
    }
  }

  lemma NotAvailable(c: Coins, n: nat)
    requires IsPruned(c)
    ensures !CanSpend(c, n)
  {
  }

  /** After the inputs of a transaction, exactly the outputs they name are gone. */
  lemma {:induction false} InputsTake(m: Plain, ins: seq<Input>, id: Txid, n: nat)
    requires Found(m, ins)
    ensures var d := SpendInputs(m, ins).0;
      && (Available(d, id, n) <==> Available(m, id, n) && Input(id, n) !in ins)
      && (Available(d, id, n) ==> AsIn(d, id, n, m[id]))
    decreases |ins|
  {
    hide SpendInput, Finds, UndoOf;
    if ins != [] {
      SpentAvailable(m, ins[0], id, n);
      InputsTake(SpendInput(m, ins[0]), ins[1..], id, n);
      assert ins == [ins[0]] + ins[1..];
    }
  }

  /** The last transaction of the block that makes a record under an id. */
  function LastMaker(txs: seq<Tx>, id: Txid): (j: int)
    ensures -1 <= j < |txs| && (j >= 0 ==> txs[j].txid == id)
    ensures forall i :: j < i < |txs| ==> txs[i].txid != id
  {
    if txs == [] then -1
    else if txs[|txs| - 1].txid == id then |txs| - 1
    else LastMaker(txs[..|txs| - 1], id)
  }

  /** The record that an id stands for: that of its last maker, and otherwise the one from before the block. */
  function Origin(m: Plain, txs: seq<Tx>, id: Txid): Option<Coins> {
    var j := LastMaker(txs, id);
    if j >= 0 then Some(txs[j].record) else Left(m, id)
  }

  /** Some transaction from the given one on spends the output. */
  ghost predicate SpentFrom(txs: seq<Tx>, from: int, id: Txid, n: nat) {
    exists i :: from <= i < |txs| && 0 <= i && Input(id, n) in txs[i].ins
  }

  lemma MakerLater(txs: seq<Tx>, id: Txid)
    requires txs != []
    ensures var j := LastMaker(txs[1..], id);
      LastMaker(txs, id) == if j >= 0 then j + 1 else if txs[0].txid == id then 0 else -1
  {
    var j, k := LastMaker(txs[1..], id), LastMaker(txs, id);
    if k >= 1 { assert txs[1..][k - 1].txid == id; }
    if j >= 0 { assert txs[j + 1].txid == id; }
  }

  lemma SpentLater(txs: seq<Tx>, from: int, id: Txid, n: nat)
    requires txs != [] && from >= 0
    ensures SpentFrom(txs, from + 1, id, n) <==> SpentFrom(txs[1..], from, id, n)
    ensures SpentFrom(txs, 0, id, n) <==> Input(id, n) in txs[0].ins || SpentFrom(txs[1..], 0, id, n)
  {
    var rest := txs[1..];
    forall i | 0 <= i < |rest| ensures rest[i] == txs[i + 1] {}
    if i :| from + 1 <= i < |txs| && Input(id, n) in txs[i].ins { assert Input(id, n) in rest[i - 1].ins; }
    if i :| from <= i < |rest| && Input(id, n) in rest[i].ins { assert Input(id, n) in txs[i + 1].ins; }
    if i :| 0 < i < |txs| && Input(id, n) in txs[i].ins { assert Input(id, n) in rest[i - 1].ins; }
    if i :| 0 <= i < |rest| && Input(id, n) in rest[i].ins { assert Input(id, n) in txs[i + 1].ins; }
    if Input(id, n) in txs[0].ins { assert 0 <= 0 < |txs|; }
  }

  /** After a block an output can be spent if and only if it could be in the record its id stands for and no later
      transaction of the block spends it; and then it is that output, in a record that says the same about its
      transaction. */
  lemma {:induction false} BlockLeaves(m: Plain, txs: seq<Tx>, id: Txid, n: nat)
    requires Connectable(m, txs)
    ensures var d := ConnectBlock(m, txs).0; var o := Origin(m, txs, id);
      && (Available(d, id, n) <==>
          o.Some? && CanSpend(o.value, n) && !SpentFrom(txs, LastMaker(txs, id) + 1, id, n))
      && (Available(d, id, n) ==> AsIn(d, id, n, o.value))
    decreases |txs|
  {
    hide Found, SpendInputs, RecordOk, SpentFrom, LastMaker, IsPruned;
    if txs == [] {
      NothingSpent(txs, id, n);
    } else {
      var tx, rest := txs[0], txs[1..];
      var m1 := Connected(m, tx);
      BlockLeaves(m1, rest, id, n);
      MakerLater(txs, id);
      var j := LastMaker(rest, id);
      SpentLater(txs, j + 1, id, n);
      if j >= 0 {
        assert rest[j] == txs[j + 1];
      } else if tx.txid == id {
        if IsPruned(tx.record) { NotAvailable(tx.record, n); }
      } else {
        InputsTake(m, tx.ins, id, n);
      }
    }
  }

  lemma NothingSpent(txs: seq<Tx>, id: Txid, n: nat)
    requires txs == []
    ensures !SpentFrom(txs, 0, id, n) && LastMaker(txs, id) == -1
  {
  }

  /** And nothing else is there: every record left has an output that can be spent. */
  lemma {:induction false} NoneEmpty(m: Plain, txs: seq<Tx>)
    requires PlainOk(m) && Connectable(m, txs)
    ensures PlainOk(ConnectBlock(m, txs).0)
    ensures forall id <- ConnectBlock(m, txs).0 :: exists n: nat :: Available(ConnectBlock(m, txs).0, id, n)
    decreases |txs|
  {
    hide Found, SpendInputs, RecordOk;
    if txs == [] {
      forall id | id in m ensures exists n: nat :: Available(m, id, n) { HasOutput(m, id); }
    } else {
      ConnectedOk(m, txs[0]);
      NoneEmpty(Connected(m, txs[0]), txs[1..]);
    }
  }

  lemma HasOutput(m: Plain, id: Txid)
    requires id in m && !IsPruned(m[id])
    ensures exists n: nat :: Available(m, id, n)
  {
    var n: nat :| n < |m[id].vout| && !IsNull(m[id].vout[n]);
    assert Available(m, id, n);
  }
}
