/** What disconnecting a block cannot bring back, told from the records before and after the block, and the block undone
    with the undo data written and read (src/main.cpp, ConnectBlock and DisconnectBlock). */
module UndoLoss {
  import opened Wrappers
  import opened Coins
  import opened CoinsSpend
  import opened CoinsRestore
  import opened CoinsUndo
  import opened UndoCodec
  import Scripts

  /** What there is of a record. */
  function Left(m: Plain, id: Txid): Option<Coins> {
    if id in m then Some(m[id]) else None
  }

  predicate Gone(left: Option<Coins>, n: nat) {
    left.Some? ==> !CanSpend(left.value, n)
  }

  /** A record loses something when an output is spent that is not stored as it is, or when it becomes empty and what it
      says about its transaction is not kept. */
  predicate Loses(c: Coins, left: Option<Coins>, r: Coins) {
    || (exists n: nat :: n < |c.vout| && CanSpend(c, n) && Gone(left, n) && !Survives(c.vout[n]))
    || (left.None? && !MetaKept(c, r))
  }

  /** Spends leave fewer outputs, and nothing else changes. */
  ghost predicate Shrunk(c: Coins, left: Option<Coins>) {
    left.Some? ==>
      && SameMeta(left.value, c)
      && forall n: nat :: CanSpend(left.value, n) ==> CanSpend(c, n) && left.value.vout[n] == c.vout[n]
  }

  /** What is lost in two steps is lost in the first or in the second. */
  lemma LosesThrough(c: Coins, a: Option<Coins>, b: Option<Coins>, r: Coins)
    requires Shrunk(c, a) && (if a.Some? then Shrunk(a.value, b) else b.None?)
    ensures Shrunk(c, b)
    ensures Loses(c, b, r) <==> Loses(c, a, r) || (a.Some? && Loses(a.value, b, r))
  {
    hide Survives;
    if Loses(c, a, r) && a.Some? {
      var n: nat :| n < |c.vout| && CanSpend(c, n) && Gone(a, n) && !Survives(c.vout[n]);
      assert Gone(b, n);
    }
    if a.Some? && Loses(a.value, b, r) && !(b.None? && !MetaKept(a.value, r)) {
      var n: nat :| n < |a.value.vout| && CanSpend(a.value, n) && Gone(b, n) && !Survives(a.value.vout[n]);
      assert CanSpend(c, n);
    }
    if Loses(c, b, r) && !(b.None? && !MetaKept(c, r)) {
      var n: nat :| n < |c.vout| && CanSpend(c, n) && Gone(b, n) && !Survives(c.vout[n]);
      assert Gone(a, n) || CanSpend(a.value, n);
    }
  }

  lemma Unchanged(c: Coins, r: Coins)
    ensures Shrunk(c, Some(c)) && !Loses(c, Some(c), r)
  {
    hide Survives;
  }

  /** One spend loses something exactly when it cannot be undone. */
  lemma SpentLoses(c: Coins, n: nat, r: Coins)
    requires CanSpend(c, n)
    ensures var s := Spent(c, n); var left := if IsPruned(s) then None else Some(s);
      Shrunk(c, left) && (Loses(c, left, r) <==> !Recoverable(c, n, r))
  {
    hide Survives, Spent, MetaKept;
    var s := Spent(c, n);
    SpentPruned(c, n);
    var left := if IsPruned(s) then None else Some(s);
    forall i: nat
      ensures CanSpend(s, i) <==> CanSpend(c, i) && i != n
      ensures CanSpend(s, i) ==> s.vout[i] == c.vout[i]
    {
      SpentLeaves(c, n, i);
    }
    SpentLeaves(c, n, n);
    assert Gone(left, n);
    forall i: nat | CanSpend(c, i) && Gone(left, i) ensures i == n {
      assert CanSpend(s, i) || i == n;
    }
  }

  lemma InputLoses(m: Plain, i: Input, stale: Txid -> Coins, id: Txid)
    requires Finds(m, i) && id in m
    ensures var left := Left(SpendInput(m, i), id);
      && Shrunk(m[id], left)
      && (Loses(m[id], left, stale(id)) <==> id == i.txid && !Recovered(m, i, stale))
  {
    hide Loses, Shrunk, Spent, CanSpend, Recoverable;
    if id == i.txid {
      SpentLoses(m[id], i.n, stale(id));
    } else {
      Unchanged(m[id], stale(id));
    }
  }

  /** The records that a transaction's inputs lose, told from before and after. */
  lemma {:induction false} LostIs(m: Plain, ins: seq<Input>, stale: Txid -> Coins, id: Txid)
    requires Found(m, ins) && id in m
    ensures var left := Left(SpendInputs(m, ins).0, id);
      Shrunk(m[id], left) && (id in Lost(m, ins, stale) <==> Loses(m[id], left, stale(id)))
    decreases |ins|
  {
    hide Loses, Shrunk, SpendInput, Finds, Recovered, UndoOf;
    if ins == [] {
      Unchanged(m[id], stale(id));
    } else {
      var m1, rest := SpendInput(m, ins[0]), ins[1..];
      InputLoses(m, ins[0], stale, id);
      SpentKeys(m1, rest, stale);
      var d := SpendInputs(m1, rest).0;
      if id in m1 { LostIs(m1, rest, stale, id); }
      LosesThrough(m[id], Left(m1, id), Left(d, id), stale(id));
    }
  }

  /** No transaction of the block brings a record of this id. */
  predicate NotMade(txs: seq<Tx>, id: Txid) {
    forall j :: 0 <= j < |txs| ==> txs[j].txid != id
  }

  lemma {:induction false} StaysGone(m: Plain, txs: seq<Tx>, id: Txid)
    requires Connectable(m, txs) && id !in m && NotMade(txs, id)
    ensures id !in ConnectBlock(m, txs).0
    decreases |txs|
  {
    hide Found, SpendInputs, RecordOk;
    if txs != [] {
      SpentKeys(m, txs[0].ins, _ => CLEARED);
      StaysGone(Connected(m, txs[0]), txs[1..], id);
    }
  }

  /** The records that a block loses, told from before and after the block. */
  lemma {:induction false} LostInBlockIs(m: Plain, txs: seq<Tx>, stale: Txid -> Coins, id: Txid)
    requires Connectable(m, txs) && id in m && NotMade(txs, id)
    ensures var left := Left(ConnectBlock(m, txs).0, id);
      Shrunk(m[id], left) && (id in LostInBlock(m, txs, stale) <==> Loses(m[id], left, stale(id)))
    decreases |txs|
  {
    hide Loses, Shrunk, Found, SpendInputs, Lost, RecordOk;
    if txs == [] {
      Unchanged(m[id], stale(id));
    } else {
      var tx, rest := txs[0], txs[1..];
      var d, m1 := SpendInputs(m, tx.ins).0, Connected(m, tx);
      LostIs(m, tx.ins, stale, id);
      ConnectedKeys(m1, rest, stale);
      assert tx.txid != id && Left(m1, id) == Left(d, id);
      if id in m1 { LostInBlockIs(m1, rest, stale, id); } else { StaysGone(m1, rest, id); }
      LosesThrough(m[id], Left(d, id), Left(ConnectBlock(m1, rest).0, id), stale(id));
    }
  }

  // ------------------------------------------------------------ nothing is lost

  ghost predicate AllSound(m: Plain) {
    forall id <- m :: Sound(m[id])
  }

  /** Inputs that spend sound records lose nothing. */
  lemma {:induction false} NoLoss(m: Plain, ins: seq<Input>, stale: Txid -> Coins)
    requires Found(m, ins) && AllSound(m)
    ensures Lost(m, ins, stale) == {} && AllSound(SpendInputs(m, ins).0)
    decreases |ins|
  {
    hide CanSpend, Spent, Sound, Recoverable, UndoOf;
    if ins != [] {
      var i := ins[0];
      SoundRecoverable(m[i.txid], i.n, stale(i.txid));
      SoundSpent(m[i.txid], i.n);
      NoLoss(SpendInput(m, i), ins[1..], stale);
    }
  }

  /** Nor does a block of transactions that are not coinstakes. */
  lemma {:induction false} NoLossInBlock(m: Plain, txs: seq<Tx>, stale: Txid -> Coins)
    requires Connectable(m, txs) && AllSound(m) && forall j :: 0 <= j < |txs| ==> Sound(txs[j].record)
    ensures LostInBlock(m, txs, stale) == {}
    decreases |txs|
  {
    hide Found, SpendInputs, Lost, Sound, RecordOk;
    if txs != [] {
      NoLoss(m, txs[0].ins, stale);
      NoLossInBlock(Connected(m, txs[0]), txs[1..], stale);
    }
  }

  // ------------------------------------------------------------ the undo data on disk

  lemma {:induction false} SpentFit(m: Plain, ins: seq<Input>)
    requires PlainOk(m) && Found(m, ins)
    ensures AllFit(SpendInputs(m, ins).1)
    decreases |ins|
  {
    hide SpendInput, Spent;
    if ins != [] {
      SpendInputOk(m, ins[0]);
      SpentFit(SpendInput(m, ins[0]), ins[1..]);
    }
  }

  lemma {:induction false} BlockFits(m: Plain, txs: seq<Tx>)
    requires PlainOk(m) && Connectable(m, txs)
    ensures forall j :: 0 <= j < |ConnectBlock(m, txs).1| ==> AllFit(ConnectBlock(m, txs).1[j])
    decreases |txs|
  {
    hide PlainOk, Found, SpendInputs, RecordOk, AllFit;
    if txs != [] {
      SpentFit(m, txs[0].ins);
      ConnectedOk(m, txs[0]);
      BlockFits(Connected(m, txs[0]), txs[1..]);
    }
  }

  /** A block connected, its undo data written and read, and disconnected again: all is as before if and only if no
      record from before the block is lost. */
  lemma StoredBlockUndone(k: Scripts.Curve, m: Plain, txs: seq<Tx>, stale: Txid -> Coins)
    requires PlainOk(m) && StaleOk(stale) && Connectable(m, txs)
    ensures var (d, uss) := ConnectBlock(m, txs);
      var data := BlockRead(k, Lengths(uss), BlockWritten(k, uss));
      && data.Some? && data.value.rest == [] && Paired(txs, data.value.value)
      && (DisconnectBlock(d, txs, data.value.value, stale) == m <==> LostInBlock(m, txs, stale) == {})
  {
    hide PlainOk, StaleOk, Connectable, ConnectBlock, DisconnectBlock, LostInBlock, BlockRead, BlockWritten, AllBacks;
    var uss := ConnectBlock(m, txs).1;
    BlockFits(m, txs);
    BlockReadWritten(k, uss, []);
    assert BlockWritten(k, uss) + [] == BlockWritten(k, uss);
    BlockUndone(m, txs, stale);
  }
}
