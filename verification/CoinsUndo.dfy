/** The inputs of transactions and blocks spent, and restored from the stored undo records when the block is
    disconnected (src/main.cpp, UpdateCoins and DisconnectBlock). */
module CoinsUndo {
  import opened Coins
  import opened CoinsSpend
  import opened CoinsRestore
  import opened UndoCodec
  import CoinsCodec

  datatype Input = Input(txid: Txid, n: nat)

  /** The record a modifier opens: `stale` is what may be left of a record that has nothing in it. */
  function Open(m: Plain, id: Txid, stale: Txid -> Coins): Coins {
    if id in m then m[id] else stale(id)
  }

  /** Records as blocks leave them. */
  predicate RecordOk(c: Coins) {
    Canonical(c) && 0 <= c.height < HEIGHTS
  }

  ghost predicate PlainOk(m: Plain) {
    forall id <- m :: RecordOk(m[id]) && !IsPruned(m[id])
  }

  ghost predicate StaleOk(stale: Txid -> Coins) {
    forall id :: stale(id).vout == []
  }

  // --------------------------------------------------------- one transaction

  predicate Finds(m: Plain, i: Input) {
    i.txid in m && CanSpend(m[i.txid], i.n)
  }

  function SpendInput(m: Plain, i: Input): Plain
    requires Finds(m, i)
  {
    Put(m, i.txid, Spent(m[i.txid], i.n))
  }

  function RestoreInput(m: Plain, i: Input, u: Undo, stale: Txid -> Coins): Plain {
    Put(m, i.txid, Cleanup(Restore(Open(m, i.txid, stale), i.n, u)))
  }

  /** Every input finds its output, as UpdateCoins asserts. */
  predicate Found(m: Plain, ins: seq<Input>)
    decreases |ins|
  {
    ins != [] ==> Finds(m, ins[0]) && Found(SpendInput(m, ins[0]), ins[1..])
  }

  function SpendInputs(m: Plain, ins: seq<Input>): (Plain, seq<Undo>)
    requires Found(m, ins)
    decreases |ins|
  {
    if ins == [] then (m, [])
    else
      var (d, us) := SpendInputs(SpendInput(m, ins[0]), ins[1..]);
      (d, [UndoOf(m[ins[0].txid], ins[0].n)] + us)
  }

  /** Inputs are restored last to first. */
  function RestoreInputs(m: Plain, ins: seq<Input>, us: seq<Undo>, stale: Txid -> Coins): Plain
    requires |us| == |ins|
    decreases |ins|
  {
    if ins == [] then m else RestoreInput(RestoreInputs(m, ins[1..], us[1..], stale), ins[0], us[0], stale)
  }

  predicate Recovered(m: Plain, i: Input, stale: Txid -> Coins)
    requires Finds(m, i)
  {
    Recoverable(m[i.txid], i.n, stale(i.txid))
  }

  /** Every record that an input changes can be brought back. */
  predicate Recovers(m: Plain, ins: seq<Input>, stale: Txid -> Coins)
    requires Found(m, ins)
    decreases |ins|
  {
    ins != [] ==> Recovered(m, ins[0], stale) && Recovers(SpendInput(m, ins[0]), ins[1..], stale)
  }

  /** The records that an input changes beyond recovery. */
  function Lost(m: Plain, ins: seq<Input>, stale: Txid -> Coins): set<Txid>
    requires Found(m, ins)
    decreases |ins|
  {
    if ins == [] then {}
    else Lost(SpendInput(m, ins[0]), ins[1..], stale) + if Recovered(m, ins[0], stale) then {} else {ins[0].txid}
  }

  lemma {:induction false} NoneLost(m: Plain, ins: seq<Input>, stale: Txid -> Coins)
    requires Found(m, ins)
    ensures Lost(m, ins, stale) == {} <==> Recovers(m, ins, stale)
    decreases |ins|
  {
    hide SpendInput, Finds, Recovered;
    if ins != [] { NoneLost(SpendInput(m, ins[0]), ins[1..], stale); }
  }

  lemma {:induction false} SpentKeys(m: Plain, ins: seq<Input>, stale: Txid -> Coins)
    requires Found(m, ins)
    ensures |SpendInputs(m, ins).1| == |ins|
    ensures SpendInputs(m, ins).0.Keys <= m.Keys && Lost(m, ins, stale) <= m.Keys
    decreases |ins|
  {
    hide Recovered, CanSpend, Spent, UndoOf;
    if ins != [] { SpentKeys(SpendInput(m, ins[0]), ins[1..], stale); }
  }

  predicate SameAt(a: Plain, b: Plain, id: Txid) {
    id in a && id in b && a[id] == b[id]
  }

  /** The outputs left are the same. */
  predicate Intact(e: Plain, d: Plain, id: Txid)
    requires id in d
  {
    id in e && e[id].vout == d[id].vout
  }

  predicate Holds(e: Plain, id: Txid, n: nat, o: TxOut) {
    id in e && n < |e[id].vout| && e[id].vout[n] == o
  }

  /** An available output is missing, or is another one. */
  predicate Damaged(e: Plain, d: Plain, id: Txid)
    requires id in d
  {
    exists n: nat :: n < |d[id].vout| && CanSpend(d[id], n) && !Holds(e, id, n, d[id].vout[n])
  }

  /** A map that has come back in part: no record too many, and in each one the outputs are all there or damaged. */
  ghost predicate Close(e: Plain, d: Plain) {
    e.Keys <= d.Keys && forall id <- d :: Intact(e, d, id) || Damaged(e, d, id)
  }

  lemma SpendInputOk(m: Plain, i: Input)
    requires PlainOk(m) && Finds(m, i)
    ensures PlainOk(SpendInput(m, i))
    ensures i.txid in SpendInput(m, i) <==> Spent(m[i.txid], i.n).vout != []
  {
    hide Canonical, CanSpend, Spent;
    SpentCanonical(m[i.txid], i.n);
    SpentPruned(m[i.txid], i.n);
    SpentRecord(m[i.txid], i.n);
  }

  lemma SpentRecord(c: Coins, n: nat)
    requires CanSpend(c, n)
    ensures Spent(c, n) == c.(vout := Spent(c, n).vout)
  {
    SpentLeaves(c, n, n);
  }

  /** The undo record of an input, as it is read back. */
  function Stored(m: Plain, i: Input): Undo
    requires Finds(m, i)
  {
    Back(UndoOf(m[i.txid], i.n))
  }

  /** An output that is not what it was leaves its record damaged, whatever is then cleaned up. */
  lemma StaysDamaged(e: Plain, id: Txid, t: Coins, c: Coins, n: nat)
    requires CanSpend(c, n) && (n < |t.vout| ==> t.vout[n] != c.vout[n])
    ensures !Holds(Put(e, id, Cleanup(t)), id, n, c.vout[n])
  {
    hide IsPruned, Trim;
  }

  lemma IsDamaged(e: Plain, d: Plain, id: Txid, n: nat)
    requires id in d && CanSpend(d[id], n) && !Holds(e, id, n, d[id].vout[n])
    ensures Damaged(e, d, id) && !SameAt(e, d, id)
  {
  }

  /** The restored output is not what it was. */
  lemma RestoredDamaged(m: Plain, i: Input, e: Plain, stale: Txid -> Coins)
    requires Finds(m, i) && !Survives(m[i.txid].vout[i.n])
    ensures var r := RestoreInput(e, i, Stored(m, i), stale); Damaged(r, m, i.txid) && !SameAt(r, m, i.txid)
  {
    hide Cleanup, SameAt, Damaged, Holds, CoinsCodec.OutBack;
    var c := m[i.txid];
    var t := Restore(Open(e, i.txid, stale), i.n, Stored(m, i));
    assert t.vout[i.n] != c.vout[i.n];
    StaysDamaged(e, i.txid, t, c, i.n);
    IsDamaged(RestoreInput(e, i, Stored(m, i), stale), m, i.txid, i.n);
  }

  /** Another output was not what it was before. */
  lemma OtherDamaged(m: Plain, i: Input, e: Plain, stale: Txid -> Coins, n: nat)
    requires StaleOk(stale) && Finds(m, i)
    requires var s := Spent(m[i.txid], i.n); CanSpend(s, n) && !Holds(e, i.txid, n, s.vout[n])
    ensures var r := RestoreInput(e, i, Stored(m, i), stale); Damaged(r, m, i.txid) && !SameAt(r, m, i.txid)
  {
    hide Cleanup, SameAt, Damaged, Spent, CoinsCodec.OutBack;
    var c := m[i.txid];
    SpentLeaves(c, i.n, n);
    assert Spent(c, i.n).vout != [];
    var f, u := Open(e, i.txid, stale), Stored(m, i);
    var t := Restore(f, i.n, u);
    assert t.vout == Padded(f.vout, i.n)[i.n := u.out];
    assert n < |t.vout| ==> t.vout[n] != c.vout[n];
    StaysDamaged(e, i.txid, t, c, n);
    IsDamaged(RestoreInput(e, i, u, stale), m, i.txid, n);
  }

  /** The restored output, and all others, are what they were. */
  lemma RestoredIntact(m: Plain, i: Input, e: Plain, stale: Txid -> Coins)
    requires PlainOk(m) && StaleOk(stale) && Finds(m, i) && Survives(m[i.txid].vout[i.n])
    requires var d := SpendInput(m, i); if i.txid in d then Intact(e, d, i.txid) else i.txid !in e
    ensures var r := RestoreInput(e, i, Stored(m, i), stale); var d := SpendInput(m, i);
      && Intact(r, m, i.txid)
      && (SameAt(r, m, i.txid) <==> Recovered(m, i, stale) && (i.txid in d ==> SameAt(e, d, i.txid)))
  {
    hide Canonical, CanSpend, Spent, UndoOf, Restore, Cleanup, IsPruned, Back, Meta, CoinsCodec.OutBack, MetaKept;
    var c, d := m[i.txid], SpendInput(m, i);
    SpendInputOk(m, i);
    SpentPruned(c, i.n);
    SpentRecord(c, i.n);
    var f := Open(e, i.txid, stale);
    assert f.vout == Spent(c, i.n).vout;
    RestoredIs(c, i.n, f);
    MetaBack(c, i.n, f);
    var t := Meta(c, i.n, f).(vout := c.vout);
    Kept(c, i.n);
    CleanAlready(t, c);
    assert RestoreInput(e, i, Stored(m, i), stale) == e[i.txid := t];
  }

  lemma Kept(c: Coins, n: nat)
    requires CanSpend(c, n)
    ensures c.vout[n := c.vout[n]] == c.vout
  {
  }

  lemma CleanAlready(t: Coins, c: Coins)
    requires Canonical(c) && !IsPruned(c) && t.vout == c.vout
    ensures Cleanup(t) == t && !IsPruned(t)
  {
    TrimTidy(c.vout);
  }

  /** One input restored on a map that has come back in part: nothing else changes, and the record is the old one if
      and only if it was recoverable and had come back before. */
  lemma OneInput(m: Plain, i: Input, e: Plain, stale: Txid -> Coins)
    requires PlainOk(m) && StaleOk(stale) && Finds(m, i) && Close(e, SpendInput(m, i))
    ensures var r := RestoreInput(e, i, Stored(m, i), stale); var d := SpendInput(m, i);
      && (forall id :: id != i.txid ==> (id in m <==> id in d) && (id in r <==> id in e))
      && (forall id <- m :: id != i.txid ==> d[id] == m[id])
      && (forall id <- r :: id != i.txid ==> r[id] == e[id])
      && (Intact(r, m, i.txid) || Damaged(r, m, i.txid))
      && (SameAt(r, m, i.txid) <==> Recovered(m, i, stale) && (i.txid in d ==> SameAt(e, d, i.txid)))
  {
    hide PlainOk, StaleOk, Canonical, Spent, Restore, Cleanup, IsPruned, Stored, Holds, Survives, MetaKept;
    var c, d := m[i.txid], SpendInput(m, i);
    SpendInputOk(m, i);
    SpentPruned(c, i.n);
    if i.txid in d && !Intact(e, d, i.txid) {
      var n: nat :| n < |d[i.txid].vout| && CanSpend(d[i.txid], n) && !Holds(e, i.txid, n, d[i.txid].vout[n]);
      OtherDamaged(m, i, e, stale, n);
      IsDamaged(e, d, i.txid, n);
    } else if Survives(c.vout[i.n]) {
      RestoredIntact(m, i, e, stale);
    } else {
      RestoredDamaged(m, i, e, stale);
    }
  }

  lemma StillClose(m: Plain, i: Input, e: Plain, stale: Txid -> Coins)
    requires PlainOk(m) && StaleOk(stale) && Finds(m, i) && Close(e, SpendInput(m, i))
    ensures Close(RestoreInput(e, i, Stored(m, i), stale), m)
  {
    hide PlainOk, StaleOk, SpendInput, RestoreInput, Recovered, Stored, CanSpend;
    OneInput(m, i, e, stale);
    var d, r := SpendInput(m, i), RestoreInput(e, i, Stored(m, i), stale);
    forall id <- m ensures Intact(r, m, id) || Damaged(r, m, id) {
      if id != i.txid { assert Intact(e, d, id) || Damaged(e, d, id); }
    }
  }

  /** The inputs of a transaction restored on a map that has come back in part to the one they were spent on. */
  lemma {:induction false} RestoreClose(m: Plain, ins: seq<Input>, e: Plain, stale: Txid -> Coins)
    requires PlainOk(m) && StaleOk(stale) && Found(m, ins) && Close(e, SpendInputs(m, ins).0)
    ensures |SpendInputs(m, ins).1| == |ins|
    ensures var (d, us) := SpendInputs(m, ins); var r := RestoreInputs(e, ins, Backs(us), stale);
      && Close(r, m)
      && forall id <- m ::
           SameAt(r, m, id) <==> id !in Lost(m, ins, stale) && (id in d ==> SameAt(e, d, id))
    decreases |ins|
  {
    hide PlainOk, StaleOk, SpendInput, RestoreInput, Recovered, Finds, UndoOf, Back, Close, Intact, Damaged;
    SpentKeys(m, ins, stale);
    if ins != [] {
      var i, rest := ins[0], ins[1..];
      var m1 := SpendInput(m, i);
      SpendInputOk(m, i);
      SpentKeys(m1, rest, stale);
      RestoreClose(m1, rest, e, stale);
      var us := SpendInputs(m, ins).1;
      assert us[1..] == SpendInputs(m1, rest).1;
      assert Backs(us)[1..] == Backs(us[1..]) && Backs(us)[0] == Stored(m, i);
      var r1 := RestoreInputs(e, rest, Backs(us[1..]), stale);
      StillClose(m, i, r1, stale);
      OneInput(m, i, r1, stale);
    }
  }

  lemma CloseSelf(m: Plain)
    ensures Close(m, m)
  {
  }

  lemma AllSame(r: Plain, m: Plain)
    requires Close(r, m)
    ensures r == m <==> forall id <- m :: SameAt(r, m, id)
  {
  }

  /** Disconnecting undoes connecting: after all inputs of a transaction are spent and then restored, last to first,
      every record is back if and only if every record that was changed can be brought back. */
  lemma DisconnectUndoesConnect(m: Plain, ins: seq<Input>, stale: Txid -> Coins)
    requires PlainOk(m) && StaleOk(stale) && Found(m, ins)
    ensures |SpendInputs(m, ins).1| == |ins|
    ensures var (d, us) := SpendInputs(m, ins);
      RestoreInputs(d, ins, Backs(us), stale) == m <==> Recovers(m, ins, stale)
  {
    hide PlainOk, StaleOk, Found, SpendInputs, RestoreInputs, Recovers, Lost, Close;
    var d := SpendInputs(m, ins).0;
    NoneLost(m, ins, stale);
    SpentKeys(m, ins, stale);
    CloseSelf(d);
    RestoreClose(m, ins, d, stale);
    AllSame(RestoreInputs(d, ins, Backs(SpendInputs(m, ins).1), stale), m);
  }

  /** The loop of UpdateCoins over the inputs; the assertion in it holds. */
  method SpendEach(m: Plain, ins: seq<Input>) returns (d: Plain, us: seq<Undo>)
    requires Found(m, ins)
    ensures (d, us) == SpendInputs(m, ins)
  {
    hide SpendInput, UndoOf;
    d, us := m, [];
    assert ins[0..] == ins;
    for k := 0 to |ins|
      invariant Found(d, ins[k..])
      invariant SpendInputs(m, ins).0 == SpendInputs(d, ins[k..]).0
      invariant SpendInputs(m, ins).1 == us + SpendInputs(d, ins[k..]).1
    {
      assert ins[k..][1..] == ins[k + 1..];
      assert Finds(d, ins[k]);
      us := us + [UndoOf(d[ins[k].txid], ins[k].n)];
      d := SpendInput(d, ins[k]);
    }
    assert us + [] == us;
  }

  /** The loop of DisconnectBlock over the inputs. */
  method RestoreEach(m: Plain, ins: seq<Input>, us: seq<Undo>, stale: Txid -> Coins) returns (r: Plain)
    requires |us| == |ins|
    ensures r == RestoreInputs(m, ins, us, stale)
  {
    hide RestoreInput;
    r := m;
    var j := |ins|;
    while j > 0
      invariant 0 <= j <= |ins| && r == RestoreInputs(m, ins[j..], us[j..], stale)
    {
      assert ins[j - 1..][1..] == ins[j..] && us[j - 1..][1..] == us[j..];
      j := j - 1;
      r := RestoreInput(r, ins[j], us[j], stale);
    }
    assert ins[0..] == ins && us[0..] == us;
  }

  // ----------------------------------------------------------------- blocks

  /** A transaction with the inputs it spends, none for a coinbase or a zerocoin spend, and the record it leaves. */
  datatype Tx = Tx(txid: Txid, ins: seq<Input>, record: Coins)

  /** Every transaction finds its inputs, is new, and leaves a record as FromTx makes it. */
  predicate Connectable(m: Plain, txs: seq<Tx>)
    decreases |txs|
  {
    txs != [] ==>
      && Found(m, txs[0].ins) && txs[0].txid !in SpendInputs(m, txs[0].ins).0 && RecordOk(txs[0].record)
      && Connectable(Connected(m, txs[0]), txs[1..])
  }

  /** UpdateCoins. */
  function Connected(m: Plain, tx: Tx): Plain
    requires Found(m, tx.ins)
  {
    Put(SpendInputs(m, tx.ins).0, tx.txid, tx.record)
  }

  function ConnectBlock(m: Plain, txs: seq<Tx>): (Plain, seq<seq<Undo>>)
    requires Connectable(m, txs)
    decreases |txs|
  {
    if txs == [] then (m, [])
    else
      var (d, uss) := ConnectBlock(Connected(m, txs[0]), txs[1..]);
      (d, [SpendInputs(m, txs[0].ins).1] + uss)
  }

  /** The loop of ConnectBlock over the transactions. */
  method ConnectEach(m: Plain, txs: seq<Tx>) returns (d: Plain, uss: seq<seq<Undo>>)
    requires Connectable(m, txs)
    ensures (d, uss) == ConnectBlock(m, txs)
  {
    hide Found, SpendInputs, RecordOk;
    d, uss := m, [];
    assert txs[0..] == txs;
    for i := 0 to |txs|
      invariant Connectable(d, txs[i..])
      invariant ConnectBlock(m, txs).0 == ConnectBlock(d, txs[i..]).0
      invariant ConnectBlock(m, txs).1 == uss + ConnectBlock(d, txs[i..]).1
    {
      assert txs[i..][1..] == txs[i + 1..];
      var us;
      d, us := SpendEach(d, txs[i].ins);
      d := Put(d, txs[i].txid, txs[i].record);
      uss := uss + [us];
    }
    assert uss + [] == uss;
  }

  predicate Paired(txs: seq<Tx>, uss: seq<seq<Undo>>) {
    |uss| == |txs| && forall j :: 0 <= j < |txs| ==> |uss[j]| == |txs[j].ins|
  }

  /** DisconnectBlock: transactions last to first, each one's outputs removed before its inputs are restored. */
  function DisconnectBlock(m: Plain, txs: seq<Tx>, uss: seq<seq<Undo>>, stale: Txid -> Coins): Plain
    requires Paired(txs, uss)
    decreases |txs|
  {
    if txs == [] then m
    else
      var e := DisconnectBlock(m, txs[1..], uss[1..], stale);
      RestoreInputs(Put(e, txs[0].txid, CLEARED), txs[0].ins, uss[0], stale)
  }

  /** The loop of DisconnectBlock over the transactions. */
  method DisconnectEach(m: Plain, txs: seq<Tx>, uss: seq<seq<Undo>>, stale: Txid -> Coins) returns (r: Plain)
    requires Paired(txs, uss)
    ensures r == DisconnectBlock(m, txs, uss, stale)
  {
    hide RestoreInputs;
    r := m;
    var i := |txs|;
    while i > 0
      invariant 0 <= i <= |txs| && r == DisconnectBlock(m, txs[i..], uss[i..], stale)
    {
      assert txs[i - 1..][1..] == txs[i..] && uss[i - 1..][1..] == uss[i..];
      i := i - 1;
      r := RestoreEach(Put(r, txs[i].txid, CLEARED), txs[i].ins, uss[i], stale);
    }
    assert txs[0..] == txs && uss[0..] == uss;
  }

  /** The records that a block changes beyond recovery: those of the block itself do not count. */
  function LostInBlock(m: Plain, txs: seq<Tx>, stale: Txid -> Coins): set<Txid>
    requires Connectable(m, txs)
    decreases |txs|
  {
    if txs == [] then {}
    else LostInBlock(Connected(m, txs[0]), txs[1..], stale) - {txs[0].txid} + Lost(m, txs[0].ins, stale)
  }

  lemma {:induction false} ConnectedKeys(m: Plain, txs: seq<Tx>, stale: Txid -> Coins)
    requires Connectable(m, txs)
    ensures Paired(txs, ConnectBlock(m, txs).1) && LostInBlock(m, txs, stale) <= m.Keys
    decreases |txs|
  {
    hide Found, SpendInputs, Lost, RecordOk;
    if txs != [] {
      SpentKeys(m, txs[0].ins, stale);
      ConnectedKeys(Connected(m, txs[0]), txs[1..], stale);
    }
  }

  lemma {:induction false} SpendInputsOk(m: Plain, ins: seq<Input>)
    requires PlainOk(m) && Found(m, ins)
    ensures PlainOk(SpendInputs(m, ins).0)
    decreases |ins|
  {
    hide PlainOk, SpendInput, Finds, UndoOf;
    if ins != [] {
      SpendInputOk(m, ins[0]);
      SpendInputsOk(SpendInput(m, ins[0]), ins[1..]);
    }
  }

  lemma ConnectedOk(m: Plain, tx: Tx)
    requires PlainOk(m) && Found(m, tx.ins) && RecordOk(tx.record)
    ensures PlainOk(Connected(m, tx))
  {
    hide Found, SpendInputs, RecordOk, IsPruned;
    SpendInputsOk(m, tx.ins);
  }

  lemma BacksPaired(txs: seq<Tx>, uss: seq<seq<Undo>>)
    requires Paired(txs, uss)
    ensures Paired(txs, AllBacks(uss))
  {
  }

  /** What is left of a block when a transaction is taken out again. */
  lemma TakenOut(d: Plain, tx: Tx, e: Plain)
    requires tx.txid !in d && Close(e, Put(d, tx.txid, tx.record))
    ensures var f := Put(e, tx.txid, CLEARED); var m1 := Put(d, tx.txid, tx.record);
      Close(f, d) && forall id <- d :: id in m1 && (SameAt(f, d, id) <==> SameAt(e, m1, id))
  {
    hide CanSpend;
    var f, m1 := Put(e, tx.txid, CLEARED), Put(d, tx.txid, tx.record);
    assert f == e - {tx.txid};
    forall id <- d ensures Intact(f, d, id) || Damaged(f, d, id) {
      assert Intact(e, m1, id) || Damaged(e, m1, id);
    }
  }

  /** Disconnecting a block brings back every record but those lost. */
  lemma {:induction false} DisconnectClose(m: Plain, txs: seq<Tx>, stale: Txid -> Coins)
    requires PlainOk(m) && StaleOk(stale) && Connectable(m, txs)
    ensures Paired(txs, ConnectBlock(m, txs).1) && Paired(txs, AllBacks(ConnectBlock(m, txs).1))
    ensures var (d, uss) := ConnectBlock(m, txs); var r := DisconnectBlock(d, txs, AllBacks(uss), stale);
      Close(r, m) && forall id <- m :: SameAt(r, m, id) <==> id !in LostInBlock(m, txs, stale)
    decreases |txs|
  {
    hide PlainOk, StaleOk, Found, SpendInputs, RestoreInputs, Lost, RecordOk, Close, Backs;
    ConnectedKeys(m, txs, stale);
    var uss := ConnectBlock(m, txs).1;
    BacksPaired(txs, uss);
    if txs == [] {
      CloseSelf(m);
    } else {
      var tx, rest := txs[0], txs[1..];
      var d, m1 := SpendInputs(m, tx.ins).0, Connected(m, tx);
      ConnectedOk(m, tx);
      ConnectedKeys(m1, rest, stale);
      DisconnectClose(m1, rest, stale);
      assert uss[1..] == ConnectBlock(m1, rest).1;
      assert AllBacks(uss)[1..] == AllBacks(uss[1..]) && AllBacks(uss)[0] == Backs(uss[0]);
      var e := DisconnectBlock(ConnectBlock(m1, rest).0, rest, AllBacks(uss[1..]), stale);
      SpentKeys(m, tx.ins, stale);
      TakenOut(d, tx, e);
      RestoreClose(m, tx.ins, Put(e, tx.txid, CLEARED), stale);
    }
  }

  /** Disconnecting a block undoes connecting it, spends inside the block included, if and only if no record from
      before the block is lost. */
  lemma BlockUndone(m: Plain, txs: seq<Tx>, stale: Txid -> Coins)
    requires PlainOk(m) && StaleOk(stale) && Connectable(m, txs)
    ensures Paired(txs, AllBacks(ConnectBlock(m, txs).1))
    ensures var (d, uss) := ConnectBlock(m, txs);
      DisconnectBlock(d, txs, AllBacks(uss), stale) == m <==> LostInBlock(m, txs, stale) == {}
  {
    hide PlainOk, StaleOk, Connectable, ConnectBlock, DisconnectBlock, LostInBlock, Close, AllBacks;
    ConnectedKeys(m, txs, stale);
    DisconnectClose(m, txs, stale);
    var (d, uss) := ConnectBlock(m, txs);
    AllSame(DisconnectBlock(d, txs, AllBacks(uss), stale), m);
  }
}
