/** Putting a spent output back with the undo record read from disk (src/main.cpp, DisconnectBlock). */
module CoinsRestore {
  import opened Coins
  import opened CoinsSpend
  import opened UndoCodec
  import Codec = CoinsCodec

  /** Putting one spent output back, as DisconnectBlock does with the record it finds. */
  function Restore(c: Coins, n: nat, undo: Undo): Coins {
    var base :=
      if undo.height != 0 then CLEARED.(coinBase := undo.coinBase, height := undo.height, version := undo.version)
      else c;
    base.(vout := Padded(base.vout, n)[n := undo.out])
  }

  /** The outputs, with room for one more at a position. */
  function Padded(vout: seq<TxOut>, n: nat): (r: seq<TxOut>)
    ensures |r| > n
  {
    if |vout| < n + 1 then vout + Nulls(n + 1 - |vout|) else vout
  }

  /** An output that is stored and read without change. */
  predicate Survives(o: TxOut) {
    Codec.OutBack(o) == o
  }

  /** Whether an undo record made when a record became empty can bring back what the record said about its
      transaction: the flag of a coinstake and a negative version are lost, and at height 0 it takes a record `r` that
      still has it all. */
  predicate MetaKept(c: Coins, r: Coins) {
    if c.height != 0 then !c.coinStake && c.version >= 0 else SameMeta(r, c)
  }

  /** Whether the undo record of a spend can bring the record back. */
  predicate Recoverable(c: Coins, n: nat, r: Coins)
    requires CanSpend(c, n)
  {
    Survives(c.vout[n]) && (Spent(c, n).vout == [] ==> MetaKept(c, r))
  }

  /** What the metadata of a restored record is: the undo record's, if it has any, and otherwise that of the record
      found. */
  function Meta(c: Coins, n: nat, found: Coins): Coins
    requires CanSpend(c, n)
  {
    if Spent(c, n).vout == [] && c.height != 0 then c.(coinStake := false, version := Codec.ReadBack(c.version))
    else found
  }

  /** The outputs come back, the one restored as it was stored. */
  lemma RestoredIs(c: Coins, n: nat, found: Coins)
    requires Canonical(c) && CanSpend(c, n) && c.height >= 0 && found.vout == Spent(c, n).vout
    ensures Restore(found, n, Back(UndoOf(c, n)))
         == Meta(c, n, found).(vout := c.vout[n := Codec.OutBack(c.vout[n])])
  {
    hide Trim, Tidy, Codec.OutBack, Codec.ReadBack;
    RestoredOutputs(c.vout, n);
    var p := Padded(found.vout, n);
    var o := Codec.OutBack(c.vout[n]);
    assert p[n := c.vout[n]] == c.vout;
    assert p[n := o] == c.vout[n := o];
  }

  /** The metadata comes back if and only if it was kept, or was still there. */
  lemma MetaBack(c: Coins, n: nat, found: Coins)
    requires CanSpend(c, n)
    ensures Meta(c, n, found).(vout := c.vout) == c
       <==> if Spent(c, n).vout == [] then MetaKept(c, found) else SameMeta(found, c)
  {
    hide Spent;
  }

  /** Undoing a spend brings the record back if and only if it is recoverable. `r` is the record found at that time,
      which is the spent one, except that nothing is known of a record with nothing left. */
  lemma RestoreSpent(c: Coins, n: nat, r: Coins)
    requires Canonical(c) && CanSpend(c, n) && c.height >= 0
    requires Same(r, Spent(c, n)) && (IsPruned(r) ==> r.vout == [])
    ensures Same(Restore(r, n, Back(UndoOf(c, n))), c) <==> Recoverable(c, n, r)
    ensures Recoverable(c, n, r) ==> Restore(r, n, Back(UndoOf(c, n))) == c
  {
    hide Restore, Back, UndoOf, Meta, Codec.OutBack, MetaKept, Spent;
    SpentPruned(c, n);
    SpentLeaves(c, n, n);
    RestoredIs(c, n, r);
    MetaBack(c, n, r);
    assert c.vout[n := c.vout[n]] == c.vout;
    assert !IsPruned(c);
  }

  /** The flag of a coinstake is written to the undo record but never read back. The record is that of a coinstake of
      which only its first output is left, which is always empty. */
  lemma CoinstakeIsLost()
    ensures var c := Coins(false, true, [TxOut(0, [], -10)], 7, 1);
      && Canonical(c) && CanSpend(c, 0)
      && Back(UndoOf(c, 0)).coinStake
      && !Same(Restore(Spent(c, 0), 0, Back(UndoOf(c, 0))), c)
  {
    hide Codec.OutBack;
    var c := Coins(false, true, [TxOut(0, [], -10)], 7, 1);
    assert c.vout[0 := NULL_OUT] == [NULL_OUT];
    assert Spent(c, 0).vout == [];
    RestoreSpent(c, 0, Spent(c, 0));
  }

  /** A negative version is stored in a form that reads as another one. */
  lemma VersionIsLost()
    ensures var c := Coins(false, false, [TxOut(5, [], -10)], 7, -1);
      && Canonical(c) && CanSpend(c, 0)
      && UndoOf(c, 0).version == -1 && Back(UndoOf(c, 0)).version == 127
      && !Same(Restore(Spent(c, 0), 0, Back(UndoOf(c, 0))), c)
  {
    hide Codec.OutBack;
    var c := Coins(false, false, [TxOut(5, [], -10)], 7, -1);
    assert c.vout[0 := NULL_OUT] == [NULL_OUT];
    assert Spent(c, 0).vout == [];
    RestoreSpent(c, 0, Spent(c, 0));
  }

  /** A record of which nothing can be lost, as the rules of the network make those of transactions that are not
      coinstakes. */
  predicate Sound(c: Coins) {
    && c.height > 0 && !c.coinStake && c.version >= 0
    && forall i :: 0 <= i < |c.vout| ==> Codec.Ordinary(c.vout[i])
  }

  lemma SoundRecoverable(c: Coins, n: nat, r: Coins)
    requires Sound(c) && CanSpend(c, n)
    ensures Recoverable(c, n, r)
  {
    hide Codec.Ordinary, Codec.OutBack;
    Codec.OrdinaryBack(c.vout[n]);
  }

  lemma SoundSpent(c: Coins, n: nat)
    requires Sound(c) && CanSpend(c, n)
    ensures Sound(Spent(c, n))
  {
    SpentLeaves(c, n, n);
    var v := c.vout[n := NULL_OUT];
    var r := Trim(v);
    forall i | 0 <= i < |r| ensures Codec.Ordinary(r[i]) { assert r[i] == v[i]; }
  }
}
