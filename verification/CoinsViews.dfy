/** The coin views as they run: the database map and the entry maps of the
    caches are updated in place, and a batch is merged entry by entry
    (src/coins.cpp, src/coinsviewdb.cpp). */
module CoinsViews {
  import opened Wrappers
  import opened Coins
  import opened CoinsCache

  /** Part of a batch has been merged: `left` is what remains of it. */
  ghost predicate Merging(us: Entries, them: Entries, left: Entries, now: Entries) {
    && (forall id <- left :: id in them && left[id] == them[id])
    && (forall id :: Get(now, id) ==
          if id in left || id !in them then Get(us, id) else Merge(Get(us, id), Get(them, id)))
  }

  lemma MergingStart(us: Entries, them: Entries)
    ensures Merging(us, them, them, us)
  {
  }

  lemma MergingDone(us: Entries, them: Entries, now: Entries)
    requires Merging(us, them, map[], now)
    ensures now == MergeAll(us, them)
  {
    forall id ensures Get(now, id) == Get(MergeAll(us, them), id) {}
    assert forall id :: id in now <==> Get(now, id).Some?;
  }

  /** The entries after one entry of the batch. */
  function MergedOne(now: Entries, id: Txid, e: Entry): Entries {
    match Merge(Get(now, id), Some(e))
    case None => now - {id}
    case Some(x) => now[id := x]
  }

  lemma MergingNext(us: Entries, them: Entries, left: Entries, now: Entries, id: Txid)
    requires Merging(us, them, left, now) && id in left
    ensures id in them && left[id] == them[id] && Get(now, id) == Get(us, id)
    ensures Merging(us, them, left - {id}, MergedOne(now, id, left[id]))
  {
    hide Merge;
    assert Get(now, id) == Get(us, id);
    var next := MergedOne(now, id, left[id]);
    forall x ensures Get(next, x) == if x == id then Merge(Get(us, id), Get(them, id)) else Get(now, x) {}
  }

  /** BatchWrite of a cache: every entry of the child is taken out of the batch, dirty ones are merged. The check in
      the first branch is that a live record which is new here was fresh in the child. */
  method MergeBatch(us: Entries, them: Entries) returns (now: Entries)
    requires forall id <- them :: id !in us && them[id].dirty && !IsPruned(them[id].coins) ==> them[id].isFresh
    ensures now == MergeAll(us, them)
  {
    hide MergeAll, AllNull, Merging;
    MergingStart(us, them);
    now := us;
    var left := them;
    while |left| > 0
      invariant Merging(us, them, left, now)
      decreases |left|
    {
      NonEmpty(left);
      var id :| id in left;
      var e := left[id];
      MergingNext(us, them, left, now, id);
      ghost var next := MergedOne(now, id, e);
      if e.dirty {
        if id !in now {
          if !IsPruned(e.coins) {
            assert e.isFresh;
            now := now[id := Entry(e.coins, true, true)];
          }
        } else if now[id].isFresh && IsPruned(e.coins) {
          now := now - {id};
        } else {
          now := now[id := Entry(e.coins, true, now[id].isFresh)];
        }
      }
      assert now == next;
      left := left - {id};
    }
    assert left == map[];
    MergingDone(us, them, now);
  }

  lemma NonEmpty(m: Entries)
    requires |m| > 0
    ensures exists id :: id in m
  {
    if forall id :: id !in m { NoKeys(m); }
  }

  lemma NoKeys(m: Entries)
    requires forall id :: id !in m
    ensures |m| == 0
  {
    assert m.Keys == {};
  }

  function Written(db: map<Txid, Coins>, id: Txid, e: Entry): map<Txid, Coins> {
    if !e.dirty then db else if IsPruned(e.coins) then db - {id} else db[id := e.coins]
  }

  ghost predicate Writing(db: map<Txid, Coins>, them: Entries, left: Entries, now: map<Txid, Coins>) {
    && (forall id <- left :: id in them && left[id] == them[id])
    && (forall id :: Stored(now, id) ==
          if id in them && id !in left then Stored(Written(db, id, them[id]), id) else Stored(db, id))
  }

  function Stored(db: map<Txid, Coins>, id: Txid): Option<Coins> {
    if id in db then Some(db[id]) else None
  }

  lemma WritingNext(db: map<Txid, Coins>, them: Entries, left: Entries, now: map<Txid, Coins>, id: Txid)
    requires Writing(db, them, left, now) && id in left
    ensures Writing(db, them, left - {id}, Written(now, id, left[id]))
  {
    hide AllNull;
  }

  lemma WritingDone(db: map<Txid, Coins>, them: Entries, now: map<Txid, Coins>)
    requires Writing(db, them, map[], now)
    ensures now == MergeDb(db, them)
  {
    hide AllNull;
    forall id ensures Stored(now, id) == Stored(MergeDb(db, them), id) {}
    assert forall id :: id in now <==> Stored(now, id).Some?;
  }

  /** BatchWrite of the database: dirty records are written, or erased when nothing is left in them. */
  method WriteBatch(db: map<Txid, Coins>, them: Entries) returns (now: map<Txid, Coins>)
    ensures now == MergeDb(db, them)
  {
    hide AllNull, MergeDb;
    now := db;
    var left := them;
    assert Writing(db, them, left, now);
    hide Writing;
    while |left| > 0
      invariant Writing(db, them, left, now)
      decreases |left|
    {
      NonEmpty(left);
      var id :| id in left;
      WritingNext(db, them, left, now, id);
      var e := left[id];
      if e.dirty {
        if IsPruned(e.coins) {
          now := now - {id};
        } else {
          now := now[id := e.coins];
        }
      }
      left := left - {id};
    }
    assert left == map[];
    WritingDone(db, them, now);
  }

  class CoinViews {
    var db: map<Txid, Coins>
    var dbBest: Hash
    var caches: seq<Cache>

    ghost function Model(): Stack
      reads this
    {
      Stack(db, dbBest, caches)
    }

    constructor (db: map<Txid, Coins>, best: Hash)
      ensures Model() == Stack(db, best, [])
    {
      this.db, dbBest, caches := db, best, [];
    }

    /** GetCoins of view k: its own entry, or the record of the view below, which is kept from then on. */
    method GetCoins(k: nat, id: Txid) returns (found: Option<Coins>)
      requires k <= |caches|
      modifies this
      ensures Model() == Fetch(old(Model()), k, id) && found == Look(Model(), k, id)
    {
      if k == 0 {
        return if id in db then Some(db[id]) else None;
      }
      if id in caches[k - 1].entries {
        return Some(caches[k - 1].entries[id].coins);
      }
      found := GetCoins(k - 1, id);
      if found.Some? {
        assert id !in caches[k - 1].entries by { FetchBelow(old(Model()), k - 1, id); }
        var e := Entry(found.value, false, IsPruned(found.value));
        caches := caches[k - 1 := caches[k - 1].(entries := caches[k - 1].entries[id := e])];
      } else {
        assert id !in caches[k - 1].entries by { FetchBelow(old(Model()), k - 1, id); }
      }
    }

    /** HaveCoins looks for outputs, not for a record. */
    method HaveCoins(k: nat, id: Txid) returns (have: bool)
      requires k <= |caches|
      modifies this
      ensures Model() == Fetch(old(Model()), k, id)
      ensures have <==> Look(Model(), k, id).Some? && Look(Model(), k, id).value.vout != []
    {
      var found := GetCoins(k, id);
      have := found.Some? && found.value.vout != [];
    }

    method ModifyCoins(k: nat, id: Txid, edit: Coins -> Coins)
      requires 0 < k <= |caches|
      modifies this
      ensures Model() == Modify(old(Model()), k, id, edit)
    {
      hide Fetch, AllNull;
      var e;
      if id in caches[k - 1].entries {
        e := caches[k - 1].entries[id];
      } else {
        FetchBelow(Model(), k - 1, id);
        var found := GetCoins(k - 1, id);
        e := if found.None? then Entry(CLEARED, false, true) else Entry(found.value, false, IsPruned(found.value));
      }
      e := e.(dirty := true);
      e := e.(coins := Cleanup(edit(e.coins)));
      var entries := caches[k - 1].entries[id := e];
      if e.isFresh && IsPruned(e.coins) {
        entries := entries - {id};
        assert entries == caches[k - 1].entries - {id};
      }
      caches := caches[k - 1 := caches[k - 1].(entries := entries)];
    }

    method Flush(k: nat)
      requires 0 < k <= |caches| && StackOk(Model())
      modifies this
      ensures Model() == CoinsCache.Flush(old(Model()), k)
    {
      hide StackOk, MergeAll, MergeDb, AllNull;
      var child := caches[k - 1];
      if k == 1 {
        db := WriteBatch(db, child.entries);
        if child.best != 0 {
          dbBest := child.best;
        }
        caches := caches[0 := child.(entries := map[])];
      } else {
        forall id | id in child.entries && id !in caches[k - 2].entries ensures child.entries[id].isFresh {
          NoUnbackedEntry(Model(), k, id);
        }
        var merged := MergeBatch(caches[k - 2].entries, child.entries);
        caches := caches[k - 2 := Cache(merged, child.best)];
        caches := caches[k - 1 := child.(entries := map[])];
      }
    }

    /** SetBestBlock, and GetBestBlock, which remembers what it finds below. */
    method SetBestBlock(k: nat, hash: Hash)
      requires 0 < k <= |caches|
      modifies this
      ensures Model() == old(Model()).(caches := old(caches)[k - 1 := old(caches[k - 1]).(best := hash)])
      ensures hash != 0 ==> Best(Model(), k) == hash
    {
      caches := caches[k - 1 := caches[k - 1].(best := hash)];
    }

    method GetBestBlock(k: nat) returns (hash: Hash)
      requires k <= |caches|
      modifies this
      ensures hash == Best(old(Model()), k) && |caches| == |old(caches)| && db == old(db) && dbBest == old(dbBest)
      ensures forall j :: 0 <= j < |caches| ==> caches[j].entries == old(caches)[j].entries
      ensures forall j :: k <= j < |caches| ==> caches[j] == old(caches)[j]
      ensures forall j :: 0 <= j <= k ==> Best(Model(), j) == Best(old(Model()), j)
    {
      if k == 0 { return dbBest; }
      if caches[k - 1].best == 0 {
        ghost var s := Model();
        hash := GetBestBlock(k - 1);
        ghost var m := Model();
        caches := caches[k - 1 := caches[k - 1].(best := hash)];
        forall j: nat | j < k ensures Best(Model(), j) == Best(s, j) { BestFrame(m, Model(), j); }
        return;
      }
      hash := caches[k - 1].best;
    }
  }

  /** Fetching below a cache does not touch it. */
  lemma {:induction false} FetchBelow(s: Stack, k: nat, id: Txid)
    requires k <= |s.caches|
    ensures SameAbove(s, Fetch(s, k, id), k)
  {
    if k > 0 && id !in s.caches[k - 1].entries { FetchBelow(s, k - 1, id); }
  }
}
