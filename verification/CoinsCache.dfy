/** A stack of coin caches over the coin database (src/coins.cpp,
    src/coinsviewdb.cpp). View 0 is the database and view k is the k-th cache
    above it. */
module CoinsCache {
  import opened Wrappers
  import opened Coins

  type Hash = nat

  datatype Entry = Entry(coins: Coins, dirty: bool, isFresh: bool)
  type Entries = map<Txid, Entry>

  /** A cache: its entries, and its best block, 0 until it is known. */
  datatype Cache = Cache(entries: Entries, best: Hash)

  datatype Stack = Stack(db: map<Txid, Coins>, dbBest: Hash, caches: seq<Cache>)

  /** The record a view answers with, if it has one. */
  function Look(s: Stack, k: nat, id: Txid): Option<Coins>
    requires k <= |s.caches|
  {
    if k == 0 then (if id in s.db then Some(s.db[id]) else None)
    else if id in s.caches[k - 1].entries then Some(s.caches[k - 1].entries[id].coins)
    else Look(s, k - 1, id)
  }

  /** No record, or one with nothing left in it. */
  predicate Empty(o: Option<Coins>) {
    o.None? || IsPruned(o.value)
  }

  predicate HasEntry(s: Stack, k: nat, id: Txid)
    requires k <= |s.caches|
  {
    k == 0 || id in s.caches[k - 1].entries
  }

  /** An entry of cache k + 1 against view k: unless dirty it is the same record; it is fresh exactly when the
      view below has nothing; and if it is not fresh, the cache below has an entry too. */
  predicate EntryOk(s: Stack, k: nat, id: Txid, e: Entry)
    requires k <= |s.caches|
  {
    && (!e.dirty ==> Look(s, k, id) == Some(e.coins))
    && (e.isFresh <==> Empty(Look(s, k, id)))
    && (!e.isFresh ==> HasEntry(s, k, id))
    && Tidy(e.coins.vout)
  }

  ghost predicate CacheOk(s: Stack, k: nat)
    requires k < |s.caches|
  {
    forall id <- s.caches[k].entries :: EntryOk(s, k, id, s.caches[k].entries[id])
  }

  ghost predicate DbOk(db: map<Txid, Coins>) {
    forall id <- db :: !IsPruned(db[id]) && Tidy(db[id].vout)
  }

  ghost predicate StackOk(s: Stack) {
    DbOk(s.db) && forall k :: 0 <= k < |s.caches| ==> CacheOk(s, k)
  }

  /** Nothing above view k holds entries of its own. */
  ghost predicate Quiet(s: Stack, k: nat) {
    forall j :: k <= j < |s.caches| ==> s.caches[j].entries == map[]
  }

  function SetEntries(s: Stack, k: nat, entries: Entries): Stack
    requires k < |s.caches|
  {
    s.(caches := s.caches[k := s.caches[k].(entries := entries)])
  }

  /** Views below a change do not see it. */
  lemma {:induction false} LookFrame(s: Stack, t: Stack, k: nat, id: Txid)
    requires k <= |s.caches| && k <= |t.caches| && s.db == t.db
    requires forall j :: 0 <= j < k ==> s.caches[j].entries == t.caches[j].entries
    ensures Look(s, k, id) == Look(t, k, id)
  {
    if k > 0 && id !in s.caches[k - 1].entries { LookFrame(s, t, k - 1, id); }
  }

  /** A view whose caches above are quiet is what all of them show. */
  lemma {:induction false} LookThrough(s: Stack, k: nat, n: nat, id: Txid)
    requires k <= n <= |s.caches| && Quiet(s, k)
    ensures Look(s, n, id) == Look(s, k, id)
  {
    if k < n { LookThrough(s, k, n - 1, id); }
  }

  // ------------------------------------------------------------------ fetching

  /** FetchCoins on view k: pull a record up through every cache below. */
  function Fetch(s: Stack, k: nat, id: Txid): (t: Stack)
    requires k <= |s.caches|
    ensures |t.caches| == |s.caches|
  {
    if k == 0 || id in s.caches[k - 1].entries then s
    else
      var t := Fetch(s, k - 1, id);
      var found := Look(t, k - 1, id);
      if found.None? then t
      else
        var e := Entry(found.value, false, IsPruned(found.value));
        SetEntries(t, k - 1, t.caches[k - 1].entries[id := e])
  }

  /** The two stacks show the same in every view, and `t` has at least the entries of `s`. */
  ghost predicate Grown(s: Stack, t: Stack) {
    && t == s.(caches := t.caches) && |t.caches| == |s.caches|
    && (forall j, x :: 0 <= j <= |s.caches| ==> Look(t, j, x) == Look(s, j, x))
    && (forall j :: 0 <= j < |s.caches| ==> t.caches[j].best == s.caches[j].best)
    && (forall j, x :: 0 <= j < |s.caches| && x in s.caches[j].entries ==>
          x in t.caches[j].entries && t.caches[j].entries[x] == s.caches[j].entries[x])
  }

  /** The caches from index k up are untouched. */
  ghost predicate SameAbove(s: Stack, t: Stack, k: nat) {
    |t.caches| == |s.caches| && forall j :: k <= j < |s.caches| ==> t.caches[j] == s.caches[j]
  }

  lemma {:induction false} InsertLook(s: Stack, k: nat, id: Txid, e: Entry, j: nat, x: Txid)
    requires k < |s.caches| && j <= |s.caches| && id !in s.caches[k].entries && Look(s, k, id) == Some(e.coins)
    ensures Look(SetEntries(s, k, s.caches[k].entries[id := e]), j, x) == Look(s, j, x)
  {
    var t := SetEntries(s, k, s.caches[k].entries[id := e]);
    if j > 0 {
      InsertLook(s, k, id, e, j - 1, x);
      if j - 1 == k && x == id { assert Look(t, j, x) == Some(e.coins); }
    }
  }

  lemma InsertKeeps(s: Stack, k: nat, id: Txid, e: Entry)
    requires StackOk(s) && k < |s.caches| && id !in s.caches[k].entries
    requires Look(s, k, id) == Some(e.coins) && EntryOk(s, k, id, e)
    ensures var t := SetEntries(s, k, s.caches[k].entries[id := e]); StackOk(t) && Grown(s, t) && SameAbove(s, t, k + 1)
  {
    hide Look;
    var t := SetEntries(s, k, s.caches[k].entries[id := e]);
    forall j: nat, x | 0 <= j <= |s.caches| ensures Look(t, j, x) == Look(s, j, x) { InsertLook(s, k, id, e, j, x); }
    forall j | 0 <= j < |t.caches| ensures CacheOk(t, j) {
      forall x | x in t.caches[j].entries ensures EntryOk(t, j, x, t.caches[j].entries[x]) {
        if j == k && x == id {
        } else {
          assert CacheOk(s, j);
          assert EntryOk(s, j, x, s.caches[j].entries[x]);
        }
      }
    }
  }

  lemma GrownTrans(a: Stack, b: Stack, c: Stack)
    requires Grown(a, b) && Grown(b, c)
    ensures Grown(a, c)
  {
    hide Look;
  }

  /** The record any view finds is tidy. */
  lemma {:induction false} LookTidy(s: Stack, k: nat, id: Txid)
    requires StackOk(s) && k <= |s.caches|
    ensures Look(s, k, id).Some? ==> Tidy(Look(s, k, id).value.vout)
    ensures k == 0 && Look(s, k, id).Some? ==> !IsPruned(Look(s, k, id).value)
  {
    if k > 0 {
      assert CacheOk(s, k - 1);
      if id in s.caches[k - 1].entries {
        assert EntryOk(s, k - 1, id, s.caches[k - 1].entries[id]);
      } else {
        LookTidy(s, k - 1, id);
      }
    }
  }

  /** Fetching changes no view, touches no cache above, and leaves an entry behind when there is a record. */
  lemma {:induction false} FetchKeeps(s: Stack, k: nat, id: Txid)
    requires StackOk(s) && k <= |s.caches|
    ensures var t := Fetch(s, k, id);
      && StackOk(t) && Grown(s, t) && SameAbove(s, t, k)
      && (Look(s, k, id).Some? ==> HasEntry(t, k, id))
  {
    hide StackOk, Grown, EntryOk, Tidy, AllNull;
    if k == 0 || id in s.caches[k - 1].entries {
      assert Grown(s, s) by { GrownSelf(s); }
    } else {
      FetchKeeps(s, k - 1, id);
      var t := Fetch(s, k - 1, id);
      SameLook(s, t, k - 1, id);
      var found := Look(t, k - 1, id);
      if found.Some? {
        var e := Entry(found.value, false, IsPruned(found.value));
        assert EntryOk(t, k - 1, id, e) by { FetchedOk(t, k - 1, id); }
        InsertKeeps(t, k - 1, id, e);
        GrownTrans(s, t, SetEntries(t, k - 1, t.caches[k - 1].entries[id := e]));
      }
    }
  }

  lemma GrownSelf(s: Stack)
    ensures Grown(s, s)
  {
  }

  lemma SameLook(s: Stack, t: Stack, k: nat, id: Txid)
    requires Grown(s, t) && k <= |s.caches|
    ensures Look(t, k, id) == Look(s, k, id)
  {
  }

  lemma FetchedOk(s: Stack, k: nat, id: Txid)
    requires StackOk(s) && k <= |s.caches| && Look(s, k, id).Some? && HasEntry(s, k, id)
    ensures EntryOk(s, k, id, Entry(Look(s, k, id).value, false, IsPruned(Look(s, k, id).value)))
  {
    LookTidy(s, k, id);
  }

  // ----------------------------------------------------------------- modifying

  /** The entry ModifyCoins hands out, with the caches below already asked for the record. */
  function Opened(s: Stack, k: nat, id: Txid): Entry
    requires 0 < k <= |s.caches|
  {
    if id in s.caches[k - 1].entries then s.caches[k - 1].entries[id].(dirty := true)
    else
      var found := Look(s, k - 1, id);
      if found.None? then Entry(CLEARED, true, true) else Entry(found.value, true, IsPruned(found.value))
  }

  /** One modifier scope on cache k: open the entry, edit the record, clean up, and drop a fresh record that has
      nothing left. */
  function Modify(s: Stack, k: nat, id: Txid, edit: Coins -> Coins): Stack
    requires 0 < k <= |s.caches|
  {
    var t := if id in s.caches[k - 1].entries then s else Fetch(s, k - 1, id);
    var e := Opened(t, k, id);
    var c := Cleanup(edit(e.coins));
    var entries := t.caches[k - 1].entries;
    SetEntries(t, k - 1, if e.isFresh && IsPruned(c) then entries - {id} else entries[id := Entry(c, true, e.isFresh)])
  }

  /** The record an edit starts from. */
  function Current(s: Stack, k: nat, id: Txid): Coins
    requires k <= |s.caches|
  {
    var o := Look(s, k, id);
    if o.Some? then o.value else CLEARED
  }

  /** Same record, or nothing in either. */
  predicate Agree(a: Option<Coins>, b: Option<Coins>) {
    a == b || (Empty(a) && Empty(b))
  }

  /** Rewriting the entry for one id in cache k, below which everything stays. */
  lemma RewriteKeeps(s: Stack, t: Stack, k: nat, id: Txid, c: Coins, unbacked: bool)
    requires StackOk(s) && k < |s.caches| && Quiet(s, k + 1) && Tidy(c.vout)
    requires unbacked <==> Empty(Look(s, k, id))
    requires !unbacked ==> HasEntry(s, k, id)
    requires var entries := s.caches[k].entries;
      t == SetEntries(s, k, if unbacked && IsPruned(c) then entries - {id} else entries[id := Entry(c, true, unbacked)])
    ensures StackOk(t) && Quiet(t, k + 1)
    ensures forall j, x :: 0 <= j <= k ==> Look(t, j, x) == Look(s, j, x)
    ensures forall j, x :: j == k + 1 && x != id ==> Look(t, j, x) == Look(s, j, x)
    ensures Agree(Look(t, k + 1, id), Some(c))
  {
    hide Tidy, AllNull;
    forall j: nat, x | 0 <= j <= k ensures Look(t, j, x) == Look(s, j, x) { LookFrame(s, t, j, x); }
    forall j | 0 <= j < |t.caches| ensures CacheOk(t, j) {
      assert CacheOk(s, j);
      forall x | x in t.caches[j].entries ensures EntryOk(t, j, x, t.caches[j].entries[x]) {
        if j != k || x != id { assert EntryOk(s, j, x, s.caches[j].entries[x]); }
      }
    }
  }

  /** A modifier scope changes one record of the top view, as the edit says, and nothing that any view below shows. */
  lemma ModifyKeeps(s: Stack, k: nat, id: Txid, edit: Coins -> Coins)
    requires StackOk(s) && 0 < k <= |s.caches| && Quiet(s, k)
    ensures var t := Modify(s, k, id, edit);
      && StackOk(t) && |t.caches| == |s.caches| && Quiet(t, k)
      && (forall j, x :: 0 <= j < k ==> Look(t, j, x) == Look(s, j, x))
      && (forall j, x :: k <= j <= |s.caches| && x != id ==> Look(t, j, x) == Look(s, k, x))
      && (forall j :: k <= j <= |s.caches| ==> Agree(Look(t, j, id), Some(Cleanup(edit(Current(s, k, id))))))
  {
    hide StackOk, Grown, Agree, EntryOk, Cleanup;
    FetchKeeps(s, k - 1, id);
    var m := if id in s.caches[k - 1].entries then s else Fetch(s, k - 1, id);
    assert Grown(s, m) by { GrownSelf(s); }
    assert StackOk(m);
    assert m.caches[k - 1] == s.caches[k - 1] && Quiet(m, k);
    forall j: nat, x | 0 <= j <= |s.caches| ensures Look(m, j, x) == Look(s, j, x) { SameLook(s, m, j, x); }
    var e := Opened(m, k, id);
    OpenedOk(m, k, id);
    var c := Cleanup(edit(e.coins));
    assert Tidy(c.vout) by { CleanupTidy(edit(e.coins)); }
    var t := Modify(s, k, id, edit);
    RewriteKeeps(m, t, k - 1, id, c, e.isFresh);
    forall j: nat, x | k <= j <= |s.caches| ensures Look(t, j, x) == Look(t, k, x) { LookThrough(t, k, j, x); }
  }

  lemma CleanupTidy(c: Coins)
    ensures Tidy(Cleanup(c).vout)
  {
  }

  lemma OpenedOk(s: Stack, k: nat, id: Txid)
    requires StackOk(s) && 0 < k <= |s.caches|
    requires id !in s.caches[k - 1].entries && Look(s, k - 1, id).Some? ==> HasEntry(s, k - 1, id)
    ensures var e := Opened(s, k, id);
      && (e.isFresh <==> Empty(Look(s, k - 1, id)))
      && (!e.isFresh ==> HasEntry(s, k - 1, id))
      && e.coins == Current(s, k, id)
  {
    assert CacheOk(s, k - 1);
    if id in s.caches[k - 1].entries { assert EntryOk(s, k - 1, id, s.caches[k - 1].entries[id]); }
  }

  // ------------------------------------------------------------------ flushing

  function Get(entries: Entries, id: Txid): Option<Entry> {
    if id in entries then Some(entries[id]) else None
  }

  /** What BatchWrite makes of an entry of the child and the entry, if any, of the parent. */
  function Merge(us: Option<Entry>, them: Option<Entry>): Option<Entry> {
    if them.None? || !them.value.dirty then us
    else if us.None? then
      if IsPruned(them.value.coins) then None else Some(Entry(them.value.coins, true, true))
    else if us.value.isFresh && IsPruned(them.value.coins) then None
    else Some(Entry(them.value.coins, true, us.value.isFresh))
  }

  function MergeAll(us: Entries, them: Entries): Entries {
    map id | id in us.Keys + them.Keys && Merge(Get(us, id), Get(them, id)).Some? ::
      Merge(Get(us, id), Get(them, id)).value
  }

  /** What the database stores after a batch: dirty records are written, those with nothing left are erased. */
  function MergeDb(db: map<Txid, Coins>, them: Entries): map<Txid, Coins> {
    map id | id in db.Keys + them.Keys &&
             (if id in them && them[id].dirty then !IsPruned(them[id].coins) else id in db) ::
      if id in them && them[id].dirty then them[id].coins else db[id]
  }

  /** Flush of cache k into the view below it. */
  function Flush(s: Stack, k: nat): Stack
    requires 0 < k <= |s.caches|
  {
    var child := s.caches[k - 1];
    if k == 1 then
      s.(db := MergeDb(s.db, child.entries), dbBest := if child.best != 0 then child.best else s.dbBest,
         caches := s.caches[0 := child.(entries := map[])])
    else
      var parent := Cache(MergeAll(s.caches[k - 2].entries, child.entries), child.best);
      s.(caches := s.caches[k - 2 := parent][k - 1 := child.(entries := map[])])
  }

  /** The assertion in BatchWrite: a live record the parent does not have is fresh in the child. */
  lemma NoUnbackedEntry(s: Stack, k: nat, id: Txid)
    requires StackOk(s) && 1 < k <= |s.caches| && id in s.caches[k - 1].entries
    requires id !in s.caches[k - 2].entries
    ensures s.caches[k - 1].entries[id].isFresh
  {
    assert CacheOk(s, k - 1);
    assert EntryOk(s, k - 1, id, s.caches[k - 1].entries[id]);
  }

  /** Per record: the merged entry shows what the child showed, and is in order against the view below the parent. */
  lemma MergeKeeps(s: Stack, k: nat, id: Txid)
    requires StackOk(s) && 1 < k <= |s.caches|
    ensures var m := Merge(Get(s.caches[k - 2].entries, id), Get(s.caches[k - 1].entries, id));
      && (m.Some? ==> EntryOk(s, k - 2, id, m.value))
      && Agree(if m.Some? then Some(m.value.coins) else Look(s, k - 2, id), Look(s, k, id))
  {
    hide Tidy, AllNull;
    assert CacheOk(s, k - 1) && CacheOk(s, k - 2);
    if id in s.caches[k - 1].entries { assert EntryOk(s, k - 1, id, s.caches[k - 1].entries[id]); }
    if id in s.caches[k - 2].entries { assert EntryOk(s, k - 2, id, s.caches[k - 2].entries[id]); }
  }

  lemma FlushedLook(s: Stack, k: nat, id: Txid)
    requires StackOk(s) && 0 < k <= |s.caches|
    ensures Agree(Look(Flush(s, k), k - 1, id), Look(s, k, id))
    ensures forall j :: 0 <= j < k - 1 ==> Look(Flush(s, k), j, id) == Look(s, j, id)
  {
    hide AllNull;
    var t := Flush(s, k);
    if k > 1 {
      forall j: nat | 0 <= j < k - 1 ensures Look(t, j, id) == Look(s, j, id) { LookFrame(s, t, j, id); }
      MergeKeeps(s, k, id);
    } else {
      assert CacheOk(s, 0);
      if id in s.caches[0].entries { assert EntryOk(s, 0, id, s.caches[0].entries[id]); }
    }
  }

  /** Flushing makes the view below show what the flushed view showed, keeps every other view below, and leaves
      every cache in order; the database stores no record that has nothing left. */
  lemma FlushKeeps(s: Stack, k: nat)
    requires StackOk(s) && 0 < k <= |s.caches| && Quiet(s, k)
    ensures var t := Flush(s, k);
      && StackOk(t) && |t.caches| == |s.caches| && Quiet(t, k - 1)
      && (forall j, x :: 0 <= j < k - 1 ==> Look(t, j, x) == Look(s, j, x))
      && (forall j, x :: k - 1 <= j <= |s.caches| ==> Agree(Look(t, j, x), Look(s, k, x)))
  {
    hide Tidy, AllNull, Agree;
    var t := Flush(s, k);
    forall j: nat, x | 0 <= j < k - 1 ensures Look(t, j, x) == Look(s, j, x) { FlushedLook(s, k, x); }
    assert Quiet(t, k - 1) by {
      if k > 1 { assert forall j :: k - 1 <= j < |t.caches| ==> t.caches[j].entries == map[]; }
    }
    forall j: nat, x | k - 1 <= j <= |s.caches| ensures Agree(Look(t, j, x), Look(s, k, x)) {
      FlushedLook(s, k, x);
      LookThrough(t, k - 1, j, x);
    }
    FlushedOk(s, k);
  }

  lemma FlushedOk(s: Stack, k: nat)
    requires StackOk(s) && 0 < k <= |s.caches| && Quiet(s, k)
    ensures StackOk(Flush(s, k))
  {
    hide Tidy, AllNull;
    var t := Flush(s, k);
    if k == 1 {
      assert CacheOk(s, 0);
      forall id | id in t.db ensures !IsPruned(t.db[id]) && Tidy(t.db[id].vout) {
        if id in s.caches[0].entries { assert EntryOk(s, 0, id, s.caches[0].entries[id]); }
      }
    } else {
      forall j: nat | j < |t.caches| ensures CacheOk(t, j) {
        if j < k - 2 { UntouchedOk(s, t, j); } else if j == k - 2 { MergedOk(s, k, j); }
      }
    }
  }

  lemma UntouchedOk(s: Stack, t: Stack, k: nat)
    requires StackOk(s) && k < |s.caches| && k < |t.caches| && s.db == t.db
    requires forall j :: 0 <= j <= k ==> s.caches[j].entries == t.caches[j].entries
    ensures CacheOk(t, k)
  {
    assert CacheOk(s, k);
    forall id | id in t.caches[k].entries ensures EntryOk(t, k, id, t.caches[k].entries[id]) {
      assert EntryOk(s, k, id, s.caches[k].entries[id]);
      LookFrame(s, t, k, id);
    }
  }

  lemma MergedOk(s: Stack, k: nat, p: nat)
    requires StackOk(s) && 1 < k <= |s.caches| && p == k - 2
    ensures CacheOk(Flush(s, k), p)
  {
    var t := Flush(s, k);
    forall id | id in t.caches[p].entries ensures EntryOk(t, p, id, t.caches[p].entries[id]) {
      MergeKeeps(s, k, id);
      LookFrame(s, t, p, id);
    }
  }

  /** The best block a view stands for. */
  function Best(s: Stack, k: nat): Hash
    requires k <= |s.caches|
  {
    if k == 0 then s.dbBest
    else if s.caches[k - 1].best != 0 then s.caches[k - 1].best
    else Best(s, k - 1)
  }

  /** Flushing hands the best block down exactly when the flushed cache knows one, or is right above the database, or
      the view below had nothing of its own to lose: BatchWrite stores an unknown best block, the database does not. */
  lemma FlushBest(s: Stack, k: nat)
    requires 0 < k <= |s.caches|
    ensures Best(Flush(s, k), k - 1) == Best(s, k) <==>
            s.caches[k - 1].best != 0 || k == 1 || Best(s, k - 1) == Best(s, k - 2)
  {
    if k > 1 { BestFrame(s, Flush(s, k), k - 2); }
  }

  /** A cache that has not been asked for its best block wipes out the one its parent has. */
  lemma UnknownBestIsStored()
    ensures var s := Stack(map[], 3, [Cache(map[], 5), Cache(map[], 0)]);
      StackOk(s) && Best(s, 2) == 5 && Best(Flush(s, 2), 1) == 3
  {
    var s := Stack(map[], 3, [Cache(map[], 5), Cache(map[], 0)]);
    assert s.caches[0].entries == map[] && s.caches[1].entries == map[];
    var t := Flush(s, 2);
    assert t.caches[0].best == 0 && Best(t, 0) == 3;
    assert Best(s, 1) == 5;
  }

  lemma {:induction false} BestFrame(s: Stack, t: Stack, k: nat)
    requires k <= |s.caches| && k <= |t.caches| && s.dbBest == t.dbBest
    requires forall j :: 0 <= j < k ==> s.caches[j].best == t.caches[j].best
    ensures Best(s, k) == Best(t, k)
  {
    if k > 0 { BestFrame(s, t, k - 1); }
  }

  /** Flush every cache, from the top down. */
  function FlushDown(s: Stack, k: nat): Stack
    requires k <= |s.caches|
    decreases k
  {
    if k == 0 then s else FlushDown(Flush(s, k), k - 1)
  }

  /** Flushing the whole stack leaves exactly the top view in the database. */
  lemma {:induction false} FlushDownKeeps(s: Stack, k: nat)
    requires StackOk(s) && k <= |s.caches| && Quiet(s, k)
    ensures var t := FlushDown(s, k);
      && StackOk(t) && |t.caches| == |s.caches| && Quiet(t, 0)
      && (forall x :: x in t.db <==> !Empty(Look(s, k, x)))
      && (forall x <- t.db :: Some(t.db[x]) == Look(s, k, x))
    decreases k
  {
    hide StackOk, Flush, AllNull;
    if k == 0 {
      DbView(s);
    } else {
      FlushKeeps(s, k);
      var t := Flush(s, k);
      FlushDownKeeps(t, k - 1);
      var u := FlushDown(t, k - 1);
      forall x ensures x in u.db <==> !Empty(Look(s, k, x)) { assert Agree(Look(t, k - 1, x), Look(s, k, x)); }
      forall x | x in u.db ensures Some(u.db[x]) == Look(s, k, x) { assert Agree(Look(t, k - 1, x), Look(s, k, x)); }
    }
  }

  lemma DbView(s: Stack)
    requires StackOk(s)
    ensures forall x :: x in s.db <==> !Empty(Look(s, 0, x))
    ensures forall x <- s.db :: Some(s.db[x]) == Look(s, 0, x)
  {
    assert DbOk(s.db);
  }
}
