/** The operations of the address manager, built from the primitive updates,
    and what every run of them keeps (src/addrman.cpp). */
module AddrManOps {
  import opened AddrManState
  import opened AddrManInvariant

  const U32 := 0x1_0000_0000

  /** How many untried entries the counter does not know about yet. */
  function Deficit(s: State): int {
    |NewIds(s.info)| - s.newCount
  }

  /** Entries outside `touched` are still there and have at most moved in the random order. */
  ghost predicate Keeps(a: Infos, b: Infos, touched: set<int>) {
    && (forall id :: id in b ==> id in a)
    && (forall id <- a :: id !in touched ==> id in b && b[id] == a[id].(randomPos := b[id].randomPos))
  }

  lemma KeepsTrans(a: Infos, b: Infos, d: Infos, touched: set<int>, touched': set<int>)
    requires Keeps(a, b, touched) && Keeps(b, d, touched')
    ensures Keeps(a, d, touched + touched')
  {
    forall id | id in a && id !in touched + touched' ensures id in d && d[id] == a[id].(randomPos := d[id].randomPos) {
      assert id in b && b[id] == a[id].(randomPos := b[id].randomPos);
    }
  }

  // ------------------------------------------------------------------ ClearNew

  function ClearNew(c: Config, s: State, k: Slot): State
    requires Core(c, s)
  {
    if k !in s.newTable then s
    else
      UnrefKeeps(c, s, k);
      var id := s.newTable[k];
      var t := Unref(s, k);
      if t.info[id].refCount == 0 then
        DeleteKeeps(c, t, id);
        Delete(t, id)
      else t
  }

  /** The entry that emptying a slot removes from the manager, if any. */
  function Displaced(s: State, k: Slot): set<int> {
    if k in s.newTable && s.newTable[k] in s.info && s.info[s.newTable[k]].refCount == 1 then {s.newTable[k]} else {}
  }

  lemma ClearNewKeeps(c: Config, s: State, k: Slot)
    requires Core(c, s)
    ensures var t := ClearNew(c, s, k);
      && Core(c, t) && t.key == s.key && t.newTable == s.newTable - {k} && t.triedTable == s.triedTable
      && Limbo(t.info) == Limbo(s.info) && Deficit(t) == Deficit(s)
      && TriedIds(t.info) == TriedIds(s.info) && NewIds(t.info) == NewIds(s.info) - Displaced(s, k)
      && Keeps(s.info, t.info, if k in s.newTable then {s.newTable[k]} else {})
      && t.info.Keys == s.info.Keys - Displaced(s, k)
  {
    hide Core, NewIds, TriedIds, Limbo, Keeps, SameButPosition;
    if k !in s.newTable {
      NothingKeeps(s.info);
    } else {
      UnrefKeeps(c, s, k);
      var id := s.newTable[k];
      var t := Unref(s, k);
      UpdateKeeps(s.info, id, t.info[id]);
      if t.info[id].refCount == 0 {
        DeleteKeeps(c, t, id);
        DeletedKeeps(s.info, t.info, Delete(t, id).info, id);
        assert id in NewIds(s.info) && id !in Limbo(s.info) by { Membership(s.info, id); }
      }
    }
  }

  lemma Membership(info: Infos, id: int)
    requires id in info
    ensures id in NewIds(info) <==> !info[id].inTried
    ensures id in Limbo(info) <==> !info[id].inTried && info[id].refCount == 0
  {
  }

  lemma NothingKeeps(a: Infos)
    ensures Keeps(a, a, {})
  {
  }

  lemma UpdateKeeps(a: Infos, id: int, i: AddrInfo)
    requires id in a
    ensures Keeps(a, a[id := i], {id}) && a[id := i].Keys == a.Keys
  {
  }

  lemma DeletedKeeps(a: Infos, b: Infos, d: Infos, id: int)
    requires id in a && id in b && b == a[id := b[id]] && SameButPosition(b - {id}, d)
    ensures Keeps(a, d, {id}) && d.Keys == a.Keys - {id}
  {
    forall j ensures j in d <==> j in a.Keys - {id} {
      assert j in d <==> j in b - {id};
    }
  }

  // ----------------------------------------------------------------- MakeTried

  /** Take an entry out of one bucket of the new table. */
  function DetachAt(c: Config, s: State, id: int, bucket: int): (t: State)
    requires id in s.info
    ensures id in t.info && t.key == s.key && t.newCount == s.newCount && t.info[id].addr == s.info[id].addr
  {
    var k := NewSlot(c, s.key, s.info[id].addr.service, bucket);
    if Holds(s.newTable, k, id) then Unref(s, k) else s
  }

  /** Take an entry out of the first `n` buckets of the new table. */
  function Detach(c: Config, s: State, id: int, n: nat): (t: State)
    requires id in s.info
    ensures id in t.info && t.key == s.key && t.newCount == s.newCount && t.info[id].addr == s.info[id].addr
  {
    if n == 0 then s else DetachAt(c, Detach(c, s, id, n - 1), id, n - 1)
  }

  ghost predicate DetachedTable(s: Table, t: Table, id: int, n: nat) {
    && (forall k :: k in t <==> k in s && !(s[k] == id && k.0 < n))
    && (forall k <- t :: k in s && t[k] == s[k])
  }

  /** Only the count of one entry and the new table have changed. */
  ghost predicate OnlyDetached(s: State, t: State, id: int)
    requires id in s.info && id in t.info
  {
    && t == s.(info := t.info, newTable := t.newTable)
    && t.info == s.info[id := s.info[id].(refCount := t.info[id].refCount)]
    && NewIds(t.info) == NewIds(s.info) && TriedIds(t.info) == TriedIds(s.info)
    && Limbo(t.info) - {id} == Limbo(s.info) - {id}
  }

  lemma {:induction false} DetachKeeps(c: Config, s: State, id: int, n: nat)
    requires Core(c, s) && id in s.info && !s.info[id].inTried
    ensures var t := Detach(c, s, id, n);
      Core(c, t) && OnlyDetached(s, t, id) && DetachedTable(s.newTable, t.newTable, id, n)
  {
    hide Core, OnlyDetached, DetachedTable, DetachAt;
    if n == 0 {
      NothingDetached(c, s, id);
    } else {
      DetachKeeps(c, s, id, n - 1);
      var m := Detach(c, s, id, n - 1);
      StillNew(s, m, id);
      DetachAtKeeps(c, m, id, n - 1);
      DetachedMore(s, m, DetachAt(c, m, id, n - 1), id, n - 1);
    }
  }

  lemma NothingDetached(c: Config, s: State, id: int)
    requires Core(c, s) && id in s.info
    ensures OnlyDetached(s, s, id) && DetachedTable(s.newTable, s.newTable, id, 0)
  {
    hide Core, NewIds, TriedIds, Limbo;
    BucketsInRange(c, s);
  }

  lemma StillNew(s: State, t: State, id: int)
    requires id in s.info && id in t.info && OnlyDetached(s, t, id)
    ensures t.info[id].inTried == s.info[id].inTried
  {
  }

  /** The slot of one bucket goes, if the entry has it. */
  ghost predicate DetachedSlot(s: Table, t: Table, id: int, bucket: int) {
    && (forall k :: k in t <==> k in s && !(s[k] == id && k.0 == bucket))
    && (forall k <- t :: k in s && t[k] == s[k])
  }

  lemma DetachAtKeeps(c: Config, s: State, id: int, bucket: int)
    requires Core(c, s) && id in s.info && !s.info[id].inTried
    ensures var t := DetachAt(c, s, id, bucket);
      Core(c, t) && OnlyDetached(s, t, id) && DetachedSlot(s.newTable, t.newTable, id, bucket)
  {
    hide Core, NewIds, TriedIds, Limbo;
    var k := NewSlot(c, s.key, s.info[id].addr.service, bucket);
    SlotsOfEntry(c, s, id);
    if Holds(s.newTable, k, id) { UnrefKeeps(c, s, k); }
  }

  lemma DetachedMore(s: State, m: State, t: State, id: int, n: nat)
    requires id in s.info && id in m.info && id in t.info && OnlyDetached(s, m, id) && OnlyDetached(m, t, id)
    requires DetachedTable(s.newTable, m.newTable, id, n) && DetachedSlot(m.newTable, t.newTable, id, n)
    ensures OnlyDetached(s, t, id) && DetachedTable(s.newTable, t.newTable, id, n + 1)
  {
    hide NewIds, TriedIds, Limbo;
  }

  lemma BucketsInRange(c: Config, s: State)
    requires Core(c, s)
    ensures forall k <- s.newTable :: 0 <= k.0 < c.newBuckets
  {
    forall k | k in s.newTable ensures 0 <= k.0 < c.newBuckets { assert NewAt(c, s.key, s.info, k, s.newTable[k]); }
  }

  lemma SlotsOfEntry(c: Config, s: State, id: int)
    requires Core(c, s) && id in s.info
    ensures forall k <- s.newTable :: s.newTable[k] == id ==>
              0 <= k.0 < c.newBuckets && k == NewSlot(c, s.key, s.info[id].addr.service, k.0)
  {
    forall k | k in s.newTable && s.newTable[k] == id
      ensures 0 <= k.0 < c.newBuckets && k == NewSlot(c, s.key, s.info[id].addr.service, k.0)
    {
      assert NewAt(c, s.key, s.info, k, s.newTable[k]);
    }
  }

  /** Remove an entry from every new bucket it is in. */
  function Withdraw(c: Config, s: State, id: int): State
    requires id in s.info
  {
    Detach(c, s, id, c.newBuckets).(newCount := s.newCount - 1)
  }

  lemma WithdrawKeeps(c: Config, s: State, id: int)
    requires Inv(c, s) && id in NewIds(s.info)
    ensures var t := Withdraw(c, s, id);
      && Core(c, t) && t == s.(info := t.info, newTable := t.newTable, newCount := t.newCount)
      && t.info == s.info[id := s.info[id].(refCount := 0)]
      && NewIds(t.info) == NewIds(s.info) && TriedIds(t.info) == TriedIds(s.info)
      && Limbo(t.info) == {id} && Deficit(t) == 1
  {
    hide Core, TriedIds;
    DetachKeeps(c, s, id, c.newBuckets);
    var m := Detach(c, s, id, c.newBuckets);
    assert Core(c, m.(newCount := s.newCount - 1)) by { CountFrame(c, m, s.newCount - 1); }
    assert m.info[id].refCount == 0 by { NoSlotNoReference(c, s, m, id); }
    Membership(m.info, id);
  }

  lemma CountFrame(c: Config, s: State, n: int)
    requires Core(c, s)
    ensures Core(c, s.(newCount := n))
  {
  }

  lemma NoSlotNoReference(c: Config, s: State, m: State, id: int)
    requires Core(c, s) && Core(c, m) && id in m.info && DetachedTable(s.newTable, m.newTable, id, c.newBuckets)
    ensures m.info[id].refCount == 0
  {
    hide DetachedTable;
    BucketsInRange(c, s);
    assert Slots(m.newTable, id) == {} by {
      forall k | k in m.newTable ensures m.newTable[k] != id {
        DetachedAt(s.newTable, m.newTable, id, c.newBuckets, k);
      }
    }
  }

  lemma DetachedAt(s: Table, t: Table, id: int, n: nat, k: Slot)
    requires DetachedTable(s, t, id, n) && k in t
    ensures k in s && t[k] == s[k] && !(s[k] == id && k.0 < n)
  {
  }

  /** The slot of the new table an entry falls back to when it is evicted from the tried table. */
  function HomeSlot(c: Config, key: nat, i: AddrInfo): Slot {
    NewSlot(c, key, i.addr.service, c.newBucket(key, i.addr.service, i.source))
  }

  /** Move the entry in a tried slot back to the new table. */
  function Evict(c: Config, s: State, k: Slot): State
    requires Core(c, s) && k in s.triedTable
  {
    EvictedStays(c, s, k);
    var id := s.triedTable[k];
    var u := HomeSlot(c, s.key, s.info[id]);
    var t := ClearNew(c, Untry(s, k), u);
    Ref(t, u, id).(newCount := t.newCount + 1)
  }

  lemma EvictedStays(c: Config, s: State, k: Slot)
    requires Core(c, s) && k in s.triedTable
    ensures s.triedTable[k] in s.info && s.info[s.triedTable[k]].inTried && Core(c, Untry(s, k))
    ensures var id := s.triedTable[k]; var u := HomeSlot(c, s.key, s.info[id]); var m := Untry(s, k);
      && (u in m.newTable ==> m.newTable[u] != id)
      && id in ClearNew(c, m, u).info
      && ClearNew(c, m, u).info[id] == m.info[id].(randomPos := ClearNew(c, m, u).info[id].randomPos)
      && m.info[id] == s.info[id].(inTried := false) && s.info[id].refCount == 0
      && Displaced(m, u) == Displaced(s, u) && id !in Displaced(s, u)
  {
    hide Core, NewIds, TriedIds, Limbo;
    UntryKeeps(c, s, k);
    var m, id := Untry(s, k), s.triedTable[k];
    var u := HomeSlot(c, s.key, s.info[id]);
    UnreferencedIn(c, m, id);
    ClearNewKeeps(c, m, u);
  }

  lemma UnreferencedIn(c: Config, s: State, id: int)
    requires Core(c, s) && id in s.info && s.info[id].refCount == 0
    ensures forall k <- s.newTable :: s.newTable[k] != id
  {
    Unreferenced(s.info, s.newTable, id);
  }

  function Occupant(t: Table, k: Slot): set<int> {
    if k in t then {t[k]} else {}
  }

  lemma EvictKeeps(c: Config, s: State, k: Slot)
    requires Core(c, s) && k in s.triedTable && s.triedTable[k] in s.info
    ensures var id := s.triedTable[k]; var t := Evict(c, s, k); var u := HomeSlot(c, s.key, s.info[id]);
      && Core(c, t) && t.key == s.key && t.triedTable == s.triedTable - {k}
      && Limbo(t.info) == Limbo(s.info) && Deficit(t) == Deficit(s)
      && TriedIds(t.info) == TriedIds(s.info) - {id} && id in TriedIds(s.info)
      && NewIds(t.info) == NewIds(s.info) + {id} - Displaced(s, u)
      && Holds(t.newTable, u, id) && id in t.info && t.info[id].refCount == 1 && !t.info[id].inTried
  {
    hide Core, NewIds, TriedIds, Limbo, Keeps;
    UntryKeeps(c, s, k);
    EvictedStays(c, s, k);
    var id := s.triedTable[k];
    var u := HomeSlot(c, s.key, s.info[id]);
    var m := Untry(s, k);
    var a := ClearNew(c, m, u);
    ClearNewKeeps(c, m, u);
    assert InRange(c);
    RefKeeps(c, a, u, id);
    CountFrame(c, Ref(a, u, id), a.newCount + 1);
    assert id !in NewIds(s.info) && id !in Limbo(s.info) && id in TriedIds(s.info) by { NotNew(s.info, id); }
  }

  /** Besides the evicted entry, an eviction touches only the entry it displaces from the new table. */
  lemma EvictTouches(c: Config, s: State, k: Slot)
    requires Core(c, s) && k in s.triedTable && s.triedTable[k] in s.info
    ensures var id := s.triedTable[k]; var t := Evict(c, s, k); var u := HomeSlot(c, s.key, s.info[id]);
      && Keeps(s.info, t.info, {id} + Occupant(s.newTable, u))
      && t.info.Keys == s.info.Keys - Displaced(s, u)
  {
    hide Core, NewIds, TriedIds, Limbo, Keeps;
    UntryKeeps(c, s, k);
    EvictedStays(c, s, k);
    var id := s.triedTable[k];
    var u := HomeSlot(c, s.key, s.info[id]);
    var m := Untry(s, k);
    UpdateKeeps(s.info, id, m.info[id]);
    var a := ClearNew(c, m, u);
    ClearNewKeeps(c, m, u);
    var b := Ref(a, u, id);
    UpdateKeeps(a.info, id, b.info[id]);
    KeepsTrans(s.info, m.info, a.info, {id}, Occupant(s.newTable, u));
    KeepsTrans(s.info, a.info, b.info, {id} + Occupant(s.newTable, u), {id});
    assert {id} + Occupant(s.newTable, u) + {id} == {id} + Occupant(s.newTable, u);
  }

  lemma NotNew(info: Infos, id: int)
    requires id in info && info[id].inTried
    ensures id !in NewIds(info) && id !in Limbo(info) && id in TriedIds(info)
  {
  }

  function MakeTried(c: Config, s: State, id: int): State
    requires Inv(c, s) && id in NewIds(s.info)
  {
    WithdrawKeeps(c, s, id);
    var w := Withdraw(c, s, id);
    var k := TriedSlot(c, w.key, w.info[id].addr.service);
    var e := if k in w.triedTable then Evict(c, w, k) else w;
    EvictionKeeps(c, s, id);
    PlaceTried(e, k, id)
  }

  /** Between withdrawal and placement, with or without an eviction. */
  lemma EvictionKeeps(c: Config, s: State, id: int)
    requires Inv(c, s) && id in NewIds(s.info)
    ensures Core(c, Withdraw(c, s, id))
    ensures var w := Withdraw(c, s, id);
      var k := TriedSlot(c, w.key, w.info[id].addr.service);
      var e := if k in w.triedTable then Evict(c, w, k) else w;
      && Core(c, e) && e.key == s.key && k !in e.triedTable && e.triedTable == s.triedTable - {k}
      && id in e.info && e.info[id] == w.info[id].(randomPos := e.info[id].randomPos)
      && id in Limbo(e.info) && Limbo(e.info) == {id} && Deficit(e) == 1
      && TriedIds(e.info) == TriedIds(s.info) - Occupant(s.triedTable, k)
      && id in NewIds(e.info)
      && Occupant(s.triedTable, k) <= NewIds(e.info)
      && s.info.Keys - e.info.Keys <= NewIds(s.info) - {id} && |s.info.Keys - e.info.Keys| <= 1
      && e.info.Keys <= s.info.Keys
  {
    hide Core, Keeps, Withdraw, Evict;
    WithdrawKeeps(c, s, id);
    var w := Withdraw(c, s, id);
    var k := TriedSlot(c, w.key, w.info[id].addr.service);
    if k in w.triedTable {
      MakesRoom(c, w, k, id);
    } else {
      assert s.info.Keys - w.info.Keys == {};
    }
  }

  /** Eviction while an entry is withdrawn. */
  lemma MakesRoom(c: Config, w: State, k: Slot, id: int)
    requires Core(c, w) && Limbo(w.info) == {id} && k in w.triedTable
    ensures var e := Evict(c, w, k);
      && Core(c, e) && e.key == w.key && k !in e.triedTable && e.triedTable == w.triedTable - {k}
      && id in w.info && id in e.info && e.info[id] == w.info[id].(randomPos := e.info[id].randomPos)
      && Limbo(e.info) == {id} && Deficit(e) == Deficit(w)
      && TriedIds(e.info) == TriedIds(w.info) - {w.triedTable[k]}
      && id in NewIds(e.info) && w.triedTable[k] in NewIds(e.info)
      && w.info.Keys - e.info.Keys <= NewIds(w.info) - {id} && |w.info.Keys - e.info.Keys| <= 1
      && e.info.Keys <= w.info.Keys
  {
    hide Core, Keeps;
    UntryKeeps(c, w, k);
    var ev := w.triedTable[k];
    EvictKeeps(c, w, k);
    EvictTouches(c, w, k);
    var u := HomeSlot(c, w.key, w.info[ev]);
    UnreferencedIn(c, w, id);
    EvictedStays(c, w, k);
    assert ev != id;
    var e := Evict(c, w, k);
    KeptEntry(w.info, e.info, {ev} + Occupant(w.newTable, u), id);
    DisplacedIsNew(c, w, u);
    assert w.info.Keys - e.info.Keys == Displaced(w, u);
  }

  lemma KeptEntry(a: Infos, b: Infos, touched: set<int>, id: int)
    requires Keeps(a, b, touched) && id in a && id !in touched
    ensures id in b && b[id] == a[id].(randomPos := b[id].randomPos)
  {
  }

  lemma DisplacedIsNew(c: Config, s: State, u: Slot)
    requires Core(c, s)
    ensures Displaced(s, u) <= NewIds(s.info) && Displaced(s, u) <= s.info.Keys
  {
    if u in s.newTable { assert NewAt(c, s.key, s.info, u, s.newTable[u]); }
  }
}
