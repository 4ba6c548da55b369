/** Each primitive update of the address manager keeps the core invariant, and
    moves entries between the tables, the tried set and limbo as described. */
module AddrManInvariant {
  import opened AddrManState

  // ------------------------------------------------------------ what frames

  ghost predicate SameKeys(a: Infos, b: Infos) {
    forall id :: id in a <==> id in b
  }

  lemma SubsetSize<T>(a: set<T>, b: set<T>)
    requires a <= b
    ensures |a| <= |b|
  {
    assert b == a + (b - a);
  }

  lemma IndexFrame(a: Infos, b: Infos, idCount: int, byAddr: map<NetAddr, int>, order: seq<int>)
    requires IndexOk(a, idCount, byAddr, order) && SameKeys(a, b)
    requires forall id <- a :: b[id].addr.service == a[id].addr.service && b[id].randomPos == a[id].randomPos
    ensures IndexOk(b, idCount, byAddr, order)
  {
  }

  lemma TriedFrame(c: Config, key: nat, a: Infos, b: Infos, t: Table)
    requires TriedOk(c, key, a, t) && SameKeys(a, b)
    requires forall id <- a :: b[id].addr.service == a[id].addr.service && b[id].inTried == a[id].inTried
    requires forall id <- a :: b[id].inTried && a[id].lastSuccess > 0 ==> b[id].lastSuccess > 0
    ensures TriedOk(c, key, b, t)
  {
  }

  lemma NewFrame(c: Config, key: nat, a: Infos, b: Infos, t: Table)
    requires NewOk(c, key, a, t) && RefsOk(a, t) && SameKeys(a, b)
    requires forall id <- a :: b[id].addr.service == a[id].addr.service && b[id].inTried == a[id].inTried
    requires forall id <- a :: b[id].refCount == a[id].refCount
    ensures NewOk(c, key, b, t) && RefsOk(b, t)
  {
  }

  lemma SetsFrame(a: Infos, b: Infos)
    requires SameKeys(a, b)
    requires forall id <- a :: b[id].inTried == a[id].inTried && b[id].refCount == a[id].refCount
    ensures TriedIds(a) == TriedIds(b) && NewIds(a) == NewIds(b) && Limbo(a) == Limbo(b)
  {
    forall id
      ensures id in TriedIds(a) <==> id in TriedIds(b)
      ensures id in NewIds(a) <==> id in NewIds(b)
      ensures id in Limbo(a) <==> id in Limbo(b)
    {
      if id in a {
        assert id in b && b[id].inTried == a[id].inTried && b[id].refCount == a[id].refCount;
      }
    }
    assert TriedIds(a) == TriedIds(b);
    assert NewIds(a) == NewIds(b);
    assert Limbo(a) == Limbo(b);
  }

  /** How an update of one entry moves it between the three sets. */
  lemma SetsAfterUpdate(a: Infos, id: int, i: AddrInfo)
    requires id in a
    ensures var b := a[id := i];
      && (i.inTried == a[id].inTried ==> TriedIds(b) == TriedIds(a) && NewIds(b) == NewIds(a))
      && (i.inTried && !a[id].inTried ==> TriedIds(b) == TriedIds(a) + {id} && NewIds(b) == NewIds(a) - {id})
      && (!i.inTried && a[id].inTried ==> TriedIds(b) == TriedIds(a) - {id} && NewIds(b) == NewIds(a) + {id})
      && (!i.inTried && i.refCount == 0 ==> Limbo(b) == Limbo(a) + {id})
      && (i.inTried || i.refCount != 0 ==> Limbo(b) == Limbo(a) - {id})
      && (i.inTried == a[id].inTried && (i.refCount == 0 <==> a[id].refCount == 0) ==> Limbo(b) == Limbo(a))
  {
  }

  /** An update of one entry that keeps its address and its position. */
  lemma IndexAfterUpdate(s: State, id: int, i: AddrInfo)
    requires IndexOk(s.info, s.idCount, s.byAddr, s.random) && id in s.info
    requires i.addr.service == s.info[id].addr.service && i.randomPos == s.info[id].randomPos
    ensures IndexOk(s.info[id := i], s.idCount, s.byAddr, s.random)
  {
    IndexFrame(s.info, s.info[id := i], s.idCount, s.byAddr, s.random);
  }

  lemma TriedAfterUpdate(c: Config, s: State, id: int, i: AddrInfo)
    requires TriedOk(c, s.key, s.info, s.triedTable) && id in s.info
    requires i.addr.service == s.info[id].addr.service && i.inTried == s.info[id].inTried
    requires i.inTried ==> i.lastSuccess > 0
    ensures TriedOk(c, s.key, s.info[id := i], s.triedTable)
  {
    TriedFrame(c, s.key, s.info, s.info[id := i], s.triedTable);
  }

  lemma NewAfterUpdate(c: Config, s: State, id: int, i: AddrInfo)
    requires NewOk(c, s.key, s.info, s.newTable) && RefsOk(s.info, s.newTable) && id in s.info
    requires i.addr.service == s.info[id].addr.service && i.inTried == s.info[id].inTried
    requires i.refCount == s.info[id].refCount
    ensures NewOk(c, s.key, s.info[id := i], s.newTable) && RefsOk(s.info[id := i], s.newTable)
  {
    NewFrame(c, s.key, s.info, s.info[id := i], s.newTable);
  }

  lemma StatsAfterUpdate(info: Infos, id: int, i: AddrInfo)
    requires StatsOk(info) && i.lastTry >= 0 && i.lastSuccess >= 0
    ensures StatsOk(info[id := i])
  {
  }

  // ------------------------------------------------------- counting the slots

  lemma SlotsAfterRemove(t: Table, k: Slot)
    requires k in t
    ensures forall id :: Slots(t - {k}, id) == if id == t[k] then Slots(t, id) - {k} else Slots(t, id)
    ensures |Slots(t - {k}, t[k])| == |Slots(t, t[k])| - 1
  {
    assert Slots(t - {k}, t[k]) == Slots(t, t[k]) - {k};
    assert k in Slots(t, t[k]);
  }

  lemma SlotsAfterInsert(t: Table, k: Slot, x: int)
    requires k !in t
    ensures forall id :: Slots(t[k := x], id) == if id == x then Slots(t, id) + {k} else Slots(t, id)
    ensures |Slots(t[k := x], x)| == |Slots(t, x)| + 1
  {
    assert Slots(t[k := x], x) == Slots(t, x) + {k};
    assert k !in Slots(t, x);
  }

  /** An entry without references is in no slot of the new table. */
  lemma Unreferenced(info: Infos, t: Table, id: int)
    requires RefsOk(info, t) && id in info && info[id].refCount == 0
    ensures Slots(t, id) == {}
    ensures forall k <- t :: t[k] != id
  {
    assert |Slots(t, id)| == 0;
    forall k | k in t ensures t[k] != id {
      assert k !in Slots(t, id);
    }
  }

  // ------------------------------------------------------ creating an entry

  lemma CreateKeeps(c: Config, s: State, addr: Address, source: NetAddr)
    requires Core(c, s) && addr.service.ip !in s.byAddr
    ensures var t := Create(s, addr, source);
      && Core(c, t) && s.idCount !in s.info
      && Limbo(t.info) == Limbo(s.info) + {s.idCount}
      && NewIds(t.info) == NewIds(s.info) + {s.idCount}
      && TriedIds(t.info) == TriedIds(s.info)
  {
    hide IndexOk, TablesOk, TriedIds, NewIds, Limbo;
    var i := NewInfo(addr, source, |s.random|);
    InsertIndex(s.info, s.idCount, s.byAddr, s.random, i);
    InsertTables(c, s.key, s.info, s.triedTable, s.newTable, s.idCount, i);
  }

  lemma InsertIndex(info: Infos, id: int, byAddr: map<NetAddr, int>, order: seq<int>, i: AddrInfo)
    requires IndexOk(info, id, byAddr, order) && i.addr.service.ip !in byAddr && i.randomPos == |order|
    ensures IndexOk(info[id := i], id + 1, byAddr[i.addr.service.ip := id], order + [id]) && id !in info
  {
    AppendOrder(info, order, id, i);
    var info' := info[id := i];
    var byAddr' := byAddr[i.addr.service.ip := id];
    forall j | j in info' ensures Maps(byAddr', info'[j].addr.service.ip, j) {
      if j != id { assert Maps(byAddr, info[j].addr.service.ip, j); }
    }
  }

  lemma InsertTables(c: Config, key: nat, info: Infos, tried: Table, untried: Table, id: int, i: AddrInfo)
    requires TablesOk(c, key, info, tried, untried) && id !in info
    requires !i.inTried && i.refCount == 0 && i.lastTry == i.lastSuccess == 0
    ensures var info' := info[id := i];
      && TablesOk(c, key, info', tried, untried)
      && Limbo(info') == Limbo(info) + {id} && NewIds(info') == NewIds(info) + {id}
      && TriedIds(info') == TriedIds(info)
  {
    var info' := info[id := i];
    assert TriedIds(info') == TriedIds(info);
    assert Slots(untried, id) == {} by {
      forall k | k in untried ensures untried[k] != id { assert NewAt(c, key, info, k, untried[k]); }
    }
    forall k | k in tried ensures TriedAt(c, key, info', k, tried[k]) { assert TriedAt(c, key, info, k, tried[k]); }
    forall k | k in untried ensures NewAt(c, key, info', k, untried[k]) { assert NewAt(c, key, info, k, untried[k]); }
  }

  // ----------------------------------------------- the order of the entries

  /** The two states agree on every entry except its position in the random order. */
  ghost predicate SameButPosition(a: Infos, b: Infos) {
    SameKeys(a, b) && forall id <- a :: b[id] == a[id].(randomPos := b[id].randomPos)
  }

  lemma SwapKeeps(c: Config, s: State, p: int, q: int)
    requires Core(c, s) && 0 <= p < |s.random| && 0 <= q < |s.random|
    ensures CanSwap(s, p, q)
    ensures var t := SwapRandom(s, p, q);
      && Core(c, t) && t == s.(info := t.info, random := t.random) && SameButPosition(s.info, t.info)
      && t.random == s.random[p := s.random[q]][q := s.random[p]]
      && Limbo(t.info) == Limbo(s.info) && NewIds(t.info) == NewIds(s.info) && TriedIds(t.info) == TriedIds(s.info)
  {
    hide TablesOk, TriedIds, NewIds, Limbo;
    assert AtPosition(s.info, p, s.random[p]) && AtPosition(s.info, q, s.random[q]);
    var t := SwapRandom(s, p, q);
    if p != q {
      SwapIndex(s.info, s.idCount, s.byAddr, s.random, p, q, t.info);
      OrderFrame(c, s.key, s.info, t.info, s.triedTable, s.newTable);
    }
  }

  lemma SwapIndex(info: Infos, idCount: int, byAddr: map<NetAddr, int>, order: seq<int>, p: int, q: int, info': Infos)
    requires IndexOk(info, idCount, byAddr, order) && 0 <= p < |order| && 0 <= q < |order| && p != q
    requires order[p] in info && order[q] in info && order[p] != order[q]
    requires info' == info[order[p] := info[order[p]].(randomPos := q)][order[q] := info[order[q]].(randomPos := p)]
    ensures IndexOk(info', idCount, byAddr, order[p := order[q]][q := order[p]]) && SameButPosition(info, info')
  {
    SwapOrder(info, order, p, q, info');
    forall ip | ip in byAddr ensures HasAddr(info', byAddr[ip], ip) {
      assert HasAddr(info, byAddr[ip], ip);
    }
  }

  lemma SwapOrder(info: Infos, order: seq<int>, p: int, q: int, info': Infos)
    requires RandomOk(info, order) && 0 <= p < |order| && 0 <= q < |order| && p != q
    requires order[p] in info && order[q] in info && order[p] != order[q]
    requires info' == info[order[p] := info[order[p]].(randomPos := q)][order[q] := info[order[q]].(randomPos := p)]
    ensures RandomOk(info', order[p := order[q]][q := order[p]]) && SameButPosition(info, info')
  {
    var order' := order[p := order[q]][q := order[p]];
    forall id | id in info' ensures InOrder(order', info'[id].randomPos, id) {
      assert InOrder(order, info[id].randomPos, id);
    }
    forall n | 0 <= n < |order'| ensures AtPosition(info', n, order'[n]) {
      assert AtPosition(info, n, order[n]);
    }
  }

  lemma OrderFrame(c: Config, key: nat, a: Infos, b: Infos, tried: Table, untried: Table)
    requires TablesOk(c, key, a, tried, untried) && SameButPosition(a, b)
    ensures TablesOk(c, key, b, tried, untried)
    ensures Limbo(b) == Limbo(a) && NewIds(b) == NewIds(a) && TriedIds(b) == TriedIds(a)
  {
    TriedFrame(c, key, a, b, tried);
    NewFrame(c, key, a, b, untried);
    SetsFrame(a, b);
  }

  // ------------------------------------------------------ deleting an entry

  lemma DeleteKeeps(c: Config, s: State, id: int)
    requires Core(c, s) && id in Limbo(s.info)
    ensures CanDelete(s, id)
    ensures var t := Delete(s, id);
      && Core(c, t) && id !in t.info
      && SameButPosition(s.info - {id}, t.info)
      && t.newTable == s.newTable && t.triedTable == s.triedTable
      && t.triedCount == s.triedCount && t.newCount == s.newCount - 1 && t.idCount == s.idCount && t.key == s.key
      && Limbo(t.info) == Limbo(s.info) - {id} && NewIds(t.info) == NewIds(s.info) - {id}
      && TriedIds(t.info) == TriedIds(s.info)
  {
    hide Core, NewIds, TriedIds, Limbo;
    InLimbo(c, s, id);
    SwapKeeps(c, s, s.info[id].randomPos, |s.random| - 1);
    var m := SwapRandom(s, s.info[id].randomPos, |s.random| - 1);
    DropSame(s.info, m.info, id);
    assert m.random[|s.random| - 1] == id;
    DropKeeps(c, m, Delete(s, id), id);
  }

  lemma InLimbo(c: Config, s: State, id: int)
    requires Core(c, s) && id in Limbo(s.info)
    ensures id in s.info && !s.info[id].inTried && s.info[id].refCount == 0
    ensures InOrder(s.random, s.info[id].randomPos, id)
  {
  }

  /** Removing the entry that is last in the order. */
  lemma DropKeeps(c: Config, m: State, t: State, id: int)
    requires Core(c, m) && id in m.info && id in Limbo(m.info) && |m.random| > 0 && m.random[|m.random| - 1] == id
    requires t == m.(random := m.random[..|m.random| - 1], byAddr := m.byAddr - {m.info[id].addr.service.ip},
                     info := m.info - {id}, newCount := m.newCount - 1)
    ensures Core(c, t)
    ensures Limbo(t.info) == Limbo(m.info) - {id} && NewIds(t.info) == NewIds(m.info) - {id}
    ensures TriedIds(t.info) == TriedIds(m.info)
  {
    hide IndexOk, TablesOk, TriedIds, NewIds, Limbo;
    DropIndex(m.info, m.idCount, m.byAddr, m.random, id);
    DropTables(c, m.key, m.info, m.triedTable, m.newTable, id);
  }

  lemma DropSame(a: Infos, b: Infos, id: int)
    requires SameButPosition(a, b) && id in a
    ensures SameButPosition(a - {id}, b - {id}) && b[id].addr == a[id].addr
  {
  }

  lemma DropIndex(info: Infos, idCount: int, byAddr: map<NetAddr, int>, order: seq<int>, id: int)
    requires IndexOk(info, idCount, byAddr, order) && |order| > 0 && order[|order| - 1] == id && id in info
    ensures IndexOk(info - {id}, idCount, byAddr - {info[id].addr.service.ip}, order[..|order| - 1])
  {
    DropOrder(info, order, id);
    var info' := info - {id};
    var byAddr' := byAddr - {info[id].addr.service.ip};
    forall j | j in info' ensures Maps(byAddr', info'[j].addr.service.ip, j) {
      assert Maps(byAddr, info[j].addr.service.ip, j) && Maps(byAddr, info[id].addr.service.ip, id);
    }
    forall ip | ip in byAddr' ensures HasAddr(info', byAddr'[ip], ip) {
      assert HasAddr(info, byAddr[ip], ip);
    }
  }

  lemma DropOrder(info: Infos, order: seq<int>, id: int)
    requires RandomOk(info, order) && |order| > 0 && order[|order| - 1] == id && id in info
    ensures RandomOk(info - {id}, order[..|order| - 1])
  {
    var info', order' := info - {id}, order[..|order| - 1];
    assert AtPosition(info, |order| - 1, id);
    forall j | j in info' ensures InOrder(order', info'[j].randomPos, j) {
      assert InOrder(order, info[j].randomPos, j);
    }
    forall p | 0 <= p < |order'| ensures AtPosition(info', p, order'[p]) {
      assert AtPosition(info, p, order[p]);
    }
  }

  /** Appending an entry that knows it is last. */
  lemma AppendOrder(info: Infos, order: seq<int>, id: int, i: AddrInfo)
    requires RandomOk(info, order) && id !in info && i.randomPos == |order|
    ensures RandomOk(info[id := i], order + [id])
  {
    var info' := info[id := i];
    forall j | j in info' ensures InOrder(order + [id], info'[j].randomPos, j) {
      if j != id { assert InOrder(order, info[j].randomPos, j); }
    }
    forall p | 0 <= p < |order| + 1 ensures AtPosition(info', p, (order + [id])[p]) {
      if p < |order| { assert AtPosition(info, p, order[p]); }
    }
  }

  lemma DropTables(c: Config, key: nat, info: Infos, tried: Table, untried: Table, id: int)
    requires TablesOk(c, key, info, tried, untried) && id in Limbo(info)
    ensures var info' := info - {id};
      && TablesOk(c, key, info', tried, untried)
      && Limbo(info') == Limbo(info) - {id} && NewIds(info') == NewIds(info) - {id}
      && TriedIds(info') == TriedIds(info)
  {
    var info' := info - {id};
    assert TriedIds(info') == TriedIds(info);
    Unreferenced(info, untried, id);
    forall k | k in tried ensures TriedAt(c, key, info', k, tried[k]) { assert TriedAt(c, key, info, k, tried[k]); }
    forall k | k in untried ensures NewAt(c, key, info', k, untried[k]) { assert NewAt(c, key, info, k, untried[k]); }
  }

  // -------------------------------------------- references from the new table

  lemma UnrefKeeps(c: Config, s: State, k: Slot)
    requires Core(c, s) && k in s.newTable
    ensures s.newTable[k] in s.info && s.info[s.newTable[k]].refCount > 0 && !s.info[s.newTable[k]].inTried
    ensures var id := s.newTable[k]; var t := Unref(s, k);
      && Core(c, t) && NewIds(t.info) == NewIds(s.info) && TriedIds(t.info) == TriedIds(s.info)
      && Limbo(t.info) == if s.info[id].refCount == 1 then Limbo(s.info) + {id} else Limbo(s.info)
  {
    hide IndexOk, TriedOk, RefsOk, TriedIds, NewIds, Limbo;
    var id := s.newTable[k];
    assert NewAt(c, s.key, s.info, k, id);
    UnrefTable(c, s.key, s.info, s.newTable, k, id);
    var i := s.info[id].(refCount := s.info[id].refCount - 1);
    IndexAfterUpdate(s, id, i);
    TriedAfterUpdate(c, s, id, i);
    SetsAfterUpdate(s.info, id, i);
    StatsAfterUpdate(s.info, id, i);
  }

  lemma UnrefTable(c: Config, key: nat, info: Infos, t: Table, k: Slot, id: int)
    requires NewOk(c, key, info, t) && RefsOk(info, t) && k in t && id == t[k] && id in info
    ensures info[id].refCount > 0
    ensures var b := info[id := info[id].(refCount := info[id].refCount - 1)];
      NewOk(c, key, b, t - {k}) && RefsOk(b, t - {k})
  {
    SlotsAfterRemove(t, k);
    assert k in Slots(t, id);
  }

  lemma RefKeeps(c: Config, s: State, k: Slot, id: int)
    requires Core(c, s) && k !in s.newTable && NewAt(c, s.key, s.info, k, id)
    requires s.info[id].refCount < NEW_BUCKETS_PER_ADDRESS
    ensures var t := Ref(s, k, id);
      && Core(c, t) && NewIds(t.info) == NewIds(s.info) && TriedIds(t.info) == TriedIds(s.info)
      && Limbo(t.info) == Limbo(s.info) - {id}
  {
    hide IndexOk, TriedOk, RefsOk, TriedIds, NewIds, Limbo;
    RefTable(c, s.key, s.info, s.newTable, k, id);
    var i := s.info[id].(refCount := s.info[id].refCount + 1);
    IndexAfterUpdate(s, id, i);
    TriedAfterUpdate(c, s, id, i);
    SetsAfterUpdate(s.info, id, i);
    StatsAfterUpdate(s.info, id, i);
  }

  lemma RefTable(c: Config, key: nat, info: Infos, t: Table, k: Slot, id: int)
    requires NewOk(c, key, info, t) && RefsOk(info, t) && k !in t && NewAt(c, key, info, k, id)
    requires info[id].refCount < NEW_BUCKETS_PER_ADDRESS
    ensures info[id].refCount >= 0
    ensures var b := info[id := info[id].(refCount := info[id].refCount + 1)];
      NewOk(c, key, b, t[k := id]) && RefsOk(b, t[k := id])
  {
    SlotsAfterInsert(t, k, id);
    assert info[id].refCount == |Slots(t, id)|;
  }

  // ------------------------------------------------ entering and leaving tried

  lemma UntryKeeps(c: Config, s: State, k: Slot)
    requires Core(c, s) && k in s.triedTable
    ensures s.triedTable[k] in s.info && s.info[s.triedTable[k]].inTried && s.info[s.triedTable[k]].refCount == 0
    ensures var id := s.triedTable[k]; var t := Untry(s, k);
      && Core(c, t) && NewIds(t.info) == NewIds(s.info) + {id} && TriedIds(t.info) == TriedIds(s.info) - {id}
      && Limbo(t.info) == Limbo(s.info) + {id}
  {
    hide IndexOk, NewOk, RefsOk;
    var id := s.triedTable[k];
    assert TriedAt(c, s.key, s.info, k, id);
    var i := s.info[id].(inTried := false);
    SetsAfterUpdate(s.info, id, i);
    StatsAfterUpdate(s.info, id, i);
    IndexAfterUpdate(s, id, i);
    assert id in TriedIds(s.info);
    UntryTable(c, s.key, s.info, s.triedTable, k, id);
    TriedNotReferenced(c, s.key, s.info, s.newTable, id);
    FlagFrame(c, s.key, s.info, s.newTable, id, false);
  }

  lemma UntryTable(c: Config, key: nat, info: Infos, t: Table, k: Slot, id: int)
    requires TriedOk(c, key, info, t) && k in t && id == t[k] && id in info
    ensures TriedOk(c, key, info[id := info[id].(inTried := false)], t - {k})
  {
    var b := info[id := info[id].(inTried := false)];
    forall j | j in t - {k} ensures TriedAt(c, key, b, j, (t - {k})[j]) {
      assert TriedAt(c, key, info, j, t[j]) && TriedAt(c, key, info, k, id);
    }
  }

  lemma TriedNotReferenced(c: Config, key: nat, info: Infos, t: Table, id: int)
    requires NewOk(c, key, info, t) && RefsOk(info, t) && id in info && info[id].inTried
    ensures Slots(t, id) == {} && info[id].refCount == 0
  {
    forall k | k in t ensures t[k] != id { assert NewAt(c, key, info, k, t[k]); }
  }

  /** An unreferenced entry may change its flag without touching the new table. */
  lemma FlagFrame(c: Config, key: nat, info: Infos, t: Table, id: int, flag: bool)
    requires NewOk(c, key, info, t) && RefsOk(info, t) && id in info && info[id].refCount == 0
    ensures var b := info[id := info[id].(inTried := flag)];
      NewOk(c, key, b, t) && RefsOk(b, t)
  {
    Unreferenced(info, t, id);
    var b := info[id := info[id].(inTried := flag)];
    forall k | k in t ensures NewAt(c, key, b, k, t[k]) { assert NewAt(c, key, info, k, t[k]); }
  }

  lemma PlaceTriedKeeps(c: Config, s: State, k: Slot, id: int)
    requires Core(c, s) && k !in s.triedTable && id in Limbo(s.info) && s.info[id].lastSuccess > 0
    requires k == TriedSlot(c, s.key, s.info[id].addr.service)
    ensures var t := PlaceTried(s, k, id);
      && Core(c, t) && NewIds(t.info) == NewIds(s.info) - {id} && TriedIds(t.info) == TriedIds(s.info) + {id}
      && Limbo(t.info) == Limbo(s.info) - {id}
  {
    hide IndexOk, TriedOk, NewOk, RefsOk;
    var i := s.info[id].(inTried := true);
    SetsAfterUpdate(s.info, id, i);
    StatsAfterUpdate(s.info, id, i);
    IndexAfterUpdate(s, id, i);
    assert id !in TriedIds(s.info);
    PlaceTriedTable(c, s.key, s.info, s.triedTable, k, id);
    FlagFrame(c, s.key, s.info, s.newTable, id, true);
  }

  lemma PlaceTriedTable(c: Config, key: nat, info: Infos, t: Table, k: Slot, id: int)
    requires TriedOk(c, key, info, t) && k !in t && id in info && info[id].lastSuccess > 0 && !info[id].inTried
    requires k == TriedSlot(c, key, info[id].addr.service)
    ensures TriedOk(c, key, info[id := info[id].(inTried := true)], t[k := id])
  {
    var b := info[id := info[id].(inTried := true)];
    var t' := t[k := id];
    forall j | j in t' ensures TriedAt(c, key, b, j, t'[j]) {
      if j != k { assert TriedAt(c, key, info, j, t[j]); }
    }
    forall j | j in b ensures TriedPlaced(c, key, b[j], t[k := id], j) {
      if j != id { assert TriedPlaced(c, key, info[j], t, j); }
    }
  }

  /** Changing only the statistics of an entry. */
  lemma SetInfoKeeps(c: Config, s: State, id: int, i: AddrInfo)
    requires Core(c, s) && id in s.info
    requires i.addr.service == s.info[id].addr.service && i.refCount == s.info[id].refCount
    requires i.inTried == s.info[id].inTried && i.randomPos == s.info[id].randomPos
    requires i.lastTry >= 0 && i.lastSuccess >= 0 && (i.inTried ==> i.lastSuccess > 0)
    ensures var t := SetInfo(s, id, i);
      && Core(c, t) && NewIds(t.info) == NewIds(s.info) && TriedIds(t.info) == TriedIds(s.info)
      && Limbo(t.info) == Limbo(s.info)
  {
    hide IndexOk, TriedOk, NewOk, RefsOk, TriedIds, NewIds, Limbo;
    IndexAfterUpdate(s, id, i);
    TriedAfterUpdate(c, s, id, i);
    SetsAfterUpdate(s.info, id, i);
    StatsAfterUpdate(s.info, id, i);
    NewAfterUpdate(c, s, id, i);
  }
}
