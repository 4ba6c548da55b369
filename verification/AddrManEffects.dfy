/** What the operations of the address manager do to its entries, entry by entry and slot by slot, told from the states
    before and after (src/addrman.cpp). */
module AddrManEffects {
  import opened Wrappers
  import opened Numbers
  import opened AddrManState
  import opened AddrManInvariant
  import opened AddrManOps
  import opened AddrManRuns

  /** What an entry says about its address. The rest of it is about its places in the tables. */
  predicate SameFacts(i: AddrInfo, j: AddrInfo) {
    && i.addr == j.addr && i.source == j.source
    && i.lastSuccess == j.lastSuccess && i.lastTry == j.lastTry && i.attempts == j.attempts
  }

  /** No entry is new, and those that are left say what they said. */
  ghost predicate Facts(a: Infos, b: Infos) {
    b.Keys <= a.Keys && forall id <- b :: SameFacts(a[id], b[id])
  }

  lemma FactsTrans(a: Infos, b: Infos, d: Infos)
    requires Facts(a, b) && Facts(b, d)
    ensures Facts(a, d)
  {
  }

  lemma FactsUpdate(a: Infos, id: int, i: AddrInfo)
    requires id in a && SameFacts(a[id], i)
    ensures Facts(a, a) && Facts(a, a[id := i])
  {
  }

  lemma FactsDelete(a: Infos, b: Infos, id: int)
    requires SameButPosition(a - {id}, b)
    ensures Facts(a, b)
  {
    forall j | j in b ensures j in a && SameFacts(a[j], b[j]) { assert j in a - {id}; }
  }

  lemma ClearNewFacts(c: Config, s: State, k: Slot)
    requires Core(c, s)
    ensures Facts(s.info, ClearNew(c, s, k).info)
  {
    hide Core, Limbo, NewIds, TriedIds, SameButPosition, Facts, Delete;
    if k in s.newTable {
      UnrefKeeps(c, s, k);
      var id, t := s.newTable[k], Unref(s, k);
      FactsUpdate(s.info, id, t.info[id]);
      if t.info[id].refCount == 0 {
        DeleteKeeps(c, t, id);
        FactsDelete(t.info, Delete(t, id).info, id);
        FactsTrans(s.info, t.info, Delete(t, id).info);
      }
    } else {
      FactsSelf(s.info);
    }
  }

  lemma FactsSelf(a: Infos)
    ensures Facts(a, a)
  {
  }

  /** An evicted entry falls back to its own slot of the new table; nothing else moves. */
  lemma EvictFacts(c: Config, s: State, k: Slot)
    requires Core(c, s) && k in s.triedTable && s.triedTable[k] in s.info
    ensures var id := s.triedTable[k]; var t := Evict(c, s, k); var u := HomeSlot(c, s.key, s.info[id]);
      && Facts(s.info, t.info)
      && t.newTable == s.newTable[u := id] && t.triedTable == s.triedTable - {k}
  {
    hide Core, NewIds, TriedIds, Limbo, Keeps, Facts, ClearNew;
    UntryKeeps(c, s, k);
    EvictedStays(c, s, k);
    var id := s.triedTable[k];
    var u := HomeSlot(c, s.key, s.info[id]);
    var m := Untry(s, k);
    var a := ClearNew(c, m, u);
    ClearNewKeeps(c, m, u);
    ClearNewFacts(c, m, u);
    FactsUpdate(s.info, id, m.info[id]);
    FactsTrans(s.info, m.info, a.info);
    var b := Ref(a, u, id);
    FactsUpdate(a.info, id, b.info[id]);
    FactsTrans(s.info, a.info, b.info);
    assert (s.newTable - {u})[u := id] == s.newTable[u := id];
  }

  /** A table without the slots of one entry. */
  function Without(t: Table, id: int): Table {
    map k | k in t && t[k] != id :: t[k]
  }

  lemma WithdrawTable(c: Config, s: State, id: int)
    requires Inv(c, s) && id in NewIds(s.info)
    ensures Withdraw(c, s, id).newTable == Without(s.newTable, id)
  {
    hide Core;
    DetachKeeps(c, s, id, c.newBuckets);
    BucketsInRange(c, s);
  }

  /** The tables after an entry has been moved to the tried table: it has left the new table for its own tried slot, and
      the entry that was there has its own slot of the new table. */
  ghost predicate MovedToTried(c: Config, s: State, t: State, id: int)
    requires id in s.info
  {
    var k := TriedSlot(c, s.key, s.info[id].addr.service);
    && t.triedTable == s.triedTable[k := id]
    && (k !in s.triedTable ==> t.newTable == Without(s.newTable, id))
    && (k in s.triedTable ==>
          && s.triedTable[k] in s.info
          && var e := s.info[s.triedTable[k]];
             var u := NewSlot(c, s.key, e.addr.service, c.newBucket(s.key, e.addr.service, e.source));
             t.newTable == Without(s.newTable, id)[u := s.triedTable[k]])
  }

  lemma MakeTriedFacts(c: Config, s: State, id: int)
    requires Inv(c, s) && id in NewIds(s.info)
    ensures var t := MakeTried(c, s, id); id in t.info && Facts(s.info, t.info) && MovedToTried(c, s, t, id)
  {
    hide Core, Limbo, NewIds, TriedIds, Keeps, Withdraw, Evict, Facts, Deficit;
    WithdrawKeeps(c, s, id);
    EvictionKeeps(c, s, id);
    WithdrawTable(c, s, id);
    var w := Withdraw(c, s, id);
    FactsUpdate(s.info, id, w.info[id]);
    var k := TriedSlot(c, w.key, w.info[id].addr.service);
    var e := if k in w.triedTable then Evict(c, w, k) else w;
    TriedIsNotNew(c, s, k, id);
    if k in w.triedTable {
      EvictedStays(c, w, k);
      EvictFacts(c, w, k);
      FactsTrans(s.info, w.info, e.info);
    }
    var t := PlaceTried(e, k, id);
    FactsUpdate(e.info, id, t.info[id]);
    FactsTrans(s.info, e.info, t.info);
  }

  /** An entry is worth handing out if it was tried within the last minute, or else if it has been seen within thirty
      days and not in the future, has not failed three times without ever succeeding, and has not failed ten times in a
      week without success. */
  lemma WorthHandingOut(i: AddrInfo, now: int)
    ensures !IsTerrible(i, now) <==>
      || (i.lastTry != 0 && now - 60 <= i.lastTry)
      || (&& i.addr.time != 0 && now - 2_592_000 <= i.addr.time <= now + 600
          && (i.lastSuccess != 0 || i.attempts < 3)
          && (now - 604_800 <= i.lastSuccess || i.attempts < 10))
  {
  }

  // ---------------------------------------------------------------- Good

  /** After Good_ the entry for exactly this address and port has succeeded and been tried at this time, with no failed
      attempt since; nothing else about it has changed, and nothing at all about what any other entry says. If it was
      not in the tried table, it has been moved there. */
  lemma GoodMeans(c: Config, s: State, addr: Service, time: int)
    requires Inv(c, s) && time > 0
    ensures var t := Good(c, s, addr, time);
      && t.info.Keys <= s.info.Keys
      && (forall id <- s.info :: s.info[id].addr.service == addr ==>
            && id in t.info && t.info[id].inTried
            && t.info[id].lastSuccess == time && t.info[id].lastTry == time && t.info[id].attempts == 0
            && t.info[id].addr == s.info[id].addr && t.info[id].source == s.info[id].source
            && (s.info[id].inTried ==> t.newTable == s.newTable && t.triedTable == s.triedTable)
            && (!s.info[id].inTried ==> MovedToTried(c, s, t, id)))
      && (forall id <- t.info :: t.info[id].addr.service != addr ==> SameFacts(s.info[id], t.info[id]))
  {
    hide Core, Limbo, NewIds, TriedIds, MakeTried, MovedToTried, SetInfo, Good;
    GoodKeeps(c, s, addr, time);
    Lookup(c, s, addr.ip);
    var found := Find(s, addr.ip);
    if found.Some? && s.info[found.value].addr.service == addr {
      GoodEntry(c, s, found.value, time);
    }
  }

  lemma GoodEntry(c: Config, s: State, id: int, time: int)
    requires Inv(c, s) && time > 0 && id in s.info && Find(s, s.info[id].addr.service.ip) == Some(id)
    ensures var t := Good(c, s, s.info[id].addr.service, time);
      && t.info.Keys <= s.info.Keys && id in t.info && t.info[id].inTried
      && SameFacts(t.info[id], s.info[id].(lastSuccess := time, lastTry := time, attempts := 0))
      && (forall j <- t.info :: j != id ==> SameFacts(s.info[j], t.info[j]))
      && (s.info[id].inTried ==> t.newTable == s.newTable && t.triedTable == s.triedTable)
      && (!s.info[id].inTried ==> MovedToTried(c, s, t, id))
  {
    hide Core, Limbo, NewIds, TriedIds, MakeTried, Occupant;
    SucceededKeeps(c, s, id, time);
    var m := SetInfo(s, id, Succeeded(s.info[id], time));
    assert m.info.Keys == s.info.Keys;
    Membership(m.info, id);
    if !m.info[id].inTried {
      ScanFinds(c, m, id);
      MakeTriedFacts(c, m, id);
      MakeTriedKeeps(c, m, id);
      var t := MakeTried(c, m, id);
      InTriedTable(c, t, TriedSlot(c, s.key, s.info[id].addr.service), id);
      MovedFrame(c, s, m, t, id);
    }
  }

  lemma InTriedTable(c: Config, t: State, k: Slot, id: int)
    requires Core(c, t) && Holds(t.triedTable, k, id)
    ensures id in t.info && t.info[id].inTried
  {
    assert TriedAt(c, t.key, t.info, k, id);
  }

  lemma MovedFrame(c: Config, s: State, m: State, t: State, id: int)
    requires id in s.info && m == s.(info := m.info) && m.info.Keys == s.info.Keys && MovedToTried(c, m, t, id)
    requires forall j <- s.info :: m.info[j].addr == s.info[j].addr && m.info[j].source == s.info[j].source
    ensures MovedToTried(c, s, t, id)
  {
    var k := TriedSlot(c, s.key, s.info[id].addr.service);
    if k in s.triedTable {
      var j := s.triedTable[k];
      assert m.info[j].addr == s.info[j].addr && m.info[j].source == s.info[j].source;
    }
  }

  // ------------------------------------------------- Attempt and Connected

  /** Attempt_ counts one more attempt of exactly this address and port at this time, and changes nothing else. */
  lemma AttemptMeans(c: Config, s: State, addr: Service, time: int)
    requires Inv(c, s)
    ensures var t := Attempt(s, addr, time);
      && t == s.(info := t.info) && t.info.Keys == s.info.Keys
      && forall id <- s.info ::
           if s.info[id].addr.service == addr then
             && t.info[id].lastTry == time && t.info[id].attempts == s.info[id].attempts + 1
             && t.info[id] == s.info[id].(lastTry := t.info[id].lastTry, attempts := t.info[id].attempts)
           else t.info[id] == s.info[id]
  {
    hide Core, Limbo, NewIds;
    Lookup(c, s, addr.ip);
  }

  /** Connected_ moves the time of exactly this address and port, when it is more than twenty minutes old, and changes
      nothing else. */
  lemma ConnectedMeans(c: Config, s: State, addr: Service, time: int)
    requires Inv(c, s)
    ensures var t := Connected(s, addr, time);
      && t == s.(info := t.info) && t.info.Keys == s.info.Keys
      && forall id <- s.info ::
           if s.info[id].addr.service == addr && s.info[id].addr.time + 20 * 60 < time then
             && t.info[id].addr.time == time % 0x1_0000_0000
             && t.info[id] == s.info[id].(addr := s.info[id].addr.(time := t.info[id].addr.time))
           else t.info[id] == s.info[id]
  {
    hide Core, Limbo, NewIds;
    Lookup(c, s, addr.ip);
  }

  // ----------------------------------------------------------------- Add

  /** Where an insertion puts the entry, if it does. */
  lemma InsertFacts(c: Config, s: State, id: int, source: NetAddr, now: int)
    requires Core(c, s) && id in s.info && !s.info[id].inTried
    ensures var t := Insert(c, s, id, source, now); var k := TargetSlot(c, s.key, s.info[id].addr.service, source);
      && Facts(s.info, t.info) && t.triedTable == s.triedTable
      && (k in s.newTable ==> s.newTable[k] in s.info)
      && t.newTable == if Enters(s, k, id, now) then s.newTable[k := id] else s.newTable
  {
    hide Core, NewIds, TriedIds, Limbo, Keeps, ClearNew, Delete, IsTerrible, Facts, SameButPosition;
    var k := TargetSlot(c, s.key, s.info[id].addr.service, source);
    SlotEntry(c, s, k);
    FactsSelf(s.info);
    if Holds(s.newTable, k, id) {
      assert s.newTable[k := id] == s.newTable;
    } else if Enters(s, k, id, now) {
      ClearNewKeeps(c, s, k);
      ClearNewFacts(c, s, k);
      StaysWhenCleared(c, s, k, id);
      var m := ClearNew(c, s, k);
      var t := Ref(m, k, id);
      FactsUpdate(m.info, id, t.info[id]);
      FactsTrans(s.info, m.info, t.info);
      assert (s.newTable - {k})[k := id] == s.newTable[k := id];
    } else if s.info[id].refCount == 0 {
      Membership(s.info, id);
      DeleteKeeps(c, s, id);
      FactsDelete(s.info, Delete(s, id).info, id);
    }
  }

  /** When a known entry is told of an address again: how much later than its own the time must be for it to be taken
      over, an hour for an address seen today and else a day, and the penalty on top. */
  predicate IsNews(known: int, announced: int, penalty: int, now: int) {
    && announced != 0
    && (known == 0 || known + penalty + (if now < announced + DAY then 3600 else DAY) < announced)
  }

  /** A known entry takes the time over if it is news, less the penalty, and has the services of both. */
  ghost predicate Informed(i: AddrInfo, r: AddrInfo, addr: Address, penalty: int, now: int) {
    && r.addr.service == i.addr.service
    && r.addr.services == i.addr.services | addr.services
    && r.addr.time == (if !IsNews(i.addr.time, addr.time, penalty, now) then i.addr.time
                       else if addr.time < penalty then 0 else (addr.time - penalty) % 0x1_0000_0000)
    && SameFacts(r, i.(addr := r.addr))
  }

  lemma RefreshedMeans(i: AddrInfo, addr: Address, penalty: int, now: int)
    ensures Informed(i, Refreshed(i, addr, penalty, now), addr, penalty, now)
  {
  }

  lemma InformedSame(i: AddrInfo, m: AddrInfo, r: AddrInfo, addr: Address, penalty: int, now: int)
    requires Informed(i, m, addr, penalty, now) && SameFacts(m, r)
    ensures Informed(i, r, addr, penalty, now)
  {
  }

  /** Whether a known entry, whose time is now `time`, gets the slot that its own address and the source select: it must
      not be tried or have eight slots, the announcement must be later than what it says, the draw must be won, and the
      slot must be free or its entry terrible. */
  predicate Gets(c: Config, s: State, id: int, time: int, announced: int, source: NetAddr, now: int, rnd: int)
    requires id in s.info
  {
    var k := NewSlot(c, s.key, s.info[id].addr.service, c.newBucket(s.key, s.info[id].addr.service, source));
    && !s.info[id].inTried && s.info[id].refCount < 8 && rnd == 0
    && announced != 0 && (time == 0 || time < announced)
    && (k !in s.newTable || s.newTable[k] == id || (s.newTable[k] in s.info && IsTerrible(s.info[s.newTable[k]], now)))
  }

  /** An address that is known: its entry is told of it, no other entry says anything else than before, and no slot
      changes but the one it may get. */
  lemma AddKnownMeans(c: Config, s: State, id: int, addr: Address, source: NetAddr, penalty: int, now: int, rnd: int)
    requires Inv(c, s) && c.routable(addr.service.ip) && id in s.info && s.info[id].addr.service.ip == addr.service.ip
    ensures var (t, added) := Add(c, s, addr, source, penalty, now, rnd);
      var k := NewSlot(c, s.key, s.info[id].addr.service, c.newBucket(s.key, s.info[id].addr.service, source));
      && !added && t.info.Keys <= s.info.Keys && t.triedTable == s.triedTable
      && id in t.info && Informed(s.info[id], t.info[id], addr, penalty, now)
      && (forall j <- t.info :: j != id ==> SameFacts(s.info[j], t.info[j]))
      && t.newTable == if Gets(c, s, id, t.info[id].addr.time, addr.time, source, now, rnd)
                       then s.newTable[k := id] else s.newTable
  {
    hide Core, NewIds, TriedIds, Limbo, Insert, Refreshed, Declines, Informed, IsTerrible;
    Lookup(c, s, addr.service.ip);
    RefreshedKeeps(c, s, id, addr, penalty, now);
    var i := Refreshed(s.info[id], addr, penalty, now);
    var m := SetInfo(s, id, i);
    RefreshedMeans(s.info[id], addr, penalty, now);
    RefreshedPlace(s.info[id], addr, penalty, now);
    ReferenceBounds(c, m, id);
    if !i.inTried { NotInLimbo(c, m, id); }
    DeclinesWhen(i, addr, rnd);
    if !Declines(i, addr, rnd) {
      KnownInserted(c, m, id, source, now);
      InformedSame(s.info[id], i, Insert(c, m, id, source, now).info[id], addr, penalty, now);
    }
  }

  lemma RefreshedPlace(i: AddrInfo, addr: Address, penalty: int, now: int)
    ensures var r := Refreshed(i, addr, penalty, now);
      r.inTried == i.inTried && r.refCount == i.refCount && r.addr.service == i.addr.service
  {
  }

  lemma DeclinesWhen(i: AddrInfo, addr: Address, rnd: int)
    requires i.inTried || i.refCount > 0
    ensures Declines(i, addr, rnd) <==>
      || i.inTried || i.refCount == 8 || rnd != 0
      || addr.time == 0 || (i.addr.time != 0 && addr.time <= i.addr.time)
  {
    hide Pow;
    if i.refCount > 0 {
      FactorIs(i.refCount - 1);
      PowPositive(2, i.refCount - 1);
    }
  }

  lemma KnownInserted(c: Config, s: State, id: int, source: NetAddr, now: int)
    requires Inv(c, s) && id in s.info && !s.info[id].inTried && s.info[id].refCount < NEW_BUCKETS_PER_ADDRESS
    ensures var t := Insert(c, s, id, source, now); var k := TargetSlot(c, s.key, s.info[id].addr.service, source);
      && id in t.info && Facts(s.info, t.info) && t.triedTable == s.triedTable
      && (k in s.newTable ==> s.newTable[k] in s.info)
      && t.newTable == if k !in s.newTable || s.newTable[k] == id || IsTerrible(s.info[s.newTable[k]], now)
                       then s.newTable[k := id] else s.newTable
  {
    hide Core, NewIds, TriedIds, Insert, IsTerrible, Facts;
    NotInLimbo(c, s, id);
    InsertFacts(c, s, id, source, now);
    InsertKeeps(c, s, id, source, now);
  }

  lemma NotInLimbo(c: Config, s: State, id: int)
    requires Inv(c, s) && id in s.info && !s.info[id].inTried
    ensures s.info[id].refCount > 0
  {
    ReferenceBounds(c, s, id);
    assert id !in Limbo(s.info);
  }

  /** An entry as an announcement makes it: the address, services and source announced, the time less the penalty, and
      no history. */
  predicate AsAnnounced(i: AddrInfo, addr: Address, source: NetAddr, penalty: int) {
    && i.addr == addr.(time := if addr.time < penalty then 0 else (addr.time - penalty) % 0x1_0000_0000)
    && i.source == source && i.lastSuccess == i.lastTry == i.attempts == 0
  }

  lemma AnnouncedEntry(s: State, addr: Address, source: NetAddr, penalty: int)
    ensures var t := Announced(s, addr, source, penalty);
      && s.idCount in t.info && AsAnnounced(t.info[s.idCount], addr, source, penalty)
      && t.triedTable == s.triedTable
  {
  }

  lemma AnnouncedSame(i: AddrInfo, r: AddrInfo, addr: Address, source: NetAddr, penalty: int)
    requires AsAnnounced(i, addr, source, penalty) && SameFacts(i, r)
    ensures AsAnnounced(r, addr, source, penalty)
  {
  }

  /** An address that is not known: if it is kept, it is under a new id as announced, in one slot, which its own address
      and the source select. No other entry says anything else than before. */
  lemma AddUnknownMeans(c: Config, s: State, addr: Address, source: NetAddr, penalty: int, now: int, rnd: int)
    requires Inv(c, s) && c.routable(addr.service.ip)
    requires forall id <- s.info :: s.info[id].addr.service.ip != addr.service.ip
    ensures var (t, added) := Add(c, s, addr, source, penalty, now, rnd); var id := s.idCount;
      var k := NewSlot(c, s.key, addr.service, c.newBucket(s.key, addr.service, source));
      && added && id !in s.info && t.info.Keys <= s.info.Keys + {id} && t.triedTable == s.triedTable
      && (forall j <- t.info :: j != id ==> SameFacts(s.info[j], t.info[j]))
      && t.newTable == (if id in t.info then s.newTable[k := id] else s.newTable)
      && (id in t.info ==> AsAnnounced(t.info[id], addr, source, penalty) && !t.info[id].inTried)
  {
    hide Core, NewIds, TriedIds, Limbo, Insert, Announced, AsAnnounced, SameFacts, Facts, Deficit;
    Lookup(c, s, addr.service.ip);
    AnnouncedKeeps(c, s, addr, source, penalty);
    AnnouncedEntry(s, addr, source, penalty);
    var m, id := Announced(s, addr, source, penalty), s.idCount;
    NewInserted(c, m, id, source, now);
    var t := Insert(c, m, id, source, now);
    FactsBefore(s.info, m.info, t.info, id);
    if id in t.info {
      AnnouncedSame(m.info[id], t.info[id], addr, source, penalty);
      NewIsNotTried(s.info, id);
      TriedMember(t.info, id);
    }
  }

  lemma FactsBefore(a: Infos, m: Infos, b: Infos, id: int)
    requires id !in a && m.Keys == a.Keys + {id} && (forall j <- a :: m[j] == a[j]) && Facts(m, b)
    ensures b.Keys <= a.Keys + {id} && (id in b ==> SameFacts(m[id], b[id]))
    ensures forall j <- b :: j != id ==> SameFacts(a[j], b[j])
  {
    hide SameFacts;
    forall j | j in b && j != id ensures j in a && SameFacts(a[j], b[j]) { assert SameFacts(m[j], b[j]); }
  }

  lemma NewInserted(c: Config, s: State, id: int, source: NetAddr, now: int)
    requires Core(c, s) && id in s.info && !s.info[id].inTried && s.info[id].refCount == 0
    requires Limbo(s.info) - {id} == {} && Deficit(s) == 0
    ensures var t := Insert(c, s, id, source, now); var k := TargetSlot(c, s.key, s.info[id].addr.service, source);
      && Facts(s.info, t.info) && t.triedTable == s.triedTable && TriedIds(t.info) == TriedIds(s.info)
      && t.newTable == if id in t.info then s.newTable[k := id] else s.newTable
  {
    hide Core, NewIds, TriedIds, Limbo, Insert, Enters, Facts;
    InsertFacts(c, s, id, source, now);
    InsertKeeps(c, s, id, source, now);
  }

  lemma NewIsNotTried(info: Infos, id: int)
    requires id !in info
    ensures id !in TriedIds(info)
  {
  }

  lemma TriedMember(info: Infos, id: int)
    ensures id in TriedIds(info) <==> id in info && info[id].inTried
  {
  }
}
