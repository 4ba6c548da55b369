/** The public operations of the address manager and the consistency of every
    run of them (src/addrman.cpp). Random draws and the clock are parameters. */
module AddrManRuns {
  import opened Wrappers
  import opened Numbers
  import opened AddrManState
  import opened AddrManInvariant
  import opened AddrManOps

  // ---------------------------------------------------------------- Good

  lemma MakeTriedKeeps(c: Config, s: State, id: int)
    requires Inv(c, s) && id in NewIds(s.info) && s.info[id].lastSuccess > 0
    ensures var t := MakeTried(c, s, id); var k := TriedSlot(c, s.key, s.info[id].addr.service);
      && Inv(c, t)
      && TriedIds(t.info) == TriedIds(s.info) - Occupant(s.triedTable, k) + {id}
      && Occupant(s.triedTable, k) <= NewIds(t.info)
      && Holds(t.triedTable, k, id)
      && s.info.Keys - t.info.Keys <= NewIds(s.info) - {id} && |s.info.Keys - t.info.Keys| <= 1
      && t.info.Keys <= s.info.Keys
  {
    hide Core, Limbo, NewIds, TriedIds, Keeps, Withdraw, Evict, PlaceTried, Deficit;
    WithdrawKeeps(c, s, id);
    EvictionKeeps(c, s, id);
    var w := Withdraw(c, s, id);
    var k := TriedSlot(c, w.key, w.info[id].addr.service);
    var e := if k in w.triedTable then Evict(c, w, k) else w;
    PlacedKeeps(c, e, k, id);
    TriedIsNotNew(c, s, k, id);
  }

  /** Placing the one entry in limbo ends the operation. */
  lemma PlacedKeeps(c: Config, e: State, k: Slot, id: int)
    requires Core(c, e) && k !in e.triedTable && id in Limbo(e.info) && Limbo(e.info) == {id} && Deficit(e) == 1
    requires e.info[id].lastSuccess > 0 && k == TriedSlot(c, e.key, e.info[id].addr.service)
    ensures var t := PlaceTried(e, k, id);
      && Inv(c, t) && Holds(t.triedTable, k, id) && t.info.Keys == e.info.Keys
      && NewIds(t.info) == NewIds(e.info) - {id} && TriedIds(t.info) == TriedIds(e.info) + {id}
  {
    hide Core, Limbo, TriedIds;
    PlaceTriedKeeps(c, e, k, id);
    InLimboIsNew(e.info, id);
    assert |NewIds(e.info) - {id}| == |NewIds(e.info)| - 1;
  }

  lemma InLimboIsNew(info: Infos, id: int)
    requires id in Limbo(info)
    ensures id in NewIds(info)
  {
  }

  lemma TriedIsNotNew(c: Config, s: State, k: Slot, id: int)
    requires Core(c, s) && id in NewIds(s.info)
    ensures id !in Occupant(s.triedTable, k)
  {
    if k in s.triedTable { assert TriedAt(c, s.key, s.info, k, s.triedTable[k]); }
  }

  /** The scan of Good_ over all new buckets, from wherever it starts. */
  predicate InSomeBucket(c: Config, s: State, id: int)
    requires id in s.info
  {
    exists b :: 0 <= b < c.newBuckets && Holds(s.newTable, NewSlot(c, s.key, s.info[id].addr.service, b), id)
  }

  /** So the scan never comes back empty-handed. */
  lemma ScanFinds(c: Config, s: State, id: int)
    requires Inv(c, s) && id in NewIds(s.info)
    ensures InSomeBucket(c, s, id)
  {
    assert id !in Limbo(s.info);
    assert |Slots(s.newTable, id)| > 0;
    var k :| k in Slots(s.newTable, id);
    assert NewAt(c, s.key, s.info, k, id);
    assert Holds(s.newTable, NewSlot(c, s.key, s.info[id].addr.service, k.0), id);
  }

  function Succeeded(i: AddrInfo, time: int): AddrInfo {
    i.(lastSuccess := time, lastTry := time, attempts := 0)
  }

  lemma SucceededKeeps(c: Config, s: State, id: int, time: int)
    requires Inv(c, s) && id in s.info && time > 0
    ensures var t := SetInfo(s, id, Succeeded(s.info[id], time));
      Inv(c, t) && NewIds(t.info) == NewIds(s.info) && TriedIds(t.info) == TriedIds(s.info)
  {
    hide Core, NewIds, TriedIds, Limbo;
    SetInfoKeeps(c, s, id, Succeeded(s.info[id], time));
  }

  function Good(c: Config, s: State, addr: Service, time: int): State
    requires Inv(c, s) && time > 0
  {
    var found := Find(s, addr.ip);
    if found.None? || s.info[found.value].addr.service != addr then s
    else
      var id := found.value;
      SucceededKeeps(c, s, id, time);
      var t := SetInfo(s, id, Succeeded(s.info[id], time));
      if t.info[id].inTried || !InSomeBucket(c, t, id) then t
      else MakeTried(c, t, id)
  }

  /** Good_ moves the entry for exactly this address and port into its tried slot, demotes the entry that was
      there, and forgets at most one entry, which had never been tried. */
  lemma GoodKeeps(c: Config, s: State, addr: Service, time: int)
    requires Inv(c, s) && time > 0
    ensures var t := Good(c, s, addr, time);
      && Inv(c, t)
      && (forall id <- s.info :: s.info[id].addr.service == addr ==>
            var k := TriedSlot(c, s.key, addr);
            && TriedIds(t.info) == TriedIds(s.info) - Occupant(s.triedTable, k) + {id}
            && Holds(t.triedTable, k, id) && Occupant(s.triedTable, k) - {id} <= NewIds(t.info)
            && s.info.Keys - t.info.Keys <= NewIds(s.info) - {id})
      && |s.info.Keys - t.info.Keys| <= 1 && t.info.Keys <= s.info.Keys
      && ((forall id <- s.info :: s.info[id].addr.service != addr) ==> t == s)
  {
    hide Core, Limbo, Keeps, MakeTried, TriedIds, NewIds, Occupant, SetInfo;
    Lookup(c, s, addr.ip);
    var found := Find(s, addr.ip);
    if found.Some? && s.info[found.value].addr.service == addr {
      GoodKnown(c, s, found.value, time);
    } else {
      assert s.info.Keys - s.info.Keys == {};
    }
  }

  lemma GoodKnown(c: Config, s: State, id: int, time: int)
    requires Inv(c, s) && time > 0 && id in s.info && Find(s, s.info[id].addr.service.ip) == Some(id)
    ensures var t := Good(c, s, s.info[id].addr.service, time); var k := TriedSlot(c, s.key, s.info[id].addr.service);
      && Inv(c, t)
      && TriedIds(t.info) == TriedIds(s.info) - Occupant(s.triedTable, k) + {id}
      && Holds(t.triedTable, k, id) && Occupant(s.triedTable, k) - {id} <= NewIds(t.info)
      && s.info.Keys - t.info.Keys <= NewIds(s.info) - {id}
      && |s.info.Keys - t.info.Keys| <= 1 && t.info.Keys <= s.info.Keys
  {
    hide Core, Limbo, Keeps, MakeTried, TriedIds, NewIds;
    SucceededKeeps(c, s, id, time);
    var t := SetInfo(s, id, Succeeded(s.info[id], time));
    assert t.info.Keys == s.info.Keys;
    Membership(t.info, id);
    if t.info[id].inTried {
      TriedSits(c, t, id);
      assert s.info.Keys - t.info.Keys == {};
    } else {
      ScanFinds(c, t, id);
      MakeTriedKeeps(c, t, id);
    }
  }

  lemma TriedSits(c: Config, s: State, id: int)
    requires Core(c, s) && id in s.info && s.info[id].inTried
    ensures Holds(s.triedTable, TriedSlot(c, s.key, s.info[id].addr.service), id) && id in TriedIds(s.info)
  {
    assert TriedPlaced(c, s.key, s.info[id], s.triedTable, id);
  }

  /** Find answers with the entry whose address it is, and there is at most one. */
  lemma Lookup(c: Config, s: State, ip: NetAddr)
    requires Core(c, s)
    ensures Find(s, ip).None? <==> ip !in s.byAddr
    ensures Find(s, ip).None? <==> forall id <- s.info :: s.info[id].addr.service.ip != ip
    ensures Find(s, ip).Some? ==> (forall id <- s.info :: s.info[id].addr.service.ip == ip <==> id == Find(s, ip).value)
  {
    forall id | id in s.info ensures Maps(s.byAddr, s.info[id].addr.service.ip, id) {}
    if ip in s.byAddr { assert HasAddr(s.info, s.byAddr[ip], ip); }
  }

  // ----------------------------------------------------------------- Add

  /** What a repeated announcement changes in a known entry. */
  function Refreshed(i: AddrInfo, addr: Address, penalty: int, now: int): AddrInfo {
    var time := RefreshedTime(i.addr.time, addr.time, penalty, now);
    i.(addr := i.addr.(time := time, services := i.addr.services | addr.services))
  }

  function RefreshedTime(known: int, announced: int, penalty: int, now: int): int {
    var interval := if now - announced < DAY then 60 * 60 else DAY;
    if announced != 0 && (known == 0 || known < announced - interval - penalty) then Max(0, announced - penalty) % U32
    else known
  }

  function Factor(n: int): nat
    decreases n
  {
    if n <= 0 then 1 else 2 * Factor(n - 1)
  }

  /** A known entry gets no further reference; `rnd` is the draw that makes each one harder than the last. */
  predicate Declines(i: AddrInfo, addr: Address, rnd: int) {
    || addr.time == 0
    || (i.addr.time != 0 && addr.time <= i.addr.time)
    || i.inTried
    || i.refCount == NEW_BUCKETS_PER_ADDRESS
    || (Factor(i.refCount) > 1 && rnd != 0)
  }

  /** A known entry is never set back in time, and loses no service. */
  lemma RefreshedForward(i: AddrInfo, addr: Address, penalty: int, now: int)
    requires 0 <= i.addr.time && 0 <= penalty && addr.time < U32
    ensures var r := Refreshed(i, addr, penalty, now);
      && i.addr.time <= r.addr.time < Max(i.addr.time + 1, U32)
      && r.addr.services == r.addr.services | i.addr.services
      && r == i.(addr := r.addr) && r.addr.service == i.addr.service
  {
    var s, a := i.addr.services, addr.services;
    assert s | a == (s | a) | s;
  }

  /** Each reference makes the next one twice as hard to get. */
  lemma {:induction false} FactorIs(n: nat)
    ensures Factor(n) == Pow(2, n)
  {
    hide Pow, Mul;
    PowUnit(2);
    if n > 0 {
      FactorIs(n - 1);
      PowStep(2, n - 1);
    }
  }

  /** An entry takes over an occupied slot only from one that is terrible, or one that has other slots to live in. */
  predicate Overwrites(s: State, k: Slot, id: int, now: int)
    requires k in s.newTable && s.newTable[k] in s.info && id in s.info
  {
    var e := s.info[s.newTable[k]];
    IsTerrible(e, now) || (e.refCount > 1 && s.info[id].refCount == 0)
  }

  function TargetSlot(c: Config, key: nat, a: Service, source: NetAddr): Slot {
    NewSlot(c, key, a, c.newBucket(key, a, source))
  }

  predicate Enters(s: State, k: Slot, id: int, now: int)
    requires id in s.info && (k in s.newTable ==> s.newTable[k] in s.info)
  {
    k !in s.newTable || Overwrites(s, k, id, now)
  }

  function Insert(c: Config, s: State, id: int, source: NetAddr, now: int): State
    requires Core(c, s) && id in s.info && !s.info[id].inTried
  {
    var k := TargetSlot(c, s.key, s.info[id].addr.service, source);
    SlotEntry(c, s, k);
    if Holds(s.newTable, k, id) then s
    else if Enters(s, k, id, now) then
      StaysWhenCleared(c, s, k, id);
      Ref(ClearNew(c, s, k), k, id)
    else if s.info[id].refCount == 0 then
      DeleteKeeps(c, s, id);
      Delete(s, id)
    else s
  }

  lemma SlotEntry(c: Config, s: State, k: Slot)
    requires Core(c, s)
    ensures k in s.newTable ==> s.newTable[k] in s.info && s.info[s.newTable[k]].refCount > 0
  {
    if k in s.newTable { UnrefKeeps(c, s, k); }
  }

  lemma StaysWhenCleared(c: Config, s: State, k: Slot, id: int)
    requires Core(c, s) && id in s.info && !Holds(s.newTable, k, id)
    ensures var t := ClearNew(c, s, k);
      id in t.info && t.info[id] == s.info[id].(randomPos := t.info[id].randomPos)
  {
    hide Core, NewIds, TriedIds, Limbo, Keeps;
    ClearNewKeeps(c, s, k);
    KeptEntry(s.info, ClearNew(c, s, k).info, Occupant(s.newTable, k), id);
  }

  lemma InsertKeeps(c: Config, s: State, id: int, source: NetAddr, now: int)
    requires Core(c, s) && id in s.info && !s.info[id].inTried && s.info[id].refCount < NEW_BUCKETS_PER_ADDRESS
    requires Limbo(s.info) - {id} == {} && Deficit(s) == 0
    ensures var t := Insert(c, s, id, source, now); var k := TargetSlot(c, s.key, s.info[id].addr.service, source);
      && Inv(c, t) && TriedIds(t.info) == TriedIds(s.info)
      && (k in s.newTable ==> s.newTable[k] in s.info)
      && (id in t.info <==> s.info[id].refCount > 0 || Enters(s, k, id, now))
      && t.info.Keys <= s.info.Keys && |s.info.Keys - t.info.Keys| <= 1
      && t.key == s.key && t.triedTable == s.triedTable
  {
    hide Core, NewIds, TriedIds, Keeps, ClearNew, Delete, IsTerrible;
    var k := TargetSlot(c, s.key, s.info[id].addr.service, source);
    SlotEntry(c, s, k);
    ReferenceBounds(c, s, id);
    assert s.info.Keys - s.info.Keys == {};
    if Holds(s.newTable, k, id) {
    } else if Enters(s, k, id, now) {
      EnterKeeps(c, s, id, k);
    } else if s.info[id].refCount == 0 {
      DeleteKeeps(c, s, id);
      Membership(s.info, id);
      KeysAfterDelete(s.info, Delete(s, id).info, id);
    }
  }

  lemma EnterKeeps(c: Config, s: State, id: int, k: Slot)
    requires Core(c, s) && id in s.info && !s.info[id].inTried && s.info[id].refCount < NEW_BUCKETS_PER_ADDRESS
    requires k == NewSlot(c, s.key, s.info[id].addr.service, k.0) && 0 <= k.0 < c.newBuckets
    requires !Holds(s.newTable, k, id) && Limbo(s.info) - {id} == {} && Deficit(s) == 0
    ensures id in ClearNew(c, s, k).info
    ensures var t := Ref(ClearNew(c, s, k), k, id);
      && Inv(c, t) && TriedIds(t.info) == TriedIds(s.info) && id in t.info
      && t.info.Keys <= s.info.Keys && |s.info.Keys - t.info.Keys| <= 1
      && t.key == s.key && t.triedTable == s.triedTable
  {
    hide Core, NewIds, TriedIds, Limbo, Keeps, ClearNew;
    ClearNewKeeps(c, s, k);
    StaysWhenCleared(c, s, k, id);
    var m := ClearNew(c, s, k);
    RefKeeps(c, m, k, id);
    DisplacedIsNew(c, s, k);
    assert Ref(m, k, id).info.Keys == m.info.Keys;
    assert s.info.Keys - m.info.Keys == Displaced(s, k);
  }

  lemma KeysAfterDelete(a: Infos, b: Infos, id: int)
    requires id in a && SameButPosition(a - {id}, b)
    ensures b.Keys == a.Keys - {id} && a.Keys - b.Keys == {id}
  {
    forall j ensures j in b <==> j in a.Keys - {id} { assert j in b <==> j in a - {id}; }
  }

  lemma ReferenceBounds(c: Config, s: State, id: int)
    requires Core(c, s) && id in s.info
    ensures 0 <= s.info[id].refCount <= NEW_BUCKETS_PER_ADDRESS
    ensures (exists k :: Holds(s.newTable, k, id)) ==> s.info[id].refCount > 0
  {
    if k :| Holds(s.newTable, k, id) { assert k in Slots(s.newTable, id); }
  }

  /** A new entry, counted but not yet in any bucket. */
  function Announced(s: State, addr: Address, source: NetAddr, penalty: int): State {
    Create(s, addr.(time := Max(0, addr.time - penalty) % U32), source).(newCount := s.newCount + 1)
  }

  lemma AnnouncedKeeps(c: Config, s: State, addr: Address, source: NetAddr, penalty: int)
    requires Inv(c, s) && addr.service.ip !in s.byAddr
    ensures var t := Announced(s, addr, source, penalty);
      && Core(c, t) && s.idCount in t.info && t.info[s.idCount].refCount == 0 && !t.info[s.idCount].inTried
      && t.info[s.idCount].addr.service == addr.service
      && Limbo(t.info) - {s.idCount} == {} && Deficit(t) == 0 && TriedIds(t.info) == TriedIds(s.info)
      && s.idCount !in s.info && t.newTable == s.newTable && t.key == s.key && t.info.Keys == s.info.Keys + {s.idCount}
      && (forall id <- s.info :: t.info[id] == s.info[id])
  {
    hide Core, NewIds, TriedIds, Limbo;
    var a := addr.(time := Max(0, addr.time - penalty) % U32);
    CreateKeeps(c, s, a, source);
    CountFrame(c, Create(s, a, source), s.newCount + 1);
    assert s.idCount !in NewIds(s.info) by { NotThere(s.info, s.idCount); }
  }

  lemma NotThere(info: Infos, id: int)
    requires id !in info
    ensures id !in NewIds(info)
  {
  }

  lemma RefreshedKeeps(c: Config, s: State, id: int, addr: Address, penalty: int, now: int)
    requires Inv(c, s) && id in s.info
    ensures var t := SetInfo(s, id, Refreshed(s.info[id], addr, penalty, now));
      Inv(c, t) && TriedIds(t.info) == TriedIds(s.info)
  {
    hide NewIds, TriedIds, Limbo, IndexOk, TriedOk, NewOk, RefsOk;
    Statistics(c, s, id);
    SetInfoKeeps(c, s, id, Refreshed(s.info[id], addr, penalty, now));
  }

  lemma Statistics(c: Config, s: State, id: int)
    requires Core(c, s) && id in s.info
    ensures s.info[id].lastTry >= 0 && s.info[id].lastSuccess >= 0
    ensures s.info[id].inTried ==> s.info[id].lastSuccess > 0
  {
    assert TriedPlaced(c, s.key, s.info[id], s.triedTable, id);
  }

  function Add(c: Config, s: State, addr: Address, source: NetAddr, penalty: int, now: int, rnd: int): (State, bool)
    requires Inv(c, s)
  {
    if !c.routable(addr.service.ip) then (s, false)
    else
      Lookup(c, s, addr.service.ip);
      var found := Find(s, addr.service.ip);
      if found.Some? then
        var id := found.value;
        RefreshedKeeps(c, s, id, addr, penalty, now);
        var t := SetInfo(s, id, Refreshed(s.info[id], addr, penalty, now));
        if Declines(t.info[id], addr, rnd) then (t, false) else (Insert(c, t, id, source, now), false)
      else
        AnnouncedKeeps(c, s, addr, source, penalty);
        (Insert(c, Announced(s, addr, source, penalty), s.idCount, source, now), true)
  }

  /** What Add_ may lose: at most one entry, and never a tried one. */
  ghost predicate AddedOk(c: Config, s: State, t: State) {
    Inv(c, t) && TriedIds(t.info) == TriedIds(s.info) && |s.info.Keys - t.info.Keys| <= 1
  }

  lemma AddKnownKeeps(c: Config, s: State, id: int, addr: Address, source: NetAddr, penalty: int, now: int, rnd: int)
    requires Inv(c, s) && id in s.info
    ensures var t := SetInfo(s, id, Refreshed(s.info[id], addr, penalty, now));
      && AddedOk(c, s, t)
      && (!Declines(t.info[id], addr, rnd) ==> AddedOk(c, s, Insert(c, t, id, source, now)))
  {
    hide Core, NewIds, TriedIds, Limbo, Insert, IsTerrible, Refreshed;
    RefreshedKeeps(c, s, id, addr, penalty, now);
    var t := SetInfo(s, id, Refreshed(s.info[id], addr, penalty, now));
    assert t.info.Keys == s.info.Keys && s.info.Keys - s.info.Keys == {};
    ReferenceBounds(c, t, id);
    if !Declines(t.info[id], addr, rnd) { InsertKeeps(c, t, id, source, now); }
  }

  /** An unknown address is kept exactly when its slot is free, or held by an entry that is terrible or has a slot
      elsewhere. */
  lemma AddUnknownKeeps(c: Config, s: State, addr: Address, source: NetAddr, penalty: int, now: int)
    requires Inv(c, s) && addr.service.ip !in s.byAddr
    ensures Core(c, Announced(s, addr, source, penalty)) && s.idCount in Announced(s, addr, source, penalty).info
    ensures var m := Announced(s, addr, source, penalty);
      !m.info[s.idCount].inTried && AddedOk(c, s, Insert(c, m, s.idCount, source, now))
    ensures var k := TargetSlot(c, s.key, addr.service, source);
      && (k in s.newTable ==> s.newTable[k] in s.info)
      && (s.idCount in Insert(c, Announced(s, addr, source, penalty), s.idCount, source, now).info <==>
          k !in s.newTable || IsTerrible(s.info[s.newTable[k]], now) || s.info[s.newTable[k]].refCount > 1)
  {
    hide Core, NewIds, TriedIds, Limbo, Insert, IsTerrible, Announced;
    var k := TargetSlot(c, s.key, addr.service, source);
    SlotEntry(c, s, k);
    AnnouncedKeeps(c, s, addr, source, penalty);
    var m := Announced(s, addr, source, penalty);
    if k in s.newTable {
      var e := s.newTable[k];
      assert m.info[e] == s.info[e];
    }
    InsertKeeps(c, m, s.idCount, source, now);
    var t := Insert(c, m, s.idCount, source, now);
    LostBound(s.info.Keys, m.info.Keys, t.info.Keys, s.idCount);
  }

  /** Add_ answers true for exactly the routable addresses it did not know, whether or not it could keep them. */
  lemma AddKeeps(c: Config, s: State, addr: Address, source: NetAddr, penalty: int, now: int, rnd: int)
    requires Inv(c, s)
    ensures var (t, added) := Add(c, s, addr, source, penalty, now, rnd);
      && AddedOk(c, s, t)
      && (added <==> c.routable(addr.service.ip) && addr.service.ip !in s.byAddr)
      && (!c.routable(addr.service.ip) ==> t == s)
  {
    hide Core, NewIds, TriedIds, Limbo, Insert, IsTerrible, Refreshed, Declines, Announced;
    assert s.info.Keys - s.info.Keys == {};
    Lookup(c, s, addr.service.ip);
    var found := Find(s, addr.service.ip);
    if found.Some? {
      AddKnownKeeps(c, s, found.value, addr, source, penalty, now, rnd);
    } else {
      AddUnknownKeeps(c, s, addr, source, penalty, now);
    }
  }

  lemma LostBound(a: set<int>, b: set<int>, d: set<int>, id: int)
    requires b == a + {id} && |b - d| <= 1
    ensures |a - d| <= 1
  {
    assert a - d <= b - d;
    SubsetSize(a - d, b - d);
  }

  // ------------------------------------------------- Attempt and Connected

  function Attempted(i: AddrInfo, time: int): AddrInfo {
    i.(lastTry := time, attempts := i.attempts + 1)
  }

  function Attempt(s: State, addr: Service, time: int): State {
    var found := Find(s, addr.ip);
    if found.None? || s.info[found.value].addr.service != addr then s
    else SetInfo(s, found.value, Attempted(s.info[found.value], time))
  }

  function Seen(i: AddrInfo, time: int): AddrInfo {
    if time - i.addr.time > 20 * 60 then i.(addr := i.addr.(time := time % U32)) else i
  }

  function Connected(s: State, addr: Service, time: int): State {
    var found := Find(s, addr.ip);
    if found.None? || s.info[found.value].addr.service != addr then s
    else SetInfo(s, found.value, Seen(s.info[found.value], time))
  }

  lemma TouchKeeps(c: Config, s: State, id: int, i: AddrInfo)
    requires Inv(c, s) && id in s.info
    requires i == s.info[id].(addr := i.addr, lastTry := i.lastTry, attempts := i.attempts)
    requires i.addr.service == s.info[id].addr.service && i.lastTry >= 0
    ensures Inv(c, SetInfo(s, id, i))
  {
    hide Core, NewIds, TriedIds, Limbo;
    Statistics(c, s, id);
    SetInfoKeeps(c, s, id, i);
  }

  // -------------------------------------------------------------- GetAddr

  function AddrLimit(size: nat): nat {
    var n := GETADDR_MAX_PCT * size / 100;
    if n > GETADDR_MAX then GETADDR_MAX else n
  }

  /** The ids of an order that are worth handing out. */
  function Quality(info: Infos, order: seq<int>, now: int): seq<int> {
    if order == [] then []
    else
      var id := order[|order| - 1];
      var q := Quality(info, order[..|order| - 1], now);
      if id in info && !IsTerrible(info[id], now) then q + [id] else q
  }

  /** A place from the n-th on. */
  function Draw(r: nat, n: nat, size: nat): (p: nat)
    requires n < size
    ensures n <= p < size
  {
    r % (size - n) + n
  }

  /** The partial shuffle of GetAddr_: the state, the ids gathered and how far the order was visited. */
  function Gather(c: Config, s: State, n: nat, out: seq<int>, limit: nat, now: int, rnd: nat -> nat)
    : (State, seq<int>, nat)
    requires Core(c, s) && n <= |s.random|
    decreases |s.random| - n
  {
    if n == |s.random| || |out| >= limit then (s, out, n)
    else
      var p := Draw(rnd(n), n, |s.random|);
      SwapKeeps(c, s, n, p);
      var t := SwapRandom(s, n, p);
      IdAt(c, t, n);
      var id := t.random[n];
      Gather(c, t, n + 1, if IsTerrible(t.info[id], now) then out else out + [id], limit, now, rnd)
  }

  lemma IdAt(c: Config, s: State, n: nat)
    requires Core(c, s) && n < |s.random|
    ensures s.random[n] in s.info
  {
    assert AtPosition(s.info, n, s.random[n]);
  }

  ghost predicate Gathered(c: Config, s: State, n: nat, out: seq<int>, limit: nat, now: int) {
    && Inv(c, s) && n <= |s.random| && limit <= AddrLimit(|s.random|) && |out| <= limit
    && out == Quality(s.info, s.random[..n], now)
  }

  lemma {:induction false} GatherKeeps(c: Config, s: State, n: nat, out: seq<int>, limit: nat, now: int,
                                       rnd: nat -> nat)
    requires Gathered(c, s, n, out, limit, now)
    ensures var (t, ids, m) := Gather(c, s, n, out, limit, now, rnd);
      Gathered(c, t, m, ids, limit, now) && SameButPosition(s.info, t.info) && (m == |t.random| || |ids| == limit)
      && |t.random| == |s.random|
    decreases |s.random| - n
  {
    hide Core, NewIds, TriedIds, Limbo, IsTerrible, Draw, SwapRandom, SameButPosition, Quality;
    if n < |s.random| && |out| < limit {
      var p := Draw(rnd(n), n, |s.random|);
      SwapKeeps(c, s, n, p);
      var t := SwapRandom(s, n, p);
      IdAt(c, t, n);
      var out' := if IsTerrible(t.info[t.random[n]], now) then out else out + [t.random[n]];
      QualityNext(s, t, n, now);
      GatherKeeps(c, t, n + 1, out', limit, now, rnd);
      SameTrans(s.info, t.info, Gather(c, t, n + 1, out', limit, now, rnd).0.info);
    } else {
      SameSelf(s.info);
    }
  }

  lemma SameSelf(a: Infos)
    ensures SameButPosition(a, a)
  {
  }

  lemma QualityNext(s: State, t: State, n: nat, now: int)
    requires SameButPosition(s.info, t.info) && |s.random| == |t.random| && n < |t.random| && t.random[n] in t.info
    requires t.random[..n] == s.random[..n]
    ensures Quality(t.info, t.random[..n + 1], now)
         == Quality(s.info, s.random[..n], now) + if IsTerrible(t.info[t.random[n]], now) then [] else [t.random[n]]
  {
    hide SameButPosition, IsTerrible;
    assert t.random[..n + 1][..n] == s.random[..n];
    SameQuality(s.info, t.info, s.random[..n], now);
  }

  lemma SameTrans(a: Infos, b: Infos, d: Infos)
    requires SameButPosition(a, b) && SameButPosition(b, d)
    ensures SameButPosition(a, d)
  {
  }

  lemma {:induction false} SameQuality(a: Infos, b: Infos, order: seq<int>, now: int)
    requires SameButPosition(a, b)
    ensures Quality(a, order, now) == Quality(b, order, now)
  {
    if order != [] {
      SameQuality(a, b, order[..|order| - 1], now);
      var id := order[|order| - 1];
      if id in a { assert IsTerrible(b[id], now) == IsTerrible(a[id], now); }
    }
  }

  lemma {:induction false} QualityMembers(info: Infos, order: seq<int>, now: int, id: int)
    ensures id in Quality(info, order, now) <==> id in order && id in info && !IsTerrible(info[id], now)
  {
    if order != [] {
      QualityMembers(info, order[..|order| - 1], now, id);
      assert order == order[..|order| - 1] + [order[|order| - 1]];
    }
  }

  ghost predicate Distinct(ids: seq<int>) {
    forall i, j :: 0 <= i < j < |ids| ==> ids[i] != ids[j]
  }

  lemma {:induction false} QualityDistinct(info: Infos, order: seq<int>, now: int)
    requires Distinct(order)
    ensures Distinct(Quality(info, order, now))
  {
    if order != [] {
      QualityDistinct(info, order[..|order| - 1], now);
      QualityMembers(info, order[..|order| - 1], now, order[|order| - 1]);
    }
  }

  function GetAddr(c: Config, s: State, now: int, rnd: nat -> nat): (State, seq<int>)
    requires Inv(c, s)
  {
    var (t, ids, _) := Gather(c, s, 0, [], AddrLimit(|s.random|), now, rnd);
    (t, ids)
  }

  /** GetAddr_ hands out distinct entries that are not terrible, at most 23 percent of all and at most 2500; when
      it stays below the limit it has handed out every such entry. Only the order of the entries changes. */
  lemma GetAddrKeeps(c: Config, s: State, now: int, rnd: nat -> nat)
    requires Inv(c, s)
    ensures var (t, ids) := GetAddr(c, s, now, rnd);
      && Inv(c, t) && SameButPosition(s.info, t.info)
      && Distinct(ids) && |ids| <= 23 * |s.random| / 100 && |ids| <= 2500
      && (forall id <- ids :: id in s.info && !IsTerrible(s.info[id], now))
      && (|ids| < 23 * |s.random| / 100 && |ids| < 2500 ==>
            forall id <- s.info :: !IsTerrible(s.info[id], now) ==> id in ids)
  {
    hide Core, IsTerrible;
    GatherKeeps(c, s, 0, [], AddrLimit(|s.random|), now, rnd);
    var (t, ids, m) := Gather(c, s, 0, [], AddrLimit(|s.random|), now, rnd);
    SameQuality(s.info, t.info, t.random[..m], now);
    assert Distinct(t.random[..m]) && (forall id <- s.info :: id in t.random) by { OrderDistinct(c, t); }
    QualityDistinct(s.info, t.random[..m], now);
    forall id ensures id in ids <==> id in t.random[..m] && id in s.info && !IsTerrible(s.info[id], now) {
      QualityMembers(s.info, t.random[..m], now, id);
    }
    if m == |t.random| { assert t.random[..m] == t.random; }
  }

  lemma OrderDistinct(c: Config, s: State)
    requires Core(c, s)
    ensures Distinct(s.random) && forall id :: id in s.info ==> id in s.random
  {
    forall i, j | 0 <= i < j < |s.random| ensures s.random[i] != s.random[j] {
      assert AtPosition(s.info, i, s.random[i]) && AtPosition(s.info, j, s.random[j]);
    }
    forall id | id in s.info ensures id in s.random {
      assert InOrder(s.random, s.info[id].randomPos, id);
    }
  }

  // ----------------------------------------------------------------- runs

  datatype Op =
    | AddOp(addr: Address, source: NetAddr, penalty: int, now: int, rnd: int)
    | GoodOp(service: Service, time: int)
    | AttemptOp(service: Service, time: int)
    | ConnectedOp(service: Service, time: int)
    | GetAddrOp(now: int, draws: nat -> nat)

  /** The clock readings the node passes in: never negative, and positive for a success. */
  predicate Timely(op: Op) {
    match op
    case GoodOp(_, time) => time > 0
    case AttemptOp(_, time) => time >= 0
    case _ => true
  }

  function Apply(c: Config, s: State, op: Op): State
    requires Inv(c, s) && Timely(op)
  {
    match op
    case AddOp(addr, source, penalty, now, rnd) => Add(c, s, addr, source, penalty, now, rnd).0
    case GoodOp(service, time) => Good(c, s, service, time)
    case AttemptOp(service, time) => Attempt(s, service, time)
    case ConnectedOp(service, time) => Connected(s, service, time)
    case GetAddrOp(now, draws) => GetAddr(c, s, now, draws).0
  }

  lemma ApplyKeeps(c: Config, s: State, op: Op)
    requires Inv(c, s) && Timely(op)
    ensures Inv(c, Apply(c, s, op))
  {
    hide Core, NewIds, TriedIds, Limbo, Add, Good, GetAddr;
    match op
    case AddOp(addr, source, penalty, now, rnd) => AddKeeps(c, s, addr, source, penalty, now, rnd);
    case GoodOp(service, time) => GoodKeeps(c, s, service, time);
    case AttemptOp(service, time) =>
      var found := Find(s, service.ip);
      if found.Some? { TouchKeeps(c, s, found.value, Attempted(s.info[found.value], time)); }
    case ConnectedOp(service, time) =>
      var found := Find(s, service.ip);
      if found.Some? {
        Statistics(c, s, found.value);
        TouchKeeps(c, s, found.value, Seen(s.info[found.value], time));
      }
    case GetAddrOp(now, draws) => GetAddrKeeps(c, s, now, draws);
  }

  lemma InitKeeps(c: Config, key: nat)
    requires key != 0
    ensures Inv(c, Init(key))
  {
  }

  function Run(c: Config, s: State, ops: seq<Op>): State
    requires Inv(c, s) && forall op <- ops :: Timely(op)
    decreases |ops|
  {
    if ops == [] then s
    else
      ApplyKeeps(c, s, ops[0]);
      Run(c, Apply(c, s, ops[0]), ops[1..])
  }

  /** From construction, every run leaves the whole invariant in force. */
  lemma RunKeeps(c: Config, key: nat, ops: seq<Op>)
    requires key != 0 && forall op <- ops :: Timely(op)
    ensures Inv(c, Init(key)) && Inv(c, Run(c, Init(key), ops))
  {
    InitKeeps(c, key);
    RunFromKeeps(c, Init(key), ops);
  }

  lemma {:induction false} RunFromKeeps(c: Config, s: State, ops: seq<Op>)
    requires Inv(c, s) && forall op <- ops :: Timely(op)
    ensures Inv(c, Run(c, s, ops))
    decreases |ops|
  {
    hide Inv, Apply;
    if ops != [] {
      ApplyKeeps(c, s, ops[0]);
      RunFromKeeps(c, Apply(c, s, ops[0]), ops[1..]);
    }
  }
}
