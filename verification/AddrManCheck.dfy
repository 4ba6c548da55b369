/** The manager's own consistency check (src/addrman.cpp, Check_), and that it
    accepts exactly the consistent states. */
module AddrManCheck {
  import opened AddrManState
  import opened AddrManInvariant
  import opened AddrManTables

  // -------------------------------------------------- what each part accepts

  predicate EntryPasses(info: Infos, byAddr: map<NetAddr, int>, order: seq<int>, id: int)
    requires id in info
  {
    var i := info[id];
    && (if i.inTried then i.lastSuccess != 0 && i.refCount == 0 else 0 < i.refCount <= NEW_BUCKETS_PER_ADDRESS)
    // a missing address reads as id 0
    && (if i.addr.service.ip in byAddr then byAddr[i.addr.service.ip] else 0) == id
    && InOrder(order, i.randomPos, id)
    && i.lastTry >= 0 && i.lastSuccess >= 0
  }

  ghost predicate EntriesPass(info: Infos, byAddr: map<NetAddr, int>, order: seq<int>) {
    forall id <- info :: EntryPasses(info, byAddr, order, id)
  }

  ghost predicate TriedPasses(c: Config, key: nat, info: Infos, t: Table) {
    && (forall k <- t :: TriedAt(c, key, info, k, t[k]))
    && (forall id <- TriedIds(info) :: exists k :: Holds(t, k, id))
  }

  ghost predicate NewPasses(c: Config, key: nat, info: Infos, t: Table) {
    && (forall k <- t :: NewAt(c, key, info, k, t[k]))
    && (forall id <- NewIds(info) :: info[id].refCount == |Slots(t, id)|)
  }

  ghost predicate Passes(c: Config, s: State) {
    && |s.random| == s.triedCount + s.newCount
    && EntriesPass(s.info, s.byAddr, s.random)
    && |TriedIds(s.info)| == s.triedCount && |NewIds(s.info)| == s.newCount
    && TriedPasses(c, s.key, s.info, s.triedTable)
    && NewPasses(c, s.key, s.info, s.newTable)
    && s.key != 0
  }

  // ------------------------------------------------------------ the entries

  /** The untried entries with the references the new table still owes them. */
  function Owed(info: Infos): map<int, int> {
    map id | id in info && !info[id].inTried :: info[id].refCount
  }

  lemma EmptySet(s: set<int>)
    ensures (forall x :: x !in s) ==> s == {}
  {
    if forall x :: x !in s { assert s == {}; }
  }

  lemma Inhabited(s: set<int>)
    requires s != {}
    ensures exists x :: x in s
  {
    EmptySet(s);
  }

  /** The entries seen so far are split into the tried ones and what the others are owed. */
  ghost predicate Split(info: Infos, seen: set<int>, tried: set<int>, owed: map<int, int>) {
    && (forall id :: id in tried <==> id in seen && id in info && info[id].inTried)
    && (forall id :: id in owed <==> id in seen && id in info && !info[id].inTried)
    && (forall id <- owed :: id in info && owed[id] == info[id].refCount)
  }

  lemma SplitNext(info: Infos, seen: set<int>, tried: set<int>, owed: map<int, int>, id: int)
    requires Split(info, seen, tried, owed) && id in info && id !in seen
    ensures info[id].inTried ==> Split(info, seen + {id}, tried + {id}, owed)
    ensures !info[id].inTried ==> Split(info, seen + {id}, tried, owed[id := info[id].refCount])
  {
  }

  lemma SplitAll(info: Infos, tried: set<int>, owed: map<int, int>)
    requires Split(info, info.Keys, tried, owed)
    ensures tried == TriedIds(info) && owed == Owed(info)
  {
    forall id ensures id in tried <==> id in TriedIds(info) {}
    forall id ensures id in owed <==> id in Owed(info) {}
    assert tried == TriedIds(info);
    forall id | id in owed ensures owed[id] == Owed(info)[id] {}
    assert owed == Owed(info);
  }

  /** All entries but those still to do have passed, and are split. */
  ghost predicate EntriesSoFar(info: Infos, byAddr: map<NetAddr, int>, order: seq<int>, todo: set<int>,
                               tried: set<int>, owed: map<int, int>) {
    && todo <= info.Keys && Split(info, info.Keys - todo, tried, owed)
    && forall id <- info :: id !in todo ==> EntryPasses(info, byAddr, order, id)
  }

  lemma EntriesStart(info: Infos, byAddr: map<NetAddr, int>, order: seq<int>)
    ensures EntriesSoFar(info, byAddr, order, info.Keys, {}, map[])
  {
  }

  lemma EntriesNext(info: Infos, byAddr: map<NetAddr, int>, order: seq<int>, todo: set<int>,
                    tried: set<int>, owed: map<int, int>, id: int)
    requires EntriesSoFar(info, byAddr, order, todo, tried, owed) && id in todo
    ensures id in info
    ensures EntryPasses(info, byAddr, order, id) ==>
      if info[id].inTried then EntriesSoFar(info, byAddr, order, todo - {id}, tried + {id}, owed)
      else EntriesSoFar(info, byAddr, order, todo - {id}, tried, owed[id := info[id].refCount])
  {
    hide EntryPasses, Split;
    SplitNext(info, info.Keys - todo, tried, owed, id);
    assert info.Keys - (todo - {id}) == info.Keys - todo + {id};
  }

  lemma EntriesEnd(info: Infos, byAddr: map<NetAddr, int>, order: seq<int>, tried: set<int>, owed: map<int, int>)
    requires EntriesSoFar(info, byAddr, order, {}, tried, owed)
    ensures EntriesPass(info, byAddr, order) && tried == TriedIds(info) && owed == Owed(info)
  {
    hide EntryPasses, Split;
    assert info.Keys - {} == info.Keys;
    SplitAll(info, tried, owed);
  }

  method CheckEntries(info: Infos, byAddr: map<NetAddr, int>, order: seq<int>)
    returns (ok: bool, tried: set<int>, owed: map<int, int>)
    ensures ok <==> EntriesPass(info, byAddr, order)
    ensures ok ==> tried == TriedIds(info) && owed == Owed(info)
  {
    hide EntryPasses, TriedIds, Owed, EntriesSoFar;
    tried, owed := {}, map[];
    var todo := info.Keys;
    EntriesStart(info, byAddr, order);
    while |todo| > 0
      invariant EntriesSoFar(info, byAddr, order, todo, tried, owed)
      decreases |todo|
    {
      Inhabited(todo);
      var id :| id in todo;
      EntriesNext(info, byAddr, order, todo, tried, owed, id);
      if !EntryPasses(info, byAddr, order, id) {
        return false, {}, map[];
      }
      if info[id].inTried {
        tried := tried + {id};
      } else {
        owed := owed[id := info[id].refCount];
      }
      todo := todo - {id};
    }
    EntriesEnd(info, byAddr, order, tried, owed);
    ok := true;
  }

  // ------------------------------------------------------- the tried table

  predicate Before(k: Slot, b: int, p: int) {
    k.0 < b || (k.0 == b && k.1 < p)
  }

  /** The part of a table that a scan has visited when it reaches a slot. */
  ghost function Visited(t: Table, b: int, p: int): Table {
    map k | k in t && Before(k, b, p) :: t[k]
  }

  lemma VisitedNext(a: array2<int>, b: int, p: int)
    requires InBounds(a, (b, p))
    ensures var t := TableOf(a);
      Visited(t, b, p + 1) == if a[b, p] == -1 then Visited(t, b, p) else Visited(t, b, p)[(b, p) := a[b, p]]
    ensures (b, p) !in Visited(TableOf(a), b, p)
  {
  }

  lemma VisitedRow(a: array2<int>, b: int)
    ensures Visited(TableOf(a), b, a.Length1) == Visited(TableOf(a), b + 1, 0)
  {
  }

  lemma VisitedAll(a: array2<int>)
    ensures Visited(TableOf(a), a.Length0, 0) == TableOf(a) && Visited(TableOf(a), 0, 0) == map[]
  {
  }

  ghost predicate TriedSoFar(c: Config, key: nat, info: Infos, v: Table, left: set<int>) {
    && (forall k <- v :: TriedAt(c, key, info, k, v[k]))
    && left == (set id | id in TriedIds(info) && forall k <- v :: v[k] != id)
  }

  lemma TriedSoFarNext(c: Config, key: nat, info: Infos, v: Table, left: set<int>, k: Slot, id: int)
    requires TriedSoFar(c, key, info, v, left) && k !in v && id in left && TriedAt(c, key, info, k, id)
    ensures TriedSoFar(c, key, info, v[k := id], left - {id})
  {
    var w := v[k := id];
    forall j | j in w ensures TriedAt(c, key, info, j, w[j]) {
      if j != k { assert TriedAt(c, key, info, j, v[j]); }
    }
    forall x ensures x in left - {id} <==> x in TriedIds(info) && forall j <- w :: w[j] != x {
      if forall j <- w :: w[j] != x {
        assert w[k] != x;
        forall j | j in v ensures v[j] != x { if j != k { assert w[j] != x; } }
      }
    }
  }

  /** A slot the scan rejects is one that does not belong there. */
  lemma TriedRejects(c: Config, key: nat, info: Infos, t: Table, v: Table, left: set<int>, k: Slot)
    requires TriedSoFar(c, key, info, v, left) && k in t && k !in v && t[k] !in left
    requires forall j <- v :: j in t && v[j] == t[j]
    ensures !TriedPasses(c, key, info, t)
  {
  }

  method CheckTried(m: AddrManager, tried: set<int>) returns (ok: bool)
    requires m.Shaped() && tried == TriedIds(m.info)
    ensures ok <==> TriedPasses(m.c, m.key, m.info, TableOf(m.triedTable))
  {
    hide TableOf, TriedIds, TriedSoFar, TriedAt, Visited;
    var a := m.triedTable;
    ghost var t := TableOf(a);
    var left := tried;
    VisitedAll(a);
    assert TriedSoFar(m.c, m.key, m.info, map[], left) by { TriedStart(m.c, m.key, m.info); }
    for b := 0 to a.Length0
      invariant TriedSoFar(m.c, m.key, m.info, Visited(t, b, 0), left) && left <= tried
    {
      for p := 0 to a.Length1
        invariant TriedSoFar(m.c, m.key, m.info, Visited(t, b, p), left) && left <= tried
      {
        VisitedNext(a, b, p);
        Cell(a, b, p);
        var id := a[b, p];
        if id != -1 {
          assert t[(b, p)] == id;
          if id !in left {
            VisitedPart(t, b, p);
            TriedRejects(m.c, m.key, m.info, t, Visited(t, b, p), left, (b, p));
            return false;
          }
          KnownTried(m.info, id);
          var service := m.info[id].addr.service;
          if m.c.triedBucket(m.key, service) != b || m.c.position(m.key, false, b, service) != p {
            assert !TriedAt(m.c, m.key, m.info, (b, p), id) by { NotItsSlot(m.c, m.key, m.info, b, p, id); }
            return false;
          }
          assert TriedAt(m.c, m.key, m.info, (b, p), id) by { ItsSlot(m.c, m.key, m.info, b, p, id); }
          TriedSoFarNext(m.c, m.key, m.info, Visited(t, b, p), left, (b, p), id);
          left := left - {id};
        }
      }
      VisitedRow(a, b);
    }
    TriedEnd(m.c, m.key, m.info, t, left);
    ok := left == {};
  }

  lemma VisitedPart(t: Table, b: int, p: int)
    ensures forall j <- Visited(t, b, p) :: j in t && Visited(t, b, p)[j] == t[j]
  {
  }

  lemma KnownTried(info: Infos, id: int)
    requires id in TriedIds(info)
    ensures id in info && info[id].inTried
  {
  }

  lemma ItsSlot(c: Config, key: nat, info: Infos, b: int, p: int, id: int)
    requires id in info && info[id].inTried
    requires c.triedBucket(key, info[id].addr.service) == b && c.position(key, false, b, info[id].addr.service) == p
    ensures TriedAt(c, key, info, (b, p), id)
  {
  }

  lemma NotItsSlot(c: Config, key: nat, info: Infos, b: int, p: int, id: int)
    requires id in info
    requires c.triedBucket(key, info[id].addr.service) != b || c.position(key, false, b, info[id].addr.service) != p
    ensures !TriedAt(c, key, info, (b, p), id)
  {
  }

  lemma TriedStart(c: Config, key: nat, info: Infos)
    ensures TriedSoFar(c, key, info, map[], TriedIds(info))
  {
  }

  lemma StillLeft(c: Config, key: nat, info: Infos, t: Table, left: set<int>, id: int)
    requires TriedSoFar(c, key, info, t, left) && id in TriedIds(info) && !exists k :: Holds(t, k, id)
    ensures id in left
  {
    forall k | k in t ensures t[k] != id { assert !Holds(t, k, id); }
  }

  lemma TriedEnd(c: Config, key: nat, info: Infos, t: Table, left: set<int>)
    requires TriedSoFar(c, key, info, t, left)
    ensures TriedPasses(c, key, info, t) <==> left == {}
  {
    if left != {} {
      Inhabited(left);
      var id :| id in left;
      assert id in TriedIds(info) && !exists k :: Holds(t, k, id);
    } else {
      forall id | id in TriedIds(info) ensures exists k :: Holds(t, k, id) {
        if !exists k :: Holds(t, k, id) { StillLeft(c, key, info, t, left, id); }
      }
    }
  }

  // --------------------------------------------------------- the new table

  ghost predicate NewSoFar(c: Config, key: nat, info: Infos, v: Table, owed: map<int, int>) {
    && (forall k <- v :: NewAt(c, key, info, k, v[k]))
    && (forall id :: id in owed <==> id in NewIds(info) && info[id].refCount != |Slots(v, id)|)
    && (forall id <- owed :: owed[id] == info[id].refCount - |Slots(v, id)| > 0)
  }

  lemma NewStart(c: Config, key: nat, info: Infos)
    requires forall id <- NewIds(info) :: info[id].refCount > 0
    ensures NewSoFar(c, key, info, map[], Owed(info))
  {
    forall id ensures Slots(map[], id) == {} {}
  }

  lemma NewSoFarNext(c: Config, key: nat, info: Infos, v: Table, owed: map<int, int>, k: Slot, id: int)
    requires NewSoFar(c, key, info, v, owed) && k !in v && id in owed && NewAt(c, key, info, k, id)
    ensures NewSoFar(c, key, info, v[k := id], if owed[id] == 1 then owed - {id} else owed[id := owed[id] - 1])
  {
    SlotsAfterInsert(v, k, id);
    var w := v[k := id];
    forall j | j in w ensures NewAt(c, key, info, j, w[j]) {
      if j != k { assert NewAt(c, key, info, j, v[j]); }
    }
  }

  /** A slot the scan rejects belongs to no untried entry, or to one that is in more slots than it has references. */
  lemma NewRejects(c: Config, key: nat, info: Infos, t: Table, v: Table, owed: map<int, int>, k: Slot)
    requires NewSoFar(c, key, info, v, owed) && k in t && k !in v && t[k] !in owed
    requires forall j <- v :: j in t && v[j] == t[j]
    ensures !NewPasses(c, key, info, t)
  {
    var id := t[k];
    if NewAt(c, key, info, k, id) {
      assert id in NewIds(info);
      assert k !in Slots(v, id) && Slots(v, id) + {k} <= Slots(t, id);
      SubsetSize(Slots(v, id) + {k}, Slots(t, id));
    }
  }

  lemma NewEnd(c: Config, key: nat, info: Infos, t: Table, owed: map<int, int>)
    requires NewSoFar(c, key, info, t, owed)
    ensures NewPasses(c, key, info, t) <==> owed == map[]
  {
    EmptySet(owed.Keys);
    if owed.Keys != {} {
      Inhabited(owed.Keys);
      var id :| id in owed.Keys;
      assert id in NewIds(info) && info[id].refCount != |Slots(t, id)|;
    } else {
      forall id | id in NewIds(info) ensures info[id].refCount == |Slots(t, id)| { assert id !in owed; }
    }
  }

  method CheckNew(m: AddrManager, refs: map<int, int>) returns (ok: bool)
    requires m.Shaped() && refs == Owed(m.info) && forall id <- NewIds(m.info) :: m.info[id].refCount > 0
    ensures ok <==> NewPasses(m.c, m.key, m.info, TableOf(m.newTable))
  {
    NewStart(m.c, m.key, m.info);
    hide TableOf, NewIds, NewSoFar, NewAt, Visited, Owed;
    var a := m.newTable;
    ghost var t := TableOf(a);
    var owed := refs;
    VisitedAll(a);
    for b := 0 to a.Length0
      invariant NewSoFar(m.c, m.key, m.info, Visited(t, b, 0), owed)
    {
      for p := 0 to a.Length1
        invariant NewSoFar(m.c, m.key, m.info, Visited(t, b, p), owed)
      {
        VisitedNext(a, b, p);
        Cell(a, b, p);
        var id := a[b, p];
        if id != -1 {
          assert t[(b, p)] == id;
          if id !in owed {
            VisitedPart(t, b, p);
            NewRejects(m.c, m.key, m.info, t, Visited(t, b, p), owed, (b, p));
            return false;
          }
          KnownNew(m.c, m.key, m.info, Visited(t, b, p), owed, id);
          if m.c.position(m.key, true, b, m.info[id].addr.service) != p {
            assert !NewAt(m.c, m.key, m.info, (b, p), id) by { NewPlace(m.c, m.key, m.info, b, p, id); }
            return false;
          }
          NewPlace(m.c, m.key, m.info, b, p, id);
          NewSoFarNext(m.c, m.key, m.info, Visited(t, b, p), owed, (b, p), id);
          owed := if owed[id] == 1 then owed - {id} else owed[id := owed[id] - 1];
        }
      }
      VisitedRow(a, b);
    }
    NewEnd(m.c, m.key, m.info, t, owed);
    ok := owed == map[];
  }

  lemma KnownNew(c: Config, key: nat, info: Infos, v: Table, owed: map<int, int>, id: int)
    requires NewSoFar(c, key, info, v, owed) && id in owed
    ensures id in info && !info[id].inTried
  {
  }

  lemma NewPlace(c: Config, key: nat, info: Infos, b: int, p: int, id: int)
    requires id in info && !info[id].inTried && 0 <= b < c.newBuckets
    ensures NewAt(c, key, info, (b, p), id) <==> c.position(key, true, b, info[id].addr.service) == p
  {
  }

  // -------------------------------------------------------------- together

  method Check(m: AddrManager) returns (ok: bool)
    requires m.Shaped()
    ensures ok <==> Passes(m.c, m.Model())
  {
    hide TableOf, EntriesPass, TriedPasses, NewPasses;
    if |m.random| != m.triedCount + m.newCount { return false; }
    var entries, tried, owed := CheckEntries(m.info, m.byAddr, m.random);
    if !entries { return false; }
    SplitSizes(m.info);
    if |tried| != m.triedCount || |owed| != m.newCount { return false; }
    var triedOk := CheckTried(m, tried);
    if !triedOk { return false; }
    PassedRefs(m.info, m.byAddr, m.random);
    var newOk := CheckNew(m, owed);
    if !newOk { return false; }
    ok := m.key != 0;
  }

  lemma SplitSizes(info: Infos)
    ensures |Owed(info)| == |NewIds(info)|
  {
    assert Owed(info).Keys == NewIds(info);
  }

  lemma PassedRefs(info: Infos, byAddr: map<NetAddr, int>, order: seq<int>)
    requires EntriesPass(info, byAddr, order)
    ensures forall id <- NewIds(info) :: info[id].refCount > 0
  {
    forall id | id in NewIds(info) ensures info[id].refCount > 0 { assert EntryPasses(info, byAddr, order, id); }
  }

  /** Check_ accepts exactly the states in which the invariant holds, once the ids are in range and the address
      index is exact: those two are what it does not look at in full. */
  lemma PassesIffInv(c: Config, s: State)
    ensures Inv(c, s) <==> Passes(c, s) && IdsOk(s.info, s.idCount) && AddrOk(s.info, s.byAddr)
  {
    if Inv(c, s) { InvPasses(c, s); }
    if Passes(c, s) && IdsOk(s.info, s.idCount) && AddrOk(s.info, s.byAddr) { PassesInv(c, s); }
  }

  lemma InvPasses(c: Config, s: State)
    requires Inv(c, s)
    ensures Passes(c, s)
  {
    OrderSize(s.info, s.random);
    SplitKeys(s.info);
    InvEntries(c, s);
    forall id | id in TriedIds(s.info) ensures exists k :: Holds(s.triedTable, k, id) {
      assert TriedPlaced(c, s.key, s.info[id], s.triedTable, id);
      assert Holds(s.triedTable, TriedSlot(c, s.key, s.info[id].addr.service), id);
    }
    assert TriedPasses(c, s.key, s.info, s.triedTable);
    assert NewPasses(c, s.key, s.info, s.newTable);
  }

  lemma InvEntries(c: Config, s: State)
    requires Inv(c, s)
    ensures EntriesPass(s.info, s.byAddr, s.random)
  {
    forall id | id in s.info ensures EntryPasses(s.info, s.byAddr, s.random, id) {
      assert Maps(s.byAddr, s.info[id].addr.service.ip, id) && InOrder(s.random, s.info[id].randomPos, id);
      assert TriedPlaced(c, s.key, s.info[id], s.triedTable, id);
      assert id !in Limbo(s.info);
      if s.info[id].inTried { TriedNotReferenced(c, s.key, s.info, s.newTable, id); }
    }
  }

  lemma SplitKeys(info: Infos)
    ensures |info.Keys| == |TriedIds(info)| + |NewIds(info)|
  {
    assert info.Keys == TriedIds(info) + NewIds(info);
  }

  /** A vector in which every entry finds itself at its own position is at least as long as there are entries; when
      it is exactly as long, every position is some entry's own. */
  lemma {:induction false} OrderSize(info: Infos, order: seq<int>)
    requires forall id <- info :: InOrder(order, info[id].randomPos, id)
    ensures |info.Keys| <= |order|
    ensures |info.Keys| == |order| <==> RandomOk(info, order)
    decreases |order|
  {
    hide RandomOk;
    if order == [] {
      EmptyOrder(info, order);
    } else {
      var last := |order| - 1;
      var id := order[last];
      var rest := if AtPosition(info, last, id) then info - {id} else info;
      RestInOrder(info, order, rest);
      OrderSize(rest, order[..last]);
      if AtPosition(info, last, id) {
        assert info.Keys == rest.Keys + {id};
        OrderSplit(info, order, rest);
      } else {
        OrderGap(info, order);
      }
    }
  }

  lemma EmptyOrder(info: Infos, order: seq<int>)
    requires order == [] && forall id <- info :: InOrder(order, info[id].randomPos, id)
    ensures info.Keys == {} && RandomOk(info, order)
  {
    EmptySet(info.Keys);
  }

  lemma RestInOrder(info: Infos, order: seq<int>, rest: Infos)
    requires |order| > 0 && forall id <- info :: InOrder(order, info[id].randomPos, id)
    requires var id := order[|order| - 1];
      rest == if AtPosition(info, |order| - 1, id) then info - {id} else info
    ensures forall j <- rest :: InOrder(order[..|order| - 1], rest[j].randomPos, j)
  {
    forall j | j in rest ensures InOrder(order[..|order| - 1], rest[j].randomPos, j) {
      assert InOrder(order, info[j].randomPos, j);
    }
  }

  lemma OrderGap(info: Infos, order: seq<int>)
    requires |order| > 0 && !AtPosition(info, |order| - 1, order[|order| - 1])
    ensures !RandomOk(info, order)
  {
  }

  lemma OrderSplit(info: Infos, order: seq<int>, rest: Infos)
    requires |order| > 0 && AtPosition(info, |order| - 1, order[|order| - 1])
    requires rest == info - {order[|order| - 1]}
    requires forall id <- info :: InOrder(order, info[id].randomPos, id)
    ensures RandomOk(info, order) <==> RandomOk(rest, order[..|order| - 1])
  {
    var last := |order| - 1;
    var front := order[..last];
    if RandomOk(info, order) {
      forall p | 0 <= p < |front| ensures AtPosition(rest, p, front[p]) { assert AtPosition(info, p, order[p]); }
      forall id | id in rest ensures InOrder(front, rest[id].randomPos, id) {
        assert InOrder(order, info[id].randomPos, id);
      }
    }
    if RandomOk(rest, front) {
      forall p | 0 <= p < |order| ensures AtPosition(info, p, order[p]) {
        if p < last { assert AtPosition(rest, p, front[p]); }
      }
    }
  }

  lemma PassesInv(c: Config, s: State)
    requires Passes(c, s) && IdsOk(s.info, s.idCount) && AddrOk(s.info, s.byAddr)
    ensures Inv(c, s)
  {
    PassedIndex(c, s);
    PassedTables(c, s);
    assert Limbo(s.info) == {} by {
      forall id | id in s.info ensures id !in Limbo(s.info) { assert EntryPasses(s.info, s.byAddr, s.random, id); }
    }
  }

  lemma PassedIndex(c: Config, s: State)
    requires Passes(c, s) && IdsOk(s.info, s.idCount) && AddrOk(s.info, s.byAddr)
    ensures IndexOk(s.info, s.idCount, s.byAddr, s.random)
  {
    forall id | id in s.info ensures InOrder(s.random, s.info[id].randomPos, id) {
      assert EntryPasses(s.info, s.byAddr, s.random, id);
    }
    OrderSize(s.info, s.random);
    SplitKeys(s.info);
  }

  lemma PassedTables(c: Config, s: State)
    requires Passes(c, s)
    ensures TablesOk(c, s.key, s.info, s.triedTable, s.newTable)
  {
    forall id | id in s.info
      ensures TriedPlaced(c, s.key, s.info[id], s.triedTable, id)
      ensures s.info[id].refCount == |Slots(s.newTable, id)| <= NEW_BUCKETS_PER_ADDRESS
      ensures s.info[id].lastTry >= 0 && s.info[id].lastSuccess >= 0
    {
      assert EntryPasses(s.info, s.byAddr, s.random, id);
      if s.info[id].inTried {
        assert id in TriedIds(s.info);
        var k :| Holds(s.triedTable, k, id);
        assert TriedAt(c, s.key, s.info, k, id);
        assert Slots(s.newTable, id) == {} by { NotInNew(c, s, id); }
      } else {
        assert id in NewIds(s.info);
      }
    }
  }

  lemma NotInNew(c: Config, s: State, id: int)
    requires Passes(c, s) && id in s.info && s.info[id].inTried
    ensures Slots(s.newTable, id) == {}
  {
    forall k | k in s.newTable ensures s.newTable[k] != id { assert NewAt(c, s.key, s.info, k, s.newTable[k]); }
  }
}
