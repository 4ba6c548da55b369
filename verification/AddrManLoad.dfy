/** Loading what AddrManCodec writes: the loaded manager is the saved one with
    its entries renumbered (src/addrman.h, Unserialize into a new object). */
module AddrManLoad {
  import opened AddrManState
  import opened AddrManInvariant
  import opened AddrManCodec
  import opened AddrManStream

  ghost predicate From(c: Config, ts: seq<Token>, s: State) {
    Inv(c, s) && ts == Serialized(c, s)
  }

  // -------------------------------------- how far the loaded state has come

  /** The entry written at index `j`. */
  ghost function Nth(s: State, j: int): AddrInfo {
    if 0 <= j < |AllIds(s)| && AllIds(s)[j] in s.info then s.info[AllIds(s)[j]]
    else NewInfo(Address(Service(0, 0), 0, 0), 0, -1)
  }

  ghost function NthId(s: State, j: int): int {
    if 0 <= j < |AllIds(s)| then AllIds(s)[j] else -1
  }

  function Restored(i: AddrInfo, pos: int, refs: int): AddrInfo {
    AddrInfo(i.addr, i.source, i.lastSuccess, 0, i.attempts, refs, i.inTried, pos)
  }

  /** The first `n` entries, referenced from the slots `v` of the saved new table. */
  ghost function InfoStage(s: State, n: int, v: Table): Infos {
    map j | 0 <= j < n :: Restored(Nth(s, j), j, |Slots(v, NthId(s, j))|)
  }

  ghost function AddrStage(s: State, n: int): map<NetAddr, int> {
    map ip | ip in s.byAddr && Rename(s, s.byAddr[ip]) < n :: Rename(s, s.byAddr[ip])
  }

  ghost function OrderStage(n: nat): seq<int> {
    seq(n, j => j)
  }

  ghost function TriedStage(s: State, n: int): Table {
    map k | k in s.triedTable && Rename(s, s.triedTable[k]) < n :: Rename(s, s.triedTable[k])
  }

  ghost function NewStage(s: State, v: Table): Table {
    map k | k in v :: Rename(s, v[k])
  }

  /** The saved state with every entry renumbered in the order of writing. */
  ghost function Renamed(c: Config, s: State): State
    requires Inv(c, s)
  {
    Bijection(c, s);
    var n := s.newCount + s.triedCount;
    State(s.key, n, InfoStage(s, n, s.newTable), AddrStage(s, n), OrderStage(n),
          s.triedCount, TriedStage(s, n), s.newCount, NewStage(s, s.newTable))
  }

  lemma TokenAt(c: Config, s: State, n: int)
    requires Inv(c, s) && 0 <= n < s.newCount + s.triedCount
    ensures |Serialized(c, s)| > 6 + n && Serialized(c, s)[6 + n] == Entry(Save(Nth(s, n)))
    ensures NthId(s, n) in s.info && Nth(s, n) == s.info[NthId(s, n)] && Rename(s, NthId(s, n)) == n
    ensures n < s.newCount <==> !Nth(s, n).inTried
  {
    Bijection(c, s);
    hide Inv, Rename, Listed;
  }

  lemma InfoStageNext(s: State, n: nat)
    ensures InfoStage(s, n + 1, map[]) == InfoStage(s, n, map[])[n := Restored(Nth(s, n), n, 0)]
  {
    forall id ensures Slots(map[], id) == {} {}
  }

  lemma AddrStageNext(c: Config, s: State, n: nat)
    requires Inv(c, s) && n < s.newCount + s.triedCount
    ensures AddrStage(s, n + 1) == AddrStage(s, n)[Nth(s, n).addr.service.ip := n]
  {
    hide Inv, Rename, Nth;
    var ip := Nth(s, n).addr.service.ip;
    KnownAddr(c, s, n);
    forall a | a in s.byAddr ensures Rename(s, s.byAddr[a]) == n <==> a == ip { OnlyAddrOf(c, s, n, a); }
  }

  lemma KnownAddr(c: Config, s: State, n: nat)
    requires Inv(c, s) && n < s.newCount + s.triedCount
    ensures var ip := Nth(s, n).addr.service.ip; ip in s.byAddr && Rename(s, s.byAddr[ip]) == n
  {
    TokenAt(c, s, n);
    assert Maps(s.byAddr, Nth(s, n).addr.service.ip, NthId(s, n));
    hide Inv, Rename, AllIds;
  }

  lemma OnlyAddrOf(c: Config, s: State, n: nat, a: NetAddr)
    requires Inv(c, s) && n < s.newCount + s.triedCount && a in s.byAddr
    ensures Rename(s, s.byAddr[a]) == n <==> a == Nth(s, n).addr.service.ip
  {
    KnownAddr(c, s, n);
    TokenAt(c, s, n);
    Bijection(c, s);
    assert HasAddr(s.info, s.byAddr[a], a);
    hide Inv, Rename, AllIds;
  }

  lemma TriedStageNext(c: Config, s: State, n: nat)
    requires Inv(c, s) && s.newCount <= n < s.newCount + s.triedCount
    ensures var k := TriedSlot(c, s.key, Nth(s, n).addr.service);
      k !in TriedStage(s, n) && TriedStage(s, n + 1) == TriedStage(s, n)[k := n]
  {
    TokenAt(c, s, n);
    var k := TriedSlot(c, s.key, Nth(s, n).addr.service);
    assert Holds(s.triedTable, k, NthId(s, n)) by {
      assert TriedPlaced(c, s.key, s.info[NthId(s, n)], s.triedTable, NthId(s, n));
    }
    forall u | u in s.triedTable ensures Rename(s, s.triedTable[u]) == n <==> u == k { OnlySlotOf(c, s, n, u); }
    hide Inv, Rename, NthId, Nth;
  }

  lemma OnlySlotOf(c: Config, s: State, n: nat, u: Slot)
    requires Inv(c, s) && s.newCount <= n < s.newCount + s.triedCount && u in s.triedTable
    ensures Rename(s, s.triedTable[u]) == n ==> u == TriedSlot(c, s.key, Nth(s, n).addr.service)
  {
    TokenAt(c, s, n);
    Bijection(c, s);
    assert TriedAt(c, s.key, s.info, u, s.triedTable[u]);
    hide Inv, Rename;
  }

  lemma TriedStageStart(c: Config, s: State)
    requires Inv(c, s)
    ensures TriedStage(s, s.newCount) == map[]
  {
    Bijection(c, s);
    hide Rename, AllIds;
    forall u | u in s.triedTable ensures Rename(s, s.triedTable[u]) >= s.newCount {
      assert TriedAt(c, s.key, s.info, u, s.triedTable[u]);
    }
  }

  lemma NewSlotFacts(c: Config, s: State, k: Slot)
    requires Inv(c, s) && k in s.newTable
    ensures var id := s.newTable[k]; var j := Rename(s, id);
      && id in s.info && 0 <= j < s.newCount && NthId(s, j) == id && Nth(s, j) == s.info[id]
      && k == NewSlot(c, s.key, s.info[id].addr.service, k.0) && 0 <= k.0 < c.newBuckets && 0 <= k.1 < c.bucketSize
      && (forall i :: 0 <= i < s.newCount + s.triedCount && NthId(s, i) == id ==> i == j)
  {
    var id := s.newTable[k];
    assert NewAt(c, s.key, s.info, k, id);
    assert InRange(c);
    Bijection(c, s);
    hide Rename, Listed, Inv;
  }

  lemma InfoStageRef(s: State, v: Table, k: Slot, n: int, id: int, j: int)
    requires k !in v && 0 <= j < n && NthId(s, j) == id
    requires forall i :: 0 <= i < n && NthId(s, i) == id ==> i == j
    ensures var a := InfoStage(s, n, v);
      && a[j].refCount == |Slots(v, id)|
      && InfoStage(s, n, v[k := id]) == a[j := a[j].(refCount := a[j].refCount + 1)]
  {
    hide AllIds, Nth, NthId;
    SlotsAfterInsert(v, k, id);
  }

  /** Reading one index of the new table adds the slot it was written for. */
  lemma NewStageNext(c: Config, s: State, v: Table, k: Slot, n: int)
    requires Inv(c, s) && n == s.newCount + s.triedCount && k in s.newTable && k !in v
    ensures var id := s.newTable[k]; var j := Rename(s, id); var a := InfoStage(s, n, v);
      && id in s.info && 0 <= j < s.newCount && j in a && k == NewSlot(c, s.key, a[j].addr.service, k.0)
      && a[j].refCount == |Slots(v, id)| && !a[j].inTried
      && InfoStage(s, n, v[k := id]) == a[j := a[j].(refCount := a[j].refCount + 1)]
      && NewStage(s, v[k := id]) == NewStage(s, v)[k := j]
  {
    NewSlotFacts(c, s, k);
    assert NewAt(c, s.key, s.info, k, s.newTable[k]);
    assert s.triedCount >= 0;
    hide Inv, Rename;
    InfoStageRef(s, v, k, n, s.newTable[k], Rename(s, s.newTable[k]));
  }

  // ---------------------------------------------------------------- reading

  method ReadNum(ts: seq<Token>, i: nat) returns (ok: bool, n: int)
    ensures ok <==> i < |ts| && ts[i].Num?
    ensures ok ==> n == ts[i].n
  {
    ok := i < |ts| && ts[i].Num?;
    n := if ok then ts[i].n else 0;
  }

  method ReadEntry(ts: seq<Token>, i: nat) returns (ok: bool, e: Saved)
    ensures ok <==> i < |ts| && ts[i].Entry?
    ensures ok ==> e == ts[i].e
  {
    ok := i < |ts| && ts[i].Entry?;
    e := if ok then ts[i].e else Saved(Address(Service(0, 0), 0, 0), 0, 0, 0);
  }

  /** The new entries. `usable` says whether the bucket positions that follow can be used; if not, each entry is put
      into the bucket of its own source, when that slot is still free. `s` is the state the stream may come from, and
      `m` the number of tried entries that follow. */
  method ReadNew(c: Config, ts: seq<Token>, key: nat, count: int, usable: bool, ghost s: State, ghost m: int)
    returns (ok: bool, i: nat, info: Infos, byAddr: map<NetAddr, int>, order: seq<int>, newTable: Table)
    ensures ok ==> RandomOk(info, order) && forall j :: j in info <==> 0 <= j < count
    ensures ok && key != 0 && Fine(ts, count, m) ==>
      Built(c, ts, State(key, count, info, byAddr, order, 0, map[], 0, newTable), 6 + count, count)
    ensures From(c, ts, s) && usable && key == s.key && count == s.newCount ==>
      && ok && i == 6 + count
      && info == InfoStage(s, count, map[]) && byAddr == AddrStage(s, count)
      && order == OrderStage(count) && newTable == map[]
  {
    hide Inv, Serialized, InfoStage, AddrStage, RandomOk, Nth, Fine, Built;
    ghost var good := From(c, ts, s) && usable && key == s.key && count == s.newCount;
    ghost var fine := key != 0 && Fine(ts, count, m);
    i, info, byAddr, order, newTable := 6, map[], map[], [], map[];
    var n := 0;
    NothingRead(s);
    if good { AddrStageStart(c, s); }
    if fine { FineCounts(ts, count, m); BuiltStart(c, ts, key); }
    while n < count
      invariant 0 <= n && (n <= count || n == 0) && i == 6 + n
      invariant RandomOk(info, order) && |order| == n && forall j :: j in info <==> 0 <= j < n
      invariant good ==> info == InfoStage(s, n, map[]) && byAddr == AddrStage(s, n)
      invariant good ==> order == OrderStage(n) && newTable == map[]
      invariant fine ==> Built(c, ts, State(key, n, info, byAddr, order, 0, map[], 0, newTable), i, n)
    {
      if good {
        TokenAt(c, s, n);
        InfoStageNext(s, n);
        AddrStageNext(c, s, n);
        assert Load(Save(Nth(s, n)), n) == Restored(Nth(s, n), n, 0);
      }
      var e;
      ok, e := ReadEntry(ts, i);
      if !ok { return; }
      if fine { BuiltNew(c, ts, count, m, State(key, n, info, byAddr, order, 0, map[], 0, newTable), i, usable); }
      var a := Load(e, |order|);
      if !usable {
        var k := NewSlot(c, key, a.addr.service, c.newBucket(key, a.addr.service, a.source));
        if k !in newTable {
          newTable := newTable[k := n];
          a := a.(refCount := a.refCount + 1);
        }
      }
      AppendOrder(info, order, n, a);
      info := info[n := a];
      byAddr := byAddr[a.addr.service.ip := n];
      order := order + [n];
      i, n := i + 1, n + 1;
    }
    ok := true;
  }

  lemma NothingRead(s: State)
    ensures InfoStage(s, 0, map[]) == map[] && OrderStage(0) == [] && RandomOk(map[], [])
  {
  }

  lemma AddrStageStart(c: Config, s: State)
    requires Inv(c, s)
    ensures AddrStage(s, 0) == map[] && s.newCount >= 0 && s.triedCount >= 0
  {
    Bijection(c, s);
    forall ip | ip in s.byAddr ensures Rename(s, s.byAddr[ip]) >= 0 { assert HasAddr(s.info, s.byAddr[ip], ip); }
  }

  /** The first `n` entries have been read, the tried ones among them into their slots. */
  ghost predicate AtStage(s: State, n: int, info: Infos, byAddr: map<NetAddr, int>, order: seq<int>, tried: Table) {
    && 0 <= n && info == InfoStage(s, n, map[]) && byAddr == AddrStage(s, n)
    && order == OrderStage(n) && tried == TriedStage(s, n)
  }

  lemma AtStageNext(c: Config, s: State, n: int, info: Infos, byAddr: map<NetAddr, int>, order: seq<int>, tried: Table)
    requires Inv(c, s) && AtStage(s, n, info, byAddr, order, tried)
    requires s.newCount <= n < s.newCount + s.triedCount
    ensures var e := Save(Nth(s, n)); var a := Load(e, |order|).(inTried := true);
      var k := TriedSlot(c, s.key, a.addr.service);
      && |Serialized(c, s)| > 6 + n && Serialized(c, s)[6 + n] == Entry(e)
      && k !in tried
      && AtStage(s, n + 1, info[n := a], byAddr[a.addr.service.ip := n], order + [n], tried[k := n])
  {
    hide Inv, Serialized, InfoStage, AddrStage, TriedStage, Nth, NthId, Rename;
    TokenAt(c, s, n);
    InfoStageNext(s, n);
    AddrStageNext(c, s, n);
    TriedStageNext(c, s, n);
    assert Load(Save(Nth(s, n)), |order|).(inTried := true) == Restored(Nth(s, n), n, 0);
  }

  /** The ids given out so far: those of the new entries, and then counting on. */
  ghost predicate IdsFrom(info: Infos, first: int, idCount: int) {
    && first <= idCount
    && forall j :: (0 <= j < first ==> j in info) && (j in info ==> (0 <= j || first <= j) && j < idCount)
  }

  /** The tried entries, each into its own slot; one whose slot is taken is lost. An id of -1 would read back as an
      empty slot. */
  method ReadTried(c: Config, ts: seq<Token>, key: nat, count: int, first: int,
                   info0: Infos, byAddr0: map<NetAddr, int>, order0: seq<int>, ghost s: State, ghost newTable: Table)
    returns (ok: bool, i: nat, info: Infos, byAddr: map<NetAddr, int>, order: seq<int>, tried: Table,
             idCount: int, lost: int)
    requires RandomOk(info0, order0) && IdsFrom(info0, first, first)
    ensures ok ==> RandomOk(info, order) && IdsFrom(info, first, idCount)
    ensures ok && Fine(ts, first, count)
              && Built(c, ts, State(key, first, info0, byAddr0, order0, 0, map[], 0, newTable), 6 + first, first) ==>
      && count - lost == idCount - first
      && Built(c, ts, State(key, idCount, info, byAddr, order, count - lost, tried, 0, newTable), i, first)
    ensures (From(c, ts, s) && key == s.key && first == s.newCount && count == s.triedCount &&
             AtStage(s, first, info0, byAddr0, order0, map[])) ==>
      && ok && i == 6 + idCount && idCount == first + count && lost == 0
      && AtStage(s, idCount, info, byAddr, order, tried)
  {
    hide Inv, Serialized, AtStage, RandomOk, Nth, IdsFrom, Fine, Built;
    ghost var good := From(c, ts, s) && key == s.key && first == s.newCount && count == s.triedCount &&
      AtStage(s, first, info0, byAddr0, order0, map[]);
    ghost var fine := Fine(ts, first, count) &&
      Built(c, ts, State(key, first, info0, byAddr0, order0, 0, map[], 0, newTable), 6 + first, first);
    i := if first < 0 then 6 else 6 + first;
    info, byAddr, order, tried, idCount, lost := info0, byAddr0, order0, map[], first, 0;
    var n := 0;
    if good { AddrStageStart(c, s); }
    if fine { FineCounts(ts, first, count); }
    while n < count
      invariant 0 <= n && (n <= count || n == 0)
      invariant RandomOk(info, order) && IdsFrom(info, first, idCount)
      invariant good ==> i == 6 + idCount && idCount == first + n && lost == 0
      invariant good ==> AtStage(s, idCount, info, byAddr, order, tried)
      invariant fine ==> i == 6 + first + n && n - lost == idCount - first
      invariant fine ==>
        Built(c, ts, State(key, idCount, info, byAddr, order, n - lost, tried, 0, newTable), i, first)
    {
      if good { AtStageNext(c, s, idCount, info, byAddr, order, tried); }
      var e;
      ok, e := ReadEntry(ts, i);
      if !ok { return; }
      if fine {
        var st := State(key, idCount, info, byAddr, order, n - lost, tried, 0, newTable);
        BuiltTried(c, ts, first, count, st, i);
        BuiltIds(c, ts, st, i, first);
      }
      var a := Load(e, |order|).(inTried := true);
      var k := TriedSlot(c, key, a.addr.service);
      if k !in tried {
        IdsNext(info, first, idCount, a);
        AppendOrder(info, order, idCount, a);
        info := info[idCount := a];
        byAddr := byAddr[a.addr.service.ip := idCount];
        order := order + [idCount];
        if idCount != -1 { tried := tried[k := idCount]; }
        idCount := idCount + 1;
      } else {
        lost := lost + 1;
      }
      i, n := i + 1, n + 1;
    }
    ok := true;
  }

  lemma IdsNext(info: Infos, first: int, idCount: int, a: AddrInfo)
    requires IdsFrom(info, first, idCount)
    ensures idCount !in info && IdsFrom(info[idCount := a], first, idCount + 1)
  {
  }

  // ------------------------------------------------- positions in the new table

  /** The slots of the saved new table that have been read back after `n` indices of bucket `b`. */
  ghost function ReadSlots(t: Table, b: int, row: seq<int>): Table {
    map k | k in t && (k.0 < b || (k.0 == b && k.1 in row)) :: t[k]
  }

  ghost function BucketStart(c: Config, s: State, b: int): int {
    6 + s.newCount + s.triedCount + |Buckets(c, s, b)|
  }

  lemma {:induction false} BucketsPrefix(c: Config, s: State, b: nat, n: nat)
    requires b < n
    ensures |Buckets(c, s, b)| + |Bucket(c, s, b)| == |Buckets(c, s, b + 1)| <= |Buckets(c, s, n)|
    ensures Buckets(c, s, n)[|Buckets(c, s, b)|..|Buckets(c, s, b + 1)|] == Bucket(c, s, b)
  {
    hide Bucket;
    if b + 1 < n {
      BucketsPrefix(c, s, b, n - 1);
      PrefixSlice(Buckets(c, s, n - 1), Bucket(c, s, n - 1), |Buckets(c, s, b)|, |Buckets(c, s, b + 1)|);
    }
  }

  lemma PrefixSlice<T>(a: seq<T>, b: seq<T>, i: nat, j: nat)
    requires i <= j <= |a|
    ensures (a + b)[i..j] == a[i..j]
  {
  }

  /** Where the size and the indices of a bucket are found in the stream. */
  lemma BucketTokens(c: Config, s: State, b: nat)
    requires Inv(c, s) && b < c.newBuckets
    ensures var ts := Serialized(c, s); var at := BucketStart(c, s, b); var row := Row(s.newTable, b, c.bucketSize);
      && 0 <= at && at + 1 + |row| == BucketStart(c, s, b + 1) <= |ts|
      && ts[at] == Num(|row|)
      && (forall k :: 0 <= k < |row| ==>
            (b, row[k]) in s.newTable && ts[at + 1 + k] == Num(Rename(s, s.newTable[(b, row[k])])))
  {
    hide Inv, Rename, Listed, Buckets, Row, Indices, Entries;
    Bijection(c, s);
    BucketsPrefix(c, s, b, c.newBuckets);
    IndicesAt(s, b, c.bucketSize);
    var head := Header(c, s) + Entries(s.info, AllIds(s));
    var all := Buckets(c, s, c.newBuckets);
    var from, to := |Buckets(c, s, b)|, |Buckets(c, s, b + 1)|;
    assert |head| == 6 + s.newCount + s.triedCount by { EntriesSize(s.info, AllIds(s)); }
    forall k | 0 <= k < to - from ensures (head + all)[|head| + from + k] == Bucket(c, s, b)[k] {
      Slice(head, all, from, to, k);
    }
  }

  lemma EntriesSize(info: Infos, ids: seq<int>)
    requires forall k :: 0 <= k < |ids| ==> ids[k] in info
    ensures |Entries(info, ids)| == |ids|
  {
  }

  lemma Slice<T>(head: seq<T>, all: seq<T>, from: nat, to: nat, k: nat)
    requires from <= to <= |all| && k < to - from
    ensures (head + all)[|head| + from + k] == all[from..to][k]
  {
  }

  /** `m` indices of bucket `b` have been read. */
  ghost predicate SlotsRead(c: Config, s: State, b: int, m: int, info: Infos, newTable: Table) {
    var row := Row(s.newTable, b, c.bucketSize);
    && 0 <= m <= |row|
    && info == InfoStage(s, s.newCount + s.triedCount, ReadSlots(s.newTable, b, row[..m]))
    && newTable == NewStage(s, ReadSlots(s.newTable, b, row[..m]))
  }

  lemma SlotsReadStart(c: Config, s: State)
    requires Inv(c, s)
    ensures SlotsRead(c, s, 0, 0, InfoStage(s, s.newCount + s.triedCount, map[]), map[])
  {
    hide Inv, InfoStage;
    SlotBuckets(c, s);
    assert ReadSlots(s.newTable, 0, []) == map[];
  }

  lemma SlotBuckets(c: Config, s: State)
    requires Inv(c, s)
    ensures forall k :: k in s.newTable ==> 0 <= k.0 < c.newBuckets && 0 <= k.1 < c.bucketSize
  {
    hide Inv, Rename, NthId, Nth;
    forall k | k in s.newTable ensures 0 <= k.0 < c.newBuckets && 0 <= k.1 < c.bucketSize { NewSlotFacts(c, s, k); }
  }

  lemma ReadSlotsNext(t: Table, b: int, p: int, m: nat)
    requires m < |Row(t, b, p)|
    ensures var row := Row(t, b, p); var k := (b, row[m]); var v := ReadSlots(t, b, row[..m]);
      k in t && k !in v && ReadSlots(t, b, row[..m + 1]) == v[k := t[k]]
  {
    var row := Row(t, b, p);
    RowDistinct(t, b, p, m);
    RowMember(t, b, p, row[m]);
    assert row[..m + 1] == row[..m] + [row[m]];
    hide Row;
  }

  lemma FewerSlots(t: Table, v: Table, k: Slot)
    requires k in t && k !in v && forall j <- v :: j in t && v[j] == t[j]
    ensures |Slots(v, t[k])| < |Slots(t, t[k])|
  {
    var id := t[k];
    assert k !in Slots(v, id) && Slots(v, id) + {k} <= Slots(t, id);
    var rest := Slots(t, id) - (Slots(v, id) + {k});
    assert Slots(t, id) == Slots(v, id) + {k} + rest;
  }

  lemma SlotsReadNext(c: Config, s: State, b: int, m: int, info: Infos, newTable: Table)
    requires Inv(c, s) && SlotsRead(c, s, b, m, info, newTable) && m < |Row(s.newTable, b, c.bucketSize)|
    ensures var k := (b, Row(s.newTable, b, c.bucketSize)[m]);
      && k in s.newTable
      && var j := Rename(s, s.newTable[k]);
      && 0 <= j < s.newCount && j in info && k == NewSlot(c, s.key, info[j].addr.service, b) && k !in newTable
      && info[j].refCount < NEW_BUCKETS_PER_ADDRESS
      && SlotsRead(c, s, b, m + 1, info[j := info[j].(refCount := info[j].refCount + 1)], newTable[k := j])
  {
    hide Inv, InfoStage, NewStage, Row, Rename;
    var row := Row(s.newTable, b, c.bucketSize);
    var v := ReadSlots(s.newTable, b, row[..m]);
    ReadSlotsNext(s.newTable, b, c.bucketSize, m);
    var k := (b, row[m]);
    NewStageNext(c, s, v, k, s.newCount + s.triedCount);
    FewerSlots(s.newTable, v, k);
    ReferenceLimit(c, s, s.newTable[k]);
    NewStageKeys(s, v);
  }

  lemma NewStageKeys(s: State, v: Table)
    ensures forall k :: k in NewStage(s, v) <==> k in v
  {
  }

  lemma ReferenceLimit(c: Config, s: State, id: int)
    requires Inv(c, s) && id in s.info
    ensures |Slots(s.newTable, id)| <= NEW_BUCKETS_PER_ADDRESS
  {
    assert s.info[id].refCount == |Slots(s.newTable, id)|;
  }

  lemma SlotsReadRow(c: Config, s: State, b: int, info: Infos, newTable: Table)
    requires Inv(c, s) && SlotsRead(c, s, b, |Row(s.newTable, b, c.bucketSize)|, info, newTable)
    ensures SlotsRead(c, s, b + 1, 0, info, newTable)
  {
    hide Inv, Row, InfoStage, NewStage;
    var row := Row(s.newTable, b, c.bucketSize);
    assert row[..|row|] == row;
    SlotBuckets(c, s);
    forall k | k in s.newTable && k.0 == b ensures k.1 in row { RowMember(s.newTable, b, c.bucketSize, k.1); }
    assert ReadSlots(s.newTable, b, row) == ReadSlots(s.newTable, b + 1, []);
  }

  lemma SlotsReadEnd(c: Config, s: State, info: Infos, newTable: Table)
    requires Inv(c, s) && SlotsRead(c, s, c.newBuckets, 0, info, newTable)
    ensures info == InfoStage(s, s.newCount + s.triedCount, s.newTable) && newTable == NewStage(s, s.newTable)
  {
    hide Inv, InfoStage;
    SlotBuckets(c, s);
    assert ReadSlots(s.newTable, c.newBuckets, []) == s.newTable;
  }

  method ReadBuckets(c: Config, ts: seq<Token>, start: nat, key: nat, usable: bool, buckets: int, first: int,
                     info0: Infos, newTable0: Table, ghost order: seq<int>, ghost s: State, ghost st: State)
    returns (ok: bool, info: Infos, newTable: Table)
    requires RandomOk(info0, order) && forall j :: 0 <= j < first ==> j in info0
    ensures ok ==> RandomOk(info, order) && forall j :: j in info <==> j in info0
    ensures ok && (usable ==> buckets == c.newBuckets) && key == st.key
              && Built(c, ts, st.(info := info0, newTable := newTable0), start, first) ==>
      Built(c, ts, st.(info := info, newTable := newTable), start, first)
    ensures (From(c, ts, s) && usable && key == s.key && buckets == c.newBuckets && first == s.newCount &&
             start == BucketStart(c, s, 0) && SlotsRead(c, s, 0, 0, info0, newTable0)) ==>
      ok && info == InfoStage(s, s.newCount + s.triedCount, s.newTable) && newTable == NewStage(s, s.newTable)
  {
    hide Inv, Serialized, SlotsRead, RandomOk, BucketStart, Row, Built;
    ghost var good := From(c, ts, s) && usable && key == s.key && buckets == c.newBuckets && first == s.newCount &&
      start == BucketStart(c, s, 0) && SlotsRead(c, s, 0, 0, info0, newTable0);
    ghost var fine := (usable ==> buckets == c.newBuckets) && key == st.key &&
      Built(c, ts, st.(info := info0, newTable := newTable0), start, first);
    info, newTable := info0, newTable0;
    var i: nat := start;
    var b := 0;
    while b < buckets
      invariant 0 <= b && (b <= buckets || b == 0)
      invariant RandomOk(info, order) && forall j :: j in info <==> j in info0
      invariant good ==> i == BucketStart(c, s, b) && SlotsRead(c, s, b, 0, info, newTable)
      invariant fine ==> Built(c, ts, st.(info := info, newTable := newTable), start, first)
    {
      if good { BucketTokens(c, s, b); }
      var size;
      ok, size := ReadNum(ts, i);
      if !ok { return; }
      var n := 0;
      while n < size
        invariant 0 <= n && (n <= size || n == 0)
        invariant RandomOk(info, order) && forall j :: j in info <==> j in info0
        invariant good ==> SlotsRead(c, s, b, n, info, newTable)
        invariant fine ==> Built(c, ts, st.(info := info, newTable := newTable), start, first)
      {
        if good { SlotsReadNext(c, s, b, n, info, newTable); }
        var j;
        ok, j := ReadNum(ts, i + 1 + n);
        if !ok { return; }
        if 0 <= j < first {
          var k := NewSlot(c, key, info[j].addr.service, b);
          if usable && k !in newTable && info[j].refCount < NEW_BUCKETS_PER_ADDRESS {
            RefOrder(info, order, j);
            if fine { BuiltRef(c, ts, st.(info := info, newTable := newTable), start, first, b, j); }
            info := info[j := info[j].(refCount := info[j].refCount + 1)];
            newTable := newTable[k := j];
          }
        }
        n := n + 1;
      }
      if good { SlotsReadRow(c, s, b, info, newTable); }
      i := if size < 0 then i + 1 else i + 1 + size;
      b := b + 1;
    }
    ok := true;
    if good { SlotsReadEnd(c, s, info, newTable); }
  }

  lemma RefOrder(info: Infos, order: seq<int>, j: int)
    requires RandomOk(info, order) && j in info
    ensures RandomOk(info[j := info[j].(refCount := info[j].refCount + 1)], order)
  {
    var b := info[j := info[j].(refCount := info[j].refCount + 1)];
    forall p | 0 <= p < |order| ensures AtPosition(b, p, order[p]) { assert AtPosition(info, p, order[p]); }
  }

  // ------------------------------------------------------------ all together

  lemma DeleteOrder(st: State, id: int)
    requires RandomOk(st.info, st.random) && id in st.info && !st.info[id].inTried && st.info[id].refCount == 0
    ensures CanDelete(st, id) && RandomOk(Delete(st, id).info, Delete(st, id).random)
  {
    hide RandomOk;
    LastInOrder(st, id);
    var p, last := st.info[id].randomPos, |st.random| - 1;
    if p != last {
      var m := SwapRandom(st, p, last);
      SwapOrder(st.info, st.random, p, last, m.info);
      DropOrder(m.info, m.random, id);
    } else {
      DropOrder(st.info, st.random, id);
    }
  }

  lemma LastInOrder(st: State, id: int)
    requires RandomOk(st.info, st.random) && id in st.info
    ensures |st.random| > 0 && InOrder(st.random, st.info[id].randomPos, id)
    ensures var last := |st.random| - 1; AtPosition(st.info, last, st.random[last])
  {
  }

  /** Drop the untried entries no bucket refers to. */
  method Prune(ghost c: Config, st0: State, first: int) returns (st: State, lost: int)
    requires RandomOk(st0.info, st0.random)
    ensures RandomOk(st.info, st.random)
    ensures first == 0 && Core(c, st0) && st0.newCount == |NewIds(st0.info)| ==>
      Inv(c, st) && |st.info| + lost == |st0.info|
    ensures (forall id <- st0.info :: st0.info[id].inTried || st0.info[id].refCount != 0) ==> st == st0 && lost == 0
  {
    hide RandomOk, Core, Inv, Pruning, Delete, CanDelete;
    st, lost := st0, 0;
    var id := first;
    ghost var fine := first == 0 && Core(c, st0) && st0.newCount == |NewIds(st0.info)|;
    if fine { PruningStart(c, st0); CoreCount(c, st0); }
    while id < st0.idCount
      invariant RandomOk(st.info, st.random)
      invariant fine ==> id <= st0.idCount && Pruning(c, st0, st, id, lost)
      invariant (forall id <- st0.info :: st0.info[id].inTried || st0.info[id].refCount != 0) ==> st == st0 && lost == 0
    {
      if fine { PruningNext(c, st0, st, id, lost); }
      if id in st.info && !st.info[id].inTried && st.info[id].refCount == 0 {
        DeleteOrder(st, id);
        st := Delete(st, id);
        lost := lost + 1;
      }
      id := id + 1;
    }
    if fine { PruningEnd(c, st0, st, lost); }
  }

  method ReadHeader(ts: seq<Token>)
    returns (ok: bool, version: int, key: nat, newCount: int, triedCount: int, buckets: int)
    ensures ok ==> |ts| >= 6 && ts[2] == Num(key) && ts[3] == Num(newCount) && ts[4] == Num(triedCount)
    ensures forall c, s :: From(c, ts, s) ==>
      && ok && version == 1 && key == s.key
      && newCount == s.newCount && triedCount == s.triedCount && buckets == c.newBuckets
  {
    key, newCount, triedCount, buckets := 0, 0, 0, 0;
    forall c, s | From(c, ts, s) ensures |ts| >= 6 && ts[..6] == Header(c, s) {
      hide Inv;
      assert Serialized(c, s)[..6] == Header(c, s);
    }
    hide Flip, Serialized, Inv;
    var size, k;
    ok, version := ReadNum(ts, 0);
    if ok { ok, size := ReadNum(ts, 1); }
    if ok { ok := size == 32; }
    if ok { ok, k := ReadNum(ts, 2); }
    if ok && k >= 0 { key := k; } else { ok := false; }
    if ok { ok, newCount := ReadNum(ts, 3); }
    if ok { ok, triedCount := ReadNum(ts, 4); }
    if ok { ok, buckets := ReadNum(ts, 5); }
    if ok && version != 0 {
      buckets := Flip(buckets);
    }
    forall c, s | From(c, ts, s)
      ensures ok && version == 1 && key == s.key && newCount == s.newCount && triedCount == s.triedCount
      ensures buckets == c.newBuckets
    {
      assert forall i :: 0 <= i < 6 ==> ts[i] == ts[..6][i];
      FlipTwice(c.newBuckets);
    }
  }

  /** A stream with a key and with entries that fit together, whatever its version and its buckets. */
  ghost predicate FineStream(ts: seq<Token>) {
    && |ts| >= 6 && ts[2].Num? && ts[3].Num? && ts[4].Num?
    && ts[2].n > 0 && Fine(ts, ts[3].n, ts[4].n)
  }

  /** A stream that was written from a consistent manager loads as that manager with its entries renumbered, and
      nothing is lost. From any other stream of entries that fit together comes a consistent manager too, if it can be
      read to its end, and every entry is loaded or counted as lost. Any stream at all either fails or gives a manager
      whose random order is sound. */
  method Unserialize(c: Config, ts: seq<Token>, ghost s: State) returns (ok: bool, st: State, lost: int, lostNew: int)
    ensures ok ==> RandomOk(st.info, st.random)
    ensures ok && FineStream(ts) ==> Inv(c, st) && |st.info| + lost + lostNew == ts[3].n + ts[4].n
    ensures From(c, ts, s) ==> ok && st == Renamed(c, s) && lost == 0 && lostNew == 0
  {
    hide Inv, Serialized, RandomOk, AtStage, SlotsRead, InfoStage, AddrStage, TriedStage, NewStage, OrderStage, Built,
         Fine;
    st, lost, lostNew := Init(0), 0, 0;
    var version, key, newCount, triedCount, buckets;
    ok, version, key, newCount, triedCount, buckets := ReadHeader(ts);
    if !ok { return; }
    var usable := version == 1 && buckets == c.newBuckets;
    var i, info, byAddr, order, newTable, tried, idCount;
    ok, i, info, byAddr, order, newTable := ReadNew(c, ts, key, newCount, usable, s, triedCount);
    if !ok { return; }
    if From(c, ts, s) { AtStageStart(c, s, info, byAddr, order); }
    ok, i, info, byAddr, order, tried, idCount, lost :=
      ReadTried(c, ts, key, triedCount, newCount, info, byAddr, order, s, newTable);
    if !ok { return; }
    if From(c, ts, s) { StagesMeet(c, s, info, byAddr, order, tried); }
    ghost var built := State(key, idCount, info, byAddr, order, triedCount - lost, tried, 0, newTable);
    ok, info, newTable := ReadBuckets(c, ts, i, key, usable, buckets, newCount, info, newTable, order, s, built);
    if !ok { return; }
    st := State(key, idCount, info, byAddr, order, triedCount - lost, tried, newCount, newTable);
    if From(c, ts, s) { NothingToPrune(c, s); }
    if FineStream(ts) { AllBuilt(c, ts, built.(info := info, newTable := newTable), i, newCount, triedCount); }
    st, lostNew := Prune(c, st, if newCount < 0 then newCount else 0);
  }

  lemma AllBuilt(c: Config, ts: seq<Token>, st: State, at: int, first: int, m: int)
    requires Built(c, ts, st, at, first) && Fine(ts, first, m)
    ensures first >= 0 && |st.info| == st.idCount
    ensures var t := st.(newCount := first); Core(c, t) && t.newCount == |NewIds(t.info)|
  {
    BuiltCounts(c, ts, st, at, first);
  }

  lemma AtStageStart(c: Config, s: State, info: Infos, byAddr: map<NetAddr, int>, order: seq<int>)
    requires Inv(c, s)
    ensures s.newCount >= 0
    ensures info == InfoStage(s, s.newCount, map[]) && byAddr == AddrStage(s, s.newCount)
              && order == OrderStage(s.newCount)
            ==> AtStage(s, s.newCount, info, byAddr, order, map[])
  {
    hide Inv, InfoStage, AddrStage, TriedStage, OrderStage;
    AddrStageStart(c, s);
    TriedStageStart(c, s);
  }

  lemma StagesMeet(c: Config, s: State, info: Infos, byAddr: map<NetAddr, int>, order: seq<int>, tried: Table)
    requires Inv(c, s) && AtStage(s, s.newCount + s.triedCount, info, byAddr, order, tried)
    ensures SlotsRead(c, s, 0, 0, info, map[]) && BucketStart(c, s, 0) == 6 + s.newCount + s.triedCount
    ensures info == InfoStage(s, s.newCount + s.triedCount, map[]) && byAddr == AddrStage(s, s.newCount + s.triedCount)
    ensures order == OrderStage(s.newCount + s.triedCount) && tried == TriedStage(s, s.newCount + s.triedCount)
  {
    SlotsReadStart(c, s);
  }

  /** Every untried entry has a slot, so it has a reference again. */
  lemma NothingToPrune(c: Config, s: State)
    requires Inv(c, s)
    ensures var info := InfoStage(s, s.newCount + s.triedCount, s.newTable);
      forall j <- info :: info[j].inTried || info[j].refCount != 0
  {
    var info := InfoStage(s, s.newCount + s.triedCount, s.newTable);
    forall j | j in info ensures info[j].inTried || info[j].refCount != 0 {
      TokenAt(c, s, j);
      var id := NthId(s, j);
      assert id !in Limbo(s.info) && s.info[id].refCount == |Slots(s.newTable, id)|;
    }
  }

  // -------------------------------------------- the renumbered state is the same

  /** Renumbering keeps every entry and every placement; only the time of the last try, which is not written, and the
      random order are new. */
  lemma RenamedSame(c: Config, s: State)
    requires Inv(c, s)
    ensures var r := Renamed(c, s);
      && r.key == s.key && r.newCount == s.newCount && r.triedCount == s.triedCount && |r.info| == |s.info|
      && (forall a, b :: a in s.info && b in s.info && a != b ==> Rename(s, a) != Rename(s, b))
      && (forall id <- s.info :: Rename(s, id) in r.info &&
            r.info[Rename(s, id)] == s.info[id].(lastTry := 0, randomPos := Rename(s, id)))
      && (forall k :: k in r.newTable <==> k in s.newTable)
      && (forall k <- s.newTable :: r.newTable[k] == Rename(s, s.newTable[k]))
      && (forall k :: k in r.triedTable <==> k in s.triedTable)
      && (forall k <- s.triedTable :: r.triedTable[k] == Rename(s, s.triedTable[k]))
  {
    Bijection(c, s);
    var r := Renamed(c, s);
    RenamedEntries(c, s);
    InfoSize(s);
    IdCount(c, s);
    forall k | k in s.triedTable ensures Rename(s, s.triedTable[k]) < s.newCount + s.triedCount {
      assert TriedAt(c, s.key, s.info, k, s.triedTable[k]);
    }
    hide Inv, Rename, InfoStage, AddrStage, OrderStage, Listed;
  }

  lemma RenamedEntries(c: Config, s: State)
    requires Inv(c, s)
    ensures var info := InfoStage(s, s.newCount + s.triedCount, s.newTable);
      forall id <- s.info :: Rename(s, id) in info &&
        info[Rename(s, id)] == s.info[id].(lastTry := 0, randomPos := Rename(s, id))
  {
    Bijection(c, s);
    forall id | id in s.info ensures s.info[id].refCount == |Slots(s.newTable, id)| {}
    hide Inv, Rename, Listed;
  }

  lemma InfoSize(s: State)
    requires s.newCount + s.triedCount >= 0
    ensures |InfoStage(s, s.newCount + s.triedCount, s.newTable)| == s.newCount + s.triedCount
  {
    var info := InfoStage(s, s.newCount + s.triedCount, s.newTable);
    assert info.Keys == Range(s.newCount + s.triedCount);
  }

  lemma IdCount(c: Config, s: State)
    requires Inv(c, s)
    ensures |s.info| == s.newCount + s.triedCount
  {
    assert s.info.Keys == NewIds(s.info) + TriedIds(s.info);
  }

  /** So what is loaded is consistent again. */
  lemma RenamedInv(c: Config, s: State)
    requires Inv(c, s)
    ensures Inv(c, Renamed(c, s))
  {
    hide InfoStage, AddrStage, TriedStage, NewStage, OrderStage, IndexOk, TablesOk, TriedIds, NewIds, Limbo;
    RenamedIndex(c, s);
    RenamedTables(c, s);
    RenamedCounts(c, s);
    assert s.key != 0;
    assert Total(s) == s.newCount + s.triedCount;
  }

  ghost function Total(s: State): int {
    s.newCount + s.triedCount
  }

  lemma RenamedEntry(c: Config, s: State, j: int)
    requires Inv(c, s) && 0 <= j < Total(s)
    ensures var i := InfoStage(s, Total(s), s.newTable)[j]; var id := NthId(s, j);
      && id in s.info && Rename(s, id) == j && i == s.info[id].(lastTry := 0, randomPos := j)
      && (forall x <- s.info :: Rename(s, x) == j <==> x == id)
      && (j < s.newCount <==> !i.inTried)
  {
    TokenAt(c, s, j);
    Bijection(c, s);
    assert s.info[NthId(s, j)].refCount == |Slots(s.newTable, NthId(s, j))|;
    hide Inv, Rename, Listed;
  }

  lemma RenamedIndex(c: Config, s: State)
    requires Inv(c, s)
    ensures Total(s) >= 0
    ensures IndexOk(InfoStage(s, Total(s), s.newTable), Total(s), AddrStage(s, Total(s)), OrderStage(Total(s)))
  {
    hide Inv, InfoStage, AddrStage;
    AddrStageStart(c, s);
    StageKeys(s);
    var n := Total(s);
    var info, byAddr, order := InfoStage(s, n, s.newTable), AddrStage(s, n), OrderStage(n);
    forall j | j in info
      ensures 0 <= j < n && InOrder(order, info[j].randomPos, j) && Maps(byAddr, info[j].addr.service.ip, j)
    {
      RenamedPosition(c, s, j);
    }
    forall p | 0 <= p < |order| ensures AtPosition(info, p, order[p]) { RenamedPosition(c, s, p); }
    forall ip | ip in byAddr ensures HasAddr(info, byAddr[ip], ip) { RenamedAddr(c, s, ip); }
  }

  lemma RenamedPosition(c: Config, s: State, j: int)
    requires Inv(c, s) && 0 <= j < Total(s)
    ensures var info := InfoStage(s, Total(s), s.newTable); var order := OrderStage(Total(s));
      && |order| == Total(s) && order[j] == j
      && j in info && InOrder(order, info[j].randomPos, j) && AtPosition(info, j, j)
      && Maps(AddrStage(s, Total(s)), info[j].addr.service.ip, j)
  {
    RenamedEntry(c, s, j);
    var id := NthId(s, j);
    assert Maps(s.byAddr, s.info[id].addr.service.ip, id);
    hide Inv, Rename, AllIds;
  }

  lemma RenamedAddr(c: Config, s: State, ip: NetAddr)
    requires Inv(c, s) && ip in s.byAddr
    ensures var j := Rename(s, s.byAddr[ip]);
      0 <= j < Total(s) && HasAddr(InfoStage(s, Total(s), s.newTable), j, ip) && Maps(AddrStage(s, Total(s)), ip, j)
  {
    assert HasAddr(s.info, s.byAddr[ip], ip);
    Bijection(c, s);
    RenamedEntry(c, s, Rename(s, s.byAddr[ip]));
    hide Inv;
  }

  lemma RenamedTables(c: Config, s: State)
    requires Inv(c, s)
    ensures Total(s) >= 0
    ensures TablesOk(c, s.key, InfoStage(s, Total(s), s.newTable), TriedStage(s, Total(s)), NewStage(s, s.newTable))
  {
    hide Inv, InfoStage, TriedStage, NewStage;
    AddrStageStart(c, s);
    var n := Total(s);
    var info, tried, untried := InfoStage(s, n, s.newTable), TriedStage(s, n), NewStage(s, s.newTable);
    StageKeys(s);
    forall j | j in info
      ensures TriedPlaced(c, s.key, info[j], tried, j) && info[j].lastTry >= 0 && info[j].lastSuccess >= 0
      ensures info[j].refCount == |Slots(untried, j)| <= NEW_BUCKETS_PER_ADDRESS
    {
      RenamedPlaces(c, s, j);
    }
    forall k | k in tried ensures TriedAt(c, s.key, info, k, tried[k]) { RenamedTriedSlot(c, s, k); }
    forall k | k in untried ensures NewAt(c, s.key, info, k, untried[k]) { RenamedNewSlot(c, s, k); }
  }

  lemma StageKeys(s: State)
    ensures forall j :: j in InfoStage(s, Total(s), s.newTable) <==> 0 <= j < Total(s)
    ensures forall ip :: ip in AddrStage(s, Total(s)) ==> ip in s.byAddr
    ensures forall k :: k in TriedStage(s, Total(s)) ==> k in s.triedTable
    ensures forall k :: k in NewStage(s, s.newTable) <==> k in s.newTable
  {
  }

  lemma RenamedPlaces(c: Config, s: State, j: int)
    requires Inv(c, s) && 0 <= j < Total(s)
    ensures var info := InfoStage(s, Total(s), s.newTable);
      && j in info && info[j].lastTry >= 0 && info[j].lastSuccess >= 0
      && TriedPlaced(c, s.key, info[j], TriedStage(s, Total(s)), j)
      && info[j].refCount == |Slots(NewStage(s, s.newTable), j)| <= NEW_BUCKETS_PER_ADDRESS
  {
    RenamedEntry(c, s, j);
    var id := NthId(s, j);
    assert TriedPlaced(c, s.key, s.info[id], s.triedTable, id) && s.info[id].lastSuccess >= 0;
    ReferenceLimit(c, s, id);
    assert Slots(NewStage(s, s.newTable), j) == Slots(s.newTable, id) by {
      forall k | k in s.newTable ensures Rename(s, s.newTable[k]) == j <==> s.newTable[k] == id {
        NewSlotFacts(c, s, k);
      }
    }
    assert s.info[id].refCount == |Slots(s.newTable, id)|;
    hide Inv, Rename, AllIds;
  }

  lemma RenamedTriedSlot(c: Config, s: State, k: Slot)
    requires Inv(c, s) && k in s.triedTable
    ensures var j := Rename(s, s.triedTable[k]);
      && 0 <= j < Total(s) && TriedAt(c, s.key, InfoStage(s, Total(s), s.newTable), k, j)
      && Holds(TriedStage(s, Total(s)), k, j)
  {
    assert TriedAt(c, s.key, s.info, k, s.triedTable[k]);
    Bijection(c, s);
    RenamedEntry(c, s, Rename(s, s.triedTable[k]));
    hide Inv;
  }

  lemma RenamedNewSlot(c: Config, s: State, k: Slot)
    requires Inv(c, s) && k in s.newTable
    ensures var j := Rename(s, s.newTable[k]);
      NewAt(c, s.key, InfoStage(s, Total(s), s.newTable), k, j) && NewStage(s, s.newTable)[k] == j
  {
    NewSlotFacts(c, s, k);
    AddrStageStart(c, s);
    RenamedEntry(c, s, Rename(s, s.newTable[k]));
    hide Inv;
  }

  lemma RenamedCounts(c: Config, s: State)
    requires Inv(c, s)
    ensures var info := InfoStage(s, Total(s), s.newTable);
      |TriedIds(info)| == s.triedCount && |NewIds(info)| == s.newCount && Limbo(info) == {}
  {
    hide Inv, InfoStage, NewIds, TriedIds;
    AddrStageStart(c, s);
    var info := InfoStage(s, Total(s), s.newTable);
    StageKeys(s);
    forall j | j in info ensures j < s.newCount <==> !info[j].inTried { RenamedEntry(c, s, j); }
    NothingToPrune(c, s);
    SplitSizes(info, s.newCount, Total(s));
  }

  lemma SplitSizes(info: Infos, a: nat, n: nat)
    requires a <= n && (forall j :: j in info <==> 0 <= j < n) && forall j <- info :: j < a <==> !info[j].inTried
    ensures |NewIds(info)| == a && |TriedIds(info)| == n - a
  {
    assert NewIds(info) == Range(a);
    assert TriedIds(info) == Range(n) - Range(a);
    assert Range(a) <= Range(n);
  }
}
