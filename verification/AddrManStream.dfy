/** What loading builds from any stream of entries with different addresses, one step at a time (src/addrman.h,
    Unserialize). */
module AddrManStream {
  import opened AddrManState
  import opened AddrManInvariant
  import opened AddrManCodec

  predicate HasIp(t: Token, ip: NetAddr) {
    t.Entry? && t.e.addr.service.ip == ip
  }

  /** The entries of a stream of n new and m tried ones: no address twice, no time before zero, and the tried ones have
      succeeded. */
  ghost predicate Fine(ts: seq<Token>, n: int, m: int) {
    && n >= 0 && m >= 0
    && (forall i :: 6 <= i < 6 + n + m && i < |ts| && ts[i].Entry? ==>
          ts[i].e.lastSuccess >= if i < 6 + n then 0 else 1)
    && (forall i, j :: 6 <= i < j < 6 + n + m && j < |ts| && ts[i].Entry? && ts[j].Entry? ==>
          ts[i].e.addr.service.ip != ts[j].e.addr.service.ip)
  }

  /** Every address in the index has been read. */
  ghost predicate Seen(ts: seq<Token>, at: int, byAddr: map<NetAddr, int>) {
    forall ip <- byAddr :: exists i :: 6 <= i < at && i < |ts| && HasIp(ts[i], ip)
  }

  /** What has been built when the stream has been read up to a position: the ids count the entries, those from `first`
      on are tried, and all indices are right. */
  ghost predicate Built(c: Config, ts: seq<Token>, st: State, at: int, first: int) {
    && Core(c, st) && Seen(ts, at, st.byAddr) && Numbered(st, first)
  }

  ghost predicate Numbered(st: State, first: int) {
    && 0 <= first <= st.idCount && st.triedCount == st.idCount - first
    && (forall j :: j in st.info <==> 0 <= j < st.idCount)
    && (forall j <- st.info :: st.info[j].inTried <==> first <= j)
  }

  /** Adding an entry to the indices. */
  function Added(st: State, a: AddrInfo): State {
    st.(idCount := st.idCount + 1, info := st.info[st.idCount := a],
        byAddr := st.byAddr[a.addr.service.ip := st.idCount], random := st.random + [st.idCount])
  }

  /** Reading a new entry, which goes to its own bucket if the positions that follow cannot be used. */
  function NewAdded(c: Config, st: State, e: Saved, usable: bool): State {
    var a := Load(e, |st.random|);
    var k := NewSlot(c, st.key, e.addr.service, c.newBucket(st.key, e.addr.service, e.source));
    if usable || k in st.newTable then Added(st, a)
    else Added(st, a.(refCount := 1)).(newTable := st.newTable[k := st.idCount])
  }

  /** Reading a tried entry, which is lost if its slot is taken. */
  function TriedAdded(c: Config, st: State, e: Saved): State {
    var k := TriedSlot(c, st.key, e.addr.service);
    if k in st.triedTable then st
    else
      Added(st, Load(e, |st.random|).(inTried := true))
        .(triedTable := st.triedTable[k := st.idCount], triedCount := st.triedCount + 1)
  }

  lemma FineCounts(ts: seq<Token>, n: int, m: int)
    requires Fine(ts, n, m)
    ensures n >= 0 && m >= 0
  {
  }

  lemma BuiltIds(c: Config, ts: seq<Token>, st: State, at: int, first: int)
    requires Built(c, ts, st, at, first)
    ensures 0 <= first <= st.idCount
  {
  }

  lemma CoreCount(c: Config, st: State)
    requires Core(c, st)
    ensures st.idCount >= 0
  {
  }

  lemma BuiltStart(c: Config, ts: seq<Token>, key: nat)
    requires key != 0
    ensures Built(c, ts, Init(key), 6, 0)
  {
    assert TriedIds(map[]) == {};
  }

  lemma NotSeen(ts: seq<Token>, n: int, m: int, at: int, byAddr: map<NetAddr, int>)
    requires Fine(ts, n, m) && Seen(ts, at, byAddr) && 6 <= at < 6 + n + m && at < |ts| && ts[at].Entry?
    ensures ts[at].e.addr.service.ip !in byAddr
  {
  }

  lemma SeenMore(ts: seq<Token>, at: int, byAddr: map<NetAddr, int>, id: int)
    requires Seen(ts, at, byAddr) && 6 <= at < |ts| && ts[at].Entry?
    ensures Seen(ts, at + 1, byAddr) && Seen(ts, at + 1, byAddr[ts[at].e.addr.service.ip := id])
  {
    var ip := ts[at].e.addr.service.ip;
    assert HasIp(ts[at], ip);
  }

  /** The new entry is in limbo until it is placed. */
  lemma AddedKeeps(c: Config, st: State, e: Saved)
    requires Core(c, st) && e.addr.service.ip !in st.byAddr && e.lastSuccess >= 0
    ensures var t := Added(st, Load(e, |st.random|));
      && Core(c, t) && st.idCount !in st.info && st.idCount in Limbo(t.info)
      && TriedIds(t.info) == TriedIds(st.info)
  {
    hide Core, Limbo, TriedIds, NewIds;
    CreateKeeps(c, st, e.addr, e.source);
    var m := Create(st, e.addr, e.source);
    SetInfoKeeps(c, m, st.idCount, Load(e, |st.random|));
    var t := SetInfo(m, st.idCount, Load(e, |st.random|));
    assert t.info == st.info[st.idCount := Load(e, |st.random|)];
    assert t == Added(st, Load(e, |st.random|));
  }

  lemma NewAddedKeeps(c: Config, st: State, e: Saved, usable: bool)
    requires Core(c, st) && e.addr.service.ip !in st.byAddr && e.lastSuccess >= 0
    ensures Core(c, NewAdded(c, st, e, usable))
  {
    hide Core;
    AddedKeeps(c, st, e);
    var t := Added(st, Load(e, |st.random|));
    var b := c.newBucket(st.key, e.addr.service, e.source);
    var k := NewSlot(c, st.key, e.addr.service, b);
    if !usable && k !in st.newTable {
      assert InRange(c);
      assert NewAt(c, t.key, t.info, k, st.idCount);
      RefKeeps(c, t, k, st.idCount);
      assert Ref(t, k, st.idCount).info == NewAdded(c, st, e, usable).info;
    }
  }

  lemma TriedAddedKeeps(c: Config, st: State, e: Saved)
    requires Core(c, st) && e.addr.service.ip !in st.byAddr && e.lastSuccess > 0
    ensures Core(c, TriedAdded(c, st, e))
  {
    hide Core;
    var k := TriedSlot(c, st.key, e.addr.service);
    if k !in st.triedTable {
      AddedKeeps(c, st, e);
      var t := Added(st, Load(e, |st.random|));
      PlaceTriedKeeps(c, t, k, st.idCount);
      assert PlaceTried(t, k, st.idCount).info == TriedAdded(c, st, e).info;
    }
  }

  lemma BuiltNew(c: Config, ts: seq<Token>, n: int, m: int, st: State, at: int, usable: bool)
    requires Fine(ts, n, m) && Built(c, ts, st, at, st.idCount)
    requires 6 <= at < 6 + n && at < |ts| && ts[at].Entry?
    ensures Built(c, ts, NewAdded(c, st, ts[at].e, usable), at + 1, st.idCount + 1)
  {
    hide Core, Seen;
    NotSeen(ts, n, m, at, st.byAddr);
    SeenMore(ts, at, st.byAddr, st.idCount);
    NewAddedKeeps(c, st, ts[at].e, usable);
  }

  lemma BuiltTried(c: Config, ts: seq<Token>, n: int, m: int, st: State, at: int)
    requires Fine(ts, n, m) && Built(c, ts, st, at, n)
    requires 6 + n <= at < 6 + n + m && at < |ts| && ts[at].Entry?
    ensures Built(c, ts, TriedAdded(c, st, ts[at].e), at + 1, n)
  {
    hide Core, Seen;
    NotSeen(ts, n, m, at, st.byAddr);
    SeenMore(ts, at, st.byAddr, st.idCount);
    TriedAddedKeeps(c, st, ts[at].e);
  }

  /** A reference from a bucket. */
  lemma BuiltRef(c: Config, ts: seq<Token>, st: State, at: int, first: int, b: int, j: int)
    requires Built(c, ts, st, at, first) && 0 <= j < first && 0 <= b < c.newBuckets
    ensures j in st.info
    ensures var k := NewSlot(c, st.key, st.info[j].addr.service, b);
      k !in st.newTable && st.info[j].refCount < NEW_BUCKETS_PER_ADDRESS ==> Built(c, ts, Ref(st, k, j), at, first)
  {
    hide Core, Seen;
    var k := NewSlot(c, st.key, st.info[j].addr.service, b);
    if k !in st.newTable && st.info[j].refCount < NEW_BUCKETS_PER_ADDRESS {
      assert NewAt(c, st.key, st.info, k, j);
      RefKeeps(c, st, k, j);
    }
  }

  ghost function Range(n: nat): (r: set<int>)
    ensures |r| == n && forall j :: j in r <==> 0 <= j < n
  {
    if n == 0 then {} else Range(n - 1) + {n - 1}
  }

  lemma BuiltCounts(c: Config, ts: seq<Token>, st: State, at: int, first: int)
    requires Built(c, ts, st, at, first)
    ensures |NewIds(st.info)| == first && |st.info| == st.idCount
  {
    hide Core, Seen, Numbered, NewIds;
    NumberedIds(st, first);
  }

  lemma NumberedIds(st: State, first: int)
    requires Numbered(st, first)
    ensures |NewIds(st.info)| == first && |st.info| == st.idCount
  {
    hide Range;
    var a, b := Range(first), Range(st.idCount);
    forall j ensures j in NewIds(st.info) <==> j in a {}
    assert NewIds(st.info) == a;
    forall j ensures j in st.info.Keys <==> j in b {}
    assert st.info.Keys == b;
  }

  // -------------------------------------------------------------- pruning

  /** Pruning, with the entries from some id on still to be looked at. */
  ghost predicate Pruning(c: Config, st0: State, st: State, id: int, lost: int) {
    && Core(c, st) && st.newCount == |NewIds(st.info)|
    && |st.info| + lost == |st0.info| && lost >= 0 && st.idCount == st0.idCount
    && forall j <- st.info :: j < id ==> j !in Limbo(st.info)
  }

  lemma PruningStart(c: Config, st: State)
    requires Core(c, st) && st.newCount == |NewIds(st.info)|
    ensures Pruning(c, st, st, 0, 0)
  {
  }

  lemma PruningNext(c: Config, st0: State, st: State, id: int, lost: int)
    requires Pruning(c, st0, st, id, lost)
    ensures id !in Limbo(st.info) ==> Pruning(c, st0, st, id + 1, lost)
    ensures id in Limbo(st.info) ==> CanDelete(st, id) && Pruning(c, st0, Delete(st, id), id + 1, lost + 1)
  {
    hide Core, Delete;
    if id in Limbo(st.info) {
      DeleteKeeps(c, st, id);
      var t := Delete(st, id);
      assert forall j :: j in t.info <==> j in st.info - {id};
      assert t.info.Keys == st.info.Keys - {id};
      assert id in NewIds(st.info);
    }
  }

  lemma PruningEnd(c: Config, st0: State, st: State, lost: int)
    requires Pruning(c, st0, st, st0.idCount, lost)
    ensures Inv(c, st) && |st.info| + lost == |st0.info|
  {
    forall j <- st.info ensures j !in Limbo(st.info) { assert 0 <= j < st.idCount; }
    assert Limbo(st.info) == {};
  }
}
