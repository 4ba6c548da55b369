/** State of the stochastic address manager, its bucket hashing, and the
    primitive updates every operation is built from (src/addrman.h,
    src/addrman.cpp). The two bucket tables hold only their occupied slots:
    a slot that is absent from the map is one that stores -1. */
module AddrManState {
  import opened Wrappers

  type NetAddr = nat
  type Slot = (int, int)
  type Table = map<Slot, int>

  const NEW_BUCKETS_PER_ADDRESS := 8
  const HORIZON_DAYS := 30
  const RETRIES := 3
  const MAX_FAILURES := 10
  const MIN_FAIL_DAYS := 7
  const GETADDR_MAX_PCT := 23
  const GETADDR_MAX := 2500
  const DAY := 24 * 60 * 60

  datatype Service = Service(ip: NetAddr, port: nat)

  datatype Address = Address(service: Service, services: bv64, time: int)

  datatype AddrInfo = AddrInfo(
    addr: Address, source: NetAddr,
    lastSuccess: int, lastTry: int, attempts: int,
    refCount: int, inTried: bool, randomPos: int)

  /** Bucket counts, and the keyed bucket hashes and routability test the
      manager consults: arbitrary functions, the hashes reduced into range. */
  datatype Hashing = Hashing(
    newBuckets: nat, triedBuckets: nat, bucketSize: nat,
    triedBucket: (nat, Service) -> nat,
    newBucket: (nat, Service, NetAddr) -> nat,
    position: (nat, bool, int, Service) -> nat,
    routable: NetAddr -> bool)

  ghost predicate InRange(c: Hashing) {
    && (forall key, a :: c.triedBucket(key, a) < c.triedBuckets)
    && (forall key, a, source :: c.newBucket(key, a, source) < c.newBuckets)
    && (forall key, isNew, bucket, a :: c.position(key, isNew, bucket, a) < c.bucketSize)
  }

  type Config = c: Hashing | InRange(c)
    ghost witness Hashing(1, 1, 1, (k, a) => 0, (k, a, s) => 0, (k, f, b, a) => 0, a => true)

  type Infos = map<int, AddrInfo>

  datatype State = State(
    key: nat, idCount: int,
    info: Infos, byAddr: map<NetAddr, int>, random: seq<int>,
    triedCount: int, triedTable: Table,
    newCount: int, newTable: Table)

  function TriedSlot(c: Config, key: nat, a: Service): Slot {
    var b := c.triedBucket(key, a);
    (b, c.position(key, false, b, a))
  }

  function NewSlot(c: Config, key: nat, a: Service, bucket: int): Slot {
    (bucket, c.position(key, true, bucket, a))
  }

  predicate IsTerrible(i: AddrInfo, now: int) {
    if i.lastTry != 0 && i.lastTry >= now - 60 then false
    else
      || i.addr.time > now + 10 * 60
      || i.addr.time == 0
      || now - i.addr.time > HORIZON_DAYS * DAY
      || (i.lastSuccess == 0 && i.attempts >= RETRIES)
      || (now - i.lastSuccess > MIN_FAIL_DAYS * DAY && i.attempts >= MAX_FAILURES)
  }

  // ---------------------------------------------------------------- invariant

  function Slots(t: Table, id: int): set<Slot> {
    set k | k in t && t[k] == id
  }

  function TriedIds(info: Infos): set<int> {
    set id | id in info && info[id].inTried
  }

  function NewIds(info: Infos): set<int> {
    set id | id in info && !info[id].inTried
  }

  /** Entries that are in no table at all: they exist only in the middle of an operation. */
  function Limbo(info: Infos): set<int> {
    set id | id in info && !info[id].inTried && info[id].refCount == 0
  }

  ghost predicate IdsOk(info: Infos, idCount: int) {
    idCount >= 0 && forall id <- info :: 0 <= id < idCount
  }

  predicate AtPosition(info: Infos, p: int, id: int) {
    id in info && info[id].randomPos == p
  }

  predicate InOrder(order: seq<int>, p: int, id: int) {
    0 <= p < |order| && order[p] == id
  }

  /** `order` is a permutation of the ids and `randomPos` its inverse. */
  ghost predicate RandomOk(info: Infos, order: seq<int>) {
    && (forall id <- info :: InOrder(order, info[id].randomPos, id))
    && (forall p :: 0 <= p < |order| ==> AtPosition(info, p, order[p]))
  }

  predicate HasAddr(info: Infos, id: int, ip: NetAddr) {
    id in info && info[id].addr.service.ip == ip
  }

  predicate Maps(byAddr: map<NetAddr, int>, ip: NetAddr, id: int) {
    ip in byAddr && byAddr[ip] == id
  }

  /** `byAddr` maps exactly the addresses of the entries to their ids. */
  ghost predicate AddrOk(info: Infos, byAddr: map<NetAddr, int>) {
    && (forall id <- info :: Maps(byAddr, info[id].addr.service.ip, id))
    && (forall ip <- byAddr :: HasAddr(info, byAddr[ip], ip))
  }

  predicate TriedAt(c: Config, key: nat, info: Infos, k: Slot, id: int) {
    id in info && info[id].inTried && k == TriedSlot(c, key, info[id].addr.service)
  }

  predicate Holds(t: Table, k: Slot, id: int) {
    k in t && t[k] == id
  }

  predicate TriedPlaced(c: Config, key: nat, i: AddrInfo, t: Table, id: int) {
    i.inTried ==> i.lastSuccess > 0 && Holds(t, TriedSlot(c, key, i.addr.service), id)
  }

  /** A tried entry has succeeded once and sits in its own slot of the tried table, which holds nothing else. */
  ghost predicate TriedOk(c: Config, key: nat, info: Infos, t: Table) {
    && (forall id <- info :: TriedPlaced(c, key, info[id], t, id))
    && (forall k <- t :: TriedAt(c, key, info, k, t[k]))
  }

  predicate NewAt(c: Config, key: nat, info: Infos, k: Slot, id: int) {
    && 0 <= k.0 < c.newBuckets && id in info && !info[id].inTried
    && k == NewSlot(c, key, info[id].addr.service, k.0)
  }

  /** The new table holds entries that are not tried, each at its hashed position of the bucket. */
  ghost predicate NewOk(c: Config, key: nat, info: Infos, t: Table) {
    forall k <- t :: NewAt(c, key, info, k, t[k])
  }

  /** The reference count of an entry is the number of slots of the new table that hold it. */
  ghost predicate RefsOk(info: Infos, t: Table) {
    forall id <- info :: info[id].refCount == |Slots(t, id)| <= NEW_BUCKETS_PER_ADDRESS
  }

  ghost predicate StatsOk(info: Infos) {
    forall id <- info :: info[id].lastTry >= 0 && info[id].lastSuccess >= 0
  }

  ghost predicate IndexOk(info: Infos, idCount: int, byAddr: map<NetAddr, int>, order: seq<int>) {
    IdsOk(info, idCount) && RandomOk(info, order) && AddrOk(info, byAddr)
  }

  ghost predicate TablesOk(c: Config, key: nat, info: Infos, tried: Table, untried: Table) {
    TriedOk(c, key, info, tried) && NewOk(c, key, info, untried) && RefsOk(info, untried) && StatsOk(info)
  }

  /** What every primitive update keeps, even in the middle of an operation. */
  ghost predicate Core(c: Config, s: State) {
    && s.key != 0
    && IndexOk(s.info, s.idCount, s.byAddr, s.random)
    && TablesOk(c, s.key, s.info, s.triedTable, s.newTable)
    && s.triedCount == |TriedIds(s.info)|
  }

  /** What holds between operations: nothing is in limbo and the count of new entries is exact. */
  ghost predicate Inv(c: Config, s: State) {
    Core(c, s) && Limbo(s.info) == {} && s.newCount == |NewIds(s.info)|
  }

  function Init(key: nat): State {
    State(key, 0, map[], map[], [], 0, map[], 0, map[])
  }

  // ------------------------------------------------------- primitive updates

  function Find(s: State, ip: NetAddr): Option<int> {
    if ip in s.byAddr && s.byAddr[ip] in s.info then Some(s.byAddr[ip]) else None
  }

  function NewInfo(addr: Address, source: NetAddr, pos: int): AddrInfo {
    AddrInfo(addr, source, 0, 0, 0, 0, false, pos)
  }

  function Create(s: State, addr: Address, source: NetAddr): State {
    s.(idCount := s.idCount + 1,
       info := s.info[s.idCount := NewInfo(addr, source, |s.random|)],
       byAddr := s.byAddr[addr.service.ip := s.idCount],
       random := s.random + [s.idCount])
  }

  predicate CanSwap(s: State, p: int, q: int) {
    0 <= p < |s.random| && 0 <= q < |s.random| && s.random[p] in s.info && s.random[q] in s.info
  }

  function SwapRandom(s: State, p: int, q: int): State
    requires p != q ==> CanSwap(s, p, q)
  {
    if p == q then s
    else
      var id1, id2 := s.random[p], s.random[q];
      var info1 := s.info[id1 := s.info[id1].(randomPos := q)];
      s.(info := info1[id2 := info1[id2].(randomPos := p)], random := s.random[p := id2][q := id1])
  }

  predicate CanDelete(s: State, id: int) {
    id in s.info && !s.info[id].inTried && s.info[id].refCount == 0 && |s.random| > 0 &&
    (s.info[id].randomPos != |s.random| - 1 ==> CanSwap(s, s.info[id].randomPos, |s.random| - 1))
  }

  function Delete(s: State, id: int): State
    requires CanDelete(s, id)
  {
    var t := SwapRandom(s, s.info[id].randomPos, |s.random| - 1);
    t.(random := t.random[..|t.random| - 1],
       byAddr := t.byAddr - {s.info[id].addr.service.ip},
       info := t.info - {id},
       newCount := t.newCount - 1)
  }

  function SetInfo(s: State, id: int, i: AddrInfo): State {
    s.(info := s.info[id := i])
  }

  /** Empty an occupied new slot and drop the reference it held. */
  function Unref(s: State, k: Slot): State
    requires k in s.newTable && s.newTable[k] in s.info
  {
    var id := s.newTable[k];
    s.(info := s.info[id := s.info[id].(refCount := s.info[id].refCount - 1)], newTable := s.newTable - {k})
  }

  /** Put an entry into a new slot, taking one more reference. */
  function Ref(s: State, k: Slot, id: int): State
    requires id in s.info
  {
    s.(info := s.info[id := s.info[id].(refCount := s.info[id].refCount + 1)], newTable := s.newTable[k := id])
  }

  function Untry(s: State, k: Slot): State
    requires k in s.triedTable && s.triedTable[k] in s.info
  {
    var id := s.triedTable[k];
    s.(info := s.info[id := s.info[id].(inTried := false)],
       triedTable := s.triedTable - {k}, triedCount := s.triedCount - 1)
  }

  function PlaceTried(s: State, k: Slot, id: int): State
    requires id in s.info
  {
    s.(info := s.info[id := s.info[id].(inTried := true)],
       triedTable := s.triedTable[k := id], triedCount := s.triedCount + 1)
  }
}
