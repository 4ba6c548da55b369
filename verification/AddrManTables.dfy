/** The address manager as it runs: maps and a vector that are reassigned, and
    two fixed tables of slots that are overwritten in place, -1 marking an
    empty slot (src/addrman.h, src/addrman.cpp). Every method is proved to
    compute the operation of AddrManOps and AddrManRuns on the state its
    fields stand for. */
module AddrManTables {
  import opened AddrManState
  import opened AddrManInvariant
  import Ops = AddrManOps
  import Runs = AddrManRuns
  import opened Numbers

  ghost function TableOf(a: array2<int>): Table
    reads a
  {
    map b, p | 0 <= b < a.Length0 && 0 <= p < a.Length1 && a[b, p] != -1 :: (b, p) := a[b, p]
  }

  ghost predicate InBounds(a: array2<int>, k: Slot) {
    0 <= k.0 < a.Length0 && 0 <= k.1 < a.Length1
  }

  method Store(a: array2<int>, b: int, p: int, id: int)
    requires InBounds(a, (b, p)) && id != -1
    modifies a
    ensures TableOf(a) == old(TableOf(a))[(b, p) := id]
  {
    a[b, p] := id;
  }

  method Erase(a: array2<int>, b: int, p: int)
    requires InBounds(a, (b, p))
    modifies a
    ensures TableOf(a) == old(TableOf(a)) - {(b, p)}
  {
    a[b, p] := -1;
  }

  class AddrManager {
    const c: Config
    var key: nat
    var idCount: int
    var info: Infos
    var byAddr: map<NetAddr, int>
    var random: seq<int>
    var triedCount: int
    const triedTable: array2<int>
    var newCount: int
    const newTable: array2<int>

    ghost predicate Shaped() {
      && triedTable != newTable
      && newTable.Length0 == c.newBuckets && newTable.Length1 == c.bucketSize
      && triedTable.Length0 == c.triedBuckets && triedTable.Length1 == c.bucketSize
    }

    ghost function Model(): State
      reads this, triedTable, newTable
    {
      State(key, idCount, info, byAddr, random, triedCount, TableOf(triedTable), newCount, TableOf(newTable))
    }

    ghost predicate Valid()
      reads this, triedTable, newTable
    {
      Shaped() && Inv(c, Model())
    }

    constructor (c: Config, key: nat)
      requires key != 0
      ensures Valid() && Model() == Init(key) && this.c == c && fresh(triedTable) && fresh(newTable)
    {
      this.c := c;
      this.key, idCount, info, byAddr, random, triedCount, newCount := key, 0, map[], map[], [], 0, 0;
      triedTable := new int[c.triedBuckets, c.bucketSize]((b, p) => -1);
      newTable := new int[c.newBuckets, c.bucketSize]((b, p) => -1);
      new;
      assert TableOf(triedTable) == map[] && TableOf(newTable) == map[];
      Runs.InitKeeps(c, key);
    }

    method Create(addr: Address, source: NetAddr) returns (id: int)
      modifies this
      ensures id == old(idCount) && Model() == AddrManState.Create(old(Model()), addr, source)
    {
      id := idCount;
      idCount := idCount + 1;
      info := info[id := NewInfo(addr, source, -1)];
      byAddr := byAddr[addr.service.ip := id];
      info := info[id := info[id].(randomPos := |random|)];
      random := random + [id];
    }

    method SwapRandom(p: int, q: int)
      requires p != q ==> CanSwap(Model(), p, q)
      modifies this
      ensures Model() == AddrManState.SwapRandom(old(Model()), p, q)
    {
      if p == q { return; }
      var id1, id2 := random[p], random[q];
      info := info[id1 := info[id1].(randomPos := q)];
      info := info[id2 := info[id2].(randomPos := p)];
      random := random[p := id2];
      random := random[q := id1];
    }

    method Delete(id: int)
      requires CanDelete(Model(), id)
      modifies this
      ensures Model() == AddrManState.Delete(old(Model()), id)
    {
      var ip := info[id].addr.service.ip;
      SwapRandom(info[id].randomPos, |random| - 1);
      random := random[..|random| - 1];
      byAddr := byAddr - {ip};
      info := info - {id};
      newCount := newCount - 1;
    }

    method ClearNew(b: int, p: int)
      requires Shaped() && Core(c, Model()) && InBounds(newTable, (b, p))
      modifies this, newTable
      ensures Model() == Ops.ClearNew(c, old(Model()), (b, p))
    {
      hide Core, TableOf, NewIds, TriedIds, Limbo;
      Cell(newTable, b, p);
      var id := newTable[b, p];
      if id != -1 {
        UnrefKeeps(c, Model(), (b, p));
        assert info[id].refCount > 0;
        info := info[id := info[id].(refCount := info[id].refCount - 1)];
        Erase(newTable, b, p);
        assert Model() == Unref(old(Model()), (b, p));
        if info[id].refCount == 0 {
          DeleteKeeps(c, Model(), id);
          Delete(id);
        }
      }
    }

    method MakeTried(id: int)
      requires Valid() && id in NewIds(info) && info[id].lastSuccess > 0
      modifies this, newTable, triedTable
      ensures Valid() && Model() == Ops.MakeTried(c, old(Model()), id)
    {
      hide Core, TableOf, Ops.Withdraw, Ops.Evict, Limbo, TriedIds;
      ghost var s := Model();
      Ops.WithdrawKeeps(c, s, id);
      Ops.EvictionKeeps(c, s, id);
      Runs.MakeTriedKeeps(c, s, id);
      RemoveFromNew(id);
      assert info[id].refCount == 0;
      var service := info[id].addr.service;
      var bucket := c.triedBucket(key, service);
      var pos := c.position(key, false, bucket, service);
      Cell(triedTable, bucket, pos);
      if triedTable[bucket, pos] != -1 {
        Evict(bucket, pos);
      }
      Cell(triedTable, bucket, pos);
      assert triedTable[bucket, pos] == -1;
      PlaceInTried(id, bucket, pos);
    }

    method PlaceInTried(id: int, bucket: int, pos: int)
      requires Core(c, Model()) && id in info && InBounds(triedTable, (bucket, pos)) && triedTable != newTable
      modifies this, triedTable
      ensures Model() == PlaceTried(old(Model()), (bucket, pos), id)
    {
      IdsInRange(c, Model(), id);
      hide Core, TableOf;
      Store(triedTable, bucket, pos, id);
      triedCount := triedCount + 1;
      info := info[id := info[id].(inTried := true)];
    }

    method RemoveFromNew(id: int)
      requires Shaped() && id in info && Core(c, Model())
      modifies this, newTable
      ensures Model() == Ops.Withdraw(c, old(Model()), id)
    {
      hide TableOf, Core, Ops.DetachAt;
      IdsInRange(c, Model(), id);
      for bucket := 0 to c.newBuckets
        invariant Model() == Ops.Detach(c, old(Model()), id, bucket)
      {
        RemoveFromBucket(id, bucket);
      }
      newCount := newCount - 1;
    }

    method RemoveFromBucket(id: int, bucket: int)
      requires Shaped() && id in info && id >= 0 && 0 <= bucket < c.newBuckets
      modifies this, newTable
      ensures Model() == Ops.DetachAt(c, old(Model()), id, bucket)
    {
      hide TableOf;
      var pos := c.position(key, true, bucket, info[id].addr.service);
      Cell(newTable, bucket, pos);
      if newTable[bucket, pos] == id {
        Erase(newTable, bucket, pos);
        info := info[id := info[id].(refCount := info[id].refCount - 1)];
      }
    }

    /** The tried entry in this slot is moved to the new table, displacing what is there. */
    method Evict(bucket: int, pos: int)
      requires Shaped() && Core(c, Model()) && InBounds(triedTable, (bucket, pos)) && triedTable[bucket, pos] != -1
      modifies this, newTable, triedTable
      ensures Model() == Ops.Evict(c, old(Model()), (bucket, pos))
    {
      hide Core, TableOf, Ops.ClearNew, NewIds, TriedIds, Limbo;
      ghost var s := Model();
      Cell(triedTable, bucket, pos);
      var id := triedTable[bucket, pos];
      UntryKeeps(c, s, (bucket, pos));
      Ops.EvictedStays(c, s, (bucket, pos));
      IdsInRange(c, s, id);
      info := info[id := info[id].(inTried := false)];
      Erase(triedTable, bucket, pos);
      triedCount := triedCount - 1;
      assert Model() == Untry(s, (bucket, pos));
      var b := c.newBucket(key, info[id].addr.service, info[id].source);
      var p := c.position(key, true, b, info[id].addr.service);
      ClearNew(b, p);
      assert info[id].refCount == 0;
      info := info[id := info[id].(refCount := 1)];
      Store(newTable, b, p, id);
      newCount := newCount + 1;
    }

    /** `start` is where the random scan of the new buckets begins. */
    method Good(addr: Service, time: int, start: nat)
      requires Valid() && time > 0
      modifies this, newTable, triedTable
      ensures Valid() && Model() == Runs.Good(c, old(Model()), addr, time)
    {
      hide Core, TableOf, Limbo, Ops.MakeTried;
      ghost var s := Model();
      Runs.Lookup(c, s, addr.ip);
      if addr.ip !in byAddr || byAddr[addr.ip] !in info { return; }
      var id := byAddr[addr.ip];
      if info[id].addr.service != addr { return; }
      Runs.SucceededKeeps(c, s, id, time);
      info := info[id := info[id].(lastSuccess := time, lastTry := time, attempts := 0)];
      assert Model() == SetInfo(s, id, Runs.Succeeded(s.info[id], time));
      if info[id].inTried { return; }
      IdsInRange(c, Model(), id);
      var found := Scan(id, start);
      if !found { return; }
      MakeTried(id);
    }

    method Scan(id: int, start: nat) returns (found: bool)
      requires Shaped() && id in info && id >= 0
      ensures found <==> Runs.InSomeBucket(c, Model(), id)
    {
      hide TableOf;
      found := false;
      var n := 0;
      while n < c.newBuckets
        invariant 0 <= n <= c.newBuckets
        invariant forall i :: 0 <= i < n ==>
          !Holds(TableOf(newTable), NewSlot(c, key, info[id].addr.service, Wrapped(start, i, c.newBuckets)), id)
      {
        var b := Wrapped(start, n, c.newBuckets);
        var p := c.position(key, true, b, info[id].addr.service);
        Cell(newTable, b, p);
        if newTable[b, p] == id {
          assert Holds(Model().newTable, NewSlot(c, key, info[id].addr.service, b), id);
          return true;
        }
        n := n + 1;
      }
      forall b | 0 <= b < c.newBuckets
        ensures !Holds(TableOf(newTable), NewSlot(c, key, info[id].addr.service, b), id)
      {
        var i := Unwrapped(start, b, c.newBuckets);
        assert Wrapped(start, i, c.newBuckets) == b;
      }
    }

    /** `rnd` is the draw that decides whether a known entry gets one more reference. */
    method Add(addr: Address, source: NetAddr, penalty: int, now: int, rnd: int) returns (added: bool)
      requires Valid()
      modifies this, newTable
      ensures Valid() && (Model(), added) == Runs.Add(c, old(Model()), addr, source, penalty, now, rnd)
    {
      hide Core, NewIds, TriedIds, Limbo, TableOf, IsTerrible, Runs.Insert, Runs.Refreshed, Runs.Announced;
      ghost var s := Model();
      assert Inv(c, Runs.Add(c, s, addr, source, penalty, now, rnd).0) by {
        Runs.AddKeeps(c, s, addr, source, penalty, now, rnd);
      }
      var ip := addr.service.ip;
      if !c.routable(ip) { return false; }
      Runs.Lookup(c, s, ip);
      if ip in byAddr && byAddr[ip] in info {
        var id := byAddr[ip];
        added := false;
        Runs.RefreshedKeeps(c, s, id, addr, penalty, now);
        var declined := Refresh(id, addr, penalty, now, rnd);
        if declined { return; }
        Place(id, source, now);
      } else {
        added := true;
        Runs.AnnouncedKeeps(c, s, addr, source, penalty);
        var id := Announce(addr, source, penalty);
        Place(id, source, now);
      }
    }

    /** A known address is announced again: its time is brought forward, its services are added, and it may get one more
        reference. */
    method Refresh(id: int, addr: Address, penalty: int, now: int, rnd: int) returns (declined: bool)
      requires id in info
      modifies this
      ensures Model() == SetInfo(old(Model()), id, Runs.Refreshed(old(info[id]), addr, penalty, now))
      ensures declined == Runs.Declines(Model().info[id], addr, rnd)
    {
      hide TableOf, Runs.Refreshed, Runs.Declines;
      var i := Updated(info[id], addr, penalty, now);
      info := info[id := i];
      declined := Declined(info[id], addr, rnd);
    }

    static method Updated(known: AddrInfo, addr: Address, penalty: int, now: int) returns (i: AddrInfo)
      ensures i == Runs.Refreshed(known, addr, penalty, now)
    {
      hide Runs.RefreshedTime;
      var time := UpdatedTime(known.addr.time, addr.time, penalty, now);
      i := known.(addr := known.addr.(time := time, services := known.addr.services | addr.services));
    }

    static method UpdatedTime(known: int, announced: int, penalty: int, now: int) returns (time: int)
      ensures time == Runs.RefreshedTime(known, announced, penalty, now)
    {
      time := known;
      var online := now - announced < DAY;
      var interval := if online then 60 * 60 else DAY;
      if announced != 0 && (time == 0 || time < announced - interval - penalty) {
        time := Max(0, announced - penalty) % Ops.U32;
      }
    }

    /** The early returns for a known entry: nothing new, already tried, all references taken, or the draw, which every
        reference makes twice as hard. */
    static method Declined(i: AddrInfo, addr: Address, rnd: int) returns (declined: bool)
      ensures declined == Runs.Declines(i, addr, rnd)
    {
      if addr.time == 0 || (i.addr.time != 0 && addr.time <= i.addr.time) { return true; }
      if i.inTried { return true; }
      if i.refCount == NEW_BUCKETS_PER_ADDRESS { return true; }
      var factor, n := 1, 0;
      while n < i.refCount
        invariant 0 <= n && (n == 0 || n <= i.refCount) && factor == Runs.Factor(n)
      {
        factor := factor * 2;
        n := n + 1;
      }
      declined := factor > 1 && rnd != 0;
    }

    method Announce(addr: Address, source: NetAddr, penalty: int) returns (id: int)
      modifies this
      ensures id == old(idCount) && Model() == Runs.Announced(old(Model()), addr, source, penalty)
    {
      hide TableOf;
      id := Create(addr.(time := Max(0, addr.time - penalty) % Ops.U32), source);
      newCount := newCount + 1;
    }

    /** Give an entry a reference from the bucket its address and source select, or drop it if it has none at all. */
    method Place(id: int, source: NetAddr, now: int)
      requires Shaped() && Core(c, Model()) && id in info && !info[id].inTried
      modifies this, newTable
      ensures Shaped() && Model() == Runs.Insert(c, old(Model()), id, source, now)
    {
      hide Core, NewIds, TriedIds, TableOf, IsTerrible, Ops.ClearNew, AddrManState.Delete;
      ghost var s := Model();
      IdsInRange(c, s, id);
      var b := c.newBucket(key, info[id].addr.service, source);
      var p := c.position(key, true, b, info[id].addr.service);
      Cell(newTable, b, p);
      Runs.SlotEntry(c, s, (b, p));
      if newTable[b, p] != id {
        var insert := newTable[b, p] == -1;
        if !insert {
          var existing := info[newTable[b, p]];
          if IsTerrible(existing, now) || (existing.refCount > 1 && info[id].refCount == 0) {
            insert := true;
          }
        }
        if insert {
          Runs.StaysWhenCleared(c, s, (b, p), id);
          ClearNew(b, p);
          info := info[id := info[id].(refCount := info[id].refCount + 1)];
          Store(newTable, b, p, id);
        } else if info[id].refCount == 0 {
          DeleteKeeps(c, s, id);
          Delete(id);
        }
      }
    }

    method Attempt(addr: Service, time: int)
      requires Valid() && time >= 0
      modifies this
      ensures Valid() && Model() == Runs.Attempt(old(Model()), addr, time)
    {
      hide Core, TableOf;
      Runs.ApplyKeeps(c, Model(), Runs.AttemptOp(addr, time));
      if addr.ip !in byAddr || byAddr[addr.ip] !in info { return; }
      var id := byAddr[addr.ip];
      if info[id].addr.service != addr { return; }
      info := info[id := info[id].(lastTry := time, attempts := info[id].attempts + 1)];
    }

    method Connected(addr: Service, time: int)
      requires Valid()
      modifies this
      ensures Valid() && Model() == Runs.Connected(old(Model()), addr, time)
    {
      hide Core, TableOf;
      Runs.ApplyKeeps(c, Model(), Runs.ConnectedOp(addr, time));
      if addr.ip !in byAddr || byAddr[addr.ip] !in info { return; }
      var id := byAddr[addr.ip];
      if info[id].addr.service != addr { return; }
      if time - info[id].addr.time > 20 * 60 {
        info := info[id := info[id].(addr := info[id].addr.(time := time % Ops.U32))];
      } else {
        assert info[id := info[id]] == info;
      }
    }

    method GetAddr(now: int, rnd: nat -> nat) returns (ids: seq<int>)
      requires Valid()
      modifies this
      ensures Valid() && (Model(), ids) == Runs.GetAddr(c, old(Model()), now, rnd)
    {
      hide Core, NewIds, TriedIds, Limbo, TableOf, IsTerrible, SameButPosition, AddrManState.SwapRandom, Runs.Draw;
      ghost var s := Model();
      var limit := Runs.AddrLimit(|random|);
      ids := [];
      var n := 0;
      while n < |random| && |ids| < limit
        invariant n <= |random| == |s.random| && Inv(c, Model())
        invariant Runs.Gather(c, Model(), n, ids, limit, now, rnd) == Runs.Gather(c, s, 0, [], limit, now, rnd)
      {
        var p := Runs.Draw(rnd(n), n, |random|);
        ghost var m := Model();
        SwapKeeps(c, m, n, p);
        SwapRandom(n, p);
        Runs.IdAt(c, Model(), n);
        var id := random[n];
        if !IsTerrible(info[id], now) { ids := ids + [id]; }
        n := n + 1;
      }
    }
  }

  function Wrapped(start: nat, n: nat, size: nat): (b: nat)
    requires size > 0
    ensures b < size && b == Rem(n + start, size)
  {
    QuoIs(n + start, size);
    (n + start) % size
  }

  /** The step at which a scan that wraps around reaches bucket `b`. */
  lemma Unwrapped(start: nat, b: nat, size: nat) returns (n: nat)
    requires b < size
    ensures n < size && Wrapped(start, n, size) == b
  {
    hide Mul, Quo, Rem, Wrapped;
    QuoRem(start, size);
    var q, r := Quo(start, size), Rem(start, size);
    n := if b >= r then b - r else b + size - r;
    MulPlus(size, q, 1);
    MulUnit(size);
    QuoRemUnique(n + start, size, if b >= r then q else q + 1, b);
  }

  lemma IdsInRange(c: Config, s: State, id: int)
    requires Core(c, s) && id in s.info
    ensures id >= 0
  {
  }

  lemma Cell(a: array2<int>, b: int, p: int)
    requires InBounds(a, (b, p))
    ensures (b, p) in TableOf(a) <==> a[b, p] != -1
    ensures (b, p) in TableOf(a) ==> TableOf(a)[(b, p)] == a[b, p]
  {
  }
}
