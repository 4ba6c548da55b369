/** Saving the address manager and loading it again (src/addrman.h, Serialize
    and Unserialize). The stream is a sequence of numbers and saved entries. */
module AddrManCodec {
  import opened AddrManState
  import opened AddrManInvariant
  import opened AddrManTables

  const BIT30 := 0x4000_0000

  /** What is written of an entry; the rest is memory only. */
  datatype Saved = Saved(addr: Address, source: NetAddr, lastSuccess: int, attempts: int)

  datatype Token = Num(n: int) | Entry(e: Saved)

  function Save(i: AddrInfo): Saved {
    Saved(i.addr, i.source, i.lastSuccess, i.attempts)
  }

  function Load(e: Saved, pos: int): AddrInfo {
    AddrInfo(e.addr, e.source, e.lastSuccess, 0, e.attempts, 0, false, pos)
  }

  /** Exclusive or with 2^30. */
  function Flip(n: int): int {
    if (n / BIT30) % 2 == 0 then n + BIT30 else n - BIT30
  }

  lemma FlipTwice(n: int)
    ensures Flip(Flip(n)) == n
  {
  }

  // ------------------------------------------------------------- numbering

  /** Serialize tells new entries by their references and tried ones by their flag. */
  predicate Chosen(info: Infos, id: int, tried: bool) {
    id in info && if tried then info[id].inTried else info[id].refCount != 0
  }

  /** The new or the tried entries with ids below `n`, in order. */
  function Listed(info: Infos, n: int, tried: bool): seq<int>
    decreases n
  {
    if n <= 0 then [] else Listed(info, n - 1, tried) + if Chosen(info, n - 1, tried) then [n - 1] else []
  }

  /** All entries in the order they are written. */
  function AllIds(s: State): seq<int> {
    Listed(s.info, s.idCount, false) + Listed(s.info, s.idCount, true)
  }

  /** The id an entry has after loading: its index in the order of writing. */
  function Rename(s: State, id: int): int {
    if Chosen(s.info, id, true) then |Listed(s.info, s.idCount, false)| + |Listed(s.info, id, true)|
    else |Listed(s.info, id, false)|
  }

  lemma {:induction false} ListedMember(info: Infos, n: int, tried: bool, id: int)
    ensures id in Listed(info, n, tried) <==> 0 <= id < n && Chosen(info, id, tried)
  {
    if n > 0 { ListedMember(info, n - 1, tried, id); }
  }

  lemma {:induction false} ListedAt(info: Infos, n: int, tried: bool, id: int)
    requires id in Listed(info, n, tried)
    ensures |Listed(info, id, tried)| < |Listed(info, n, tried)|
    ensures Listed(info, n, tried)[|Listed(info, id, tried)|] == id
  {
    ListedMember(info, n, tried, id);
    if id < n - 1 {
      ListedMember(info, n - 1, tried, id);
      ListedAt(info, n - 1, tried, id);
    }
  }

  lemma {:induction false} ListedIndex(info: Infos, n: int, tried: bool, j: nat)
    requires j < |Listed(info, n, tried)|
    ensures |Listed(info, Listed(info, n, tried)[j], tried)| == j
  {
    if n > 0 && j < |Listed(info, n - 1, tried)| { ListedIndex(info, n - 1, tried, j); }
  }

  function ChosenBelow(info: Infos, n: int, tried: bool): set<int> {
    set id | id in info && 0 <= id < n && Chosen(info, id, tried)
  }

  lemma ChosenNext(info: Infos, n: nat, tried: bool)
    ensures ChosenBelow(info, n + 1, tried) ==
            ChosenBelow(info, n, tried) + if Chosen(info, n, tried) then {n} else {}
    ensures n !in ChosenBelow(info, n, tried)
  {
  }

  lemma {:induction false} ListedSize(info: Infos, n: int, tried: bool)
    ensures |Listed(info, n, tried)| == |ChosenBelow(info, n, tried)|
  {
    if n > 0 {
      ListedSize(info, n - 1, tried);
      ChosenNext(info, n - 1, tried);
      hide ChosenBelow, Chosen;
    } else {
      assert ChosenBelow(info, n, tried) == {};
    }
  }

  /** In a consistent state the two lists are the untried and the tried entries, as many as the counters say. */
  lemma Sizes(c: Config, s: State)
    requires Inv(c, s)
    ensures |Listed(s.info, s.idCount, false)| == s.newCount && |Listed(s.info, s.idCount, true)| == s.triedCount
    ensures forall id <- s.info :: 0 <= id < s.idCount && Chosen(s.info, id, false) == !s.info[id].inTried
  {
    ListedSize(s.info, s.idCount, false);
    ListedSize(s.info, s.idCount, true);
    forall id | id in s.info ensures Chosen(s.info, id, false) == !s.info[id].inTried {
      assert id !in Limbo(s.info);
      if s.info[id].inTried { TriedNotReferenced(c, s.key, s.info, s.newTable, id); }
    }
    assert NewIds(s.info) == ChosenBelow(s.info, s.idCount, false);
    assert TriedIds(s.info) == ChosenBelow(s.info, s.idCount, true);
  }

  /** Renaming is a bijection between the entries and the indices of the order of writing. */
  lemma Bijection(c: Config, s: State)
    requires Inv(c, s)
    ensures |AllIds(s)| == s.newCount + s.triedCount && s.newCount >= 0 && s.triedCount >= 0
    ensures forall id <- s.info :: 0 <= Rename(s, id) < |AllIds(s)| && AllIds(s)[Rename(s, id)] == id
    ensures forall id <- s.info :: Rename(s, id) < s.newCount <==> !s.info[id].inTried
    ensures forall j :: 0 <= j < |AllIds(s)| ==> AllIds(s)[j] in s.info && Rename(s, AllIds(s)[j]) == j
  {
    hide Inv, AllIds, Rename;
    Sizes(c, s);
    forall id | id in s.info
      ensures 0 <= Rename(s, id) < |AllIds(s)| && AllIds(s)[Rename(s, id)] == id
      ensures Rename(s, id) < s.newCount <==> !s.info[id].inTried
    {
      RenameId(c, s, id);
    }
    AllSize(s);
    forall j | 0 <= j < |AllIds(s)| ensures AllIds(s)[j] in s.info && Rename(s, AllIds(s)[j]) == j {
      RenameNth(c, s, j);
    }
  }

  lemma AllSize(s: State)
    ensures |AllIds(s)| == |Listed(s.info, s.idCount, false)| + |Listed(s.info, s.idCount, true)|
  {
  }

  lemma RenameId(c: Config, s: State, id: int)
    requires Inv(c, s) && id in s.info
    ensures 0 <= Rename(s, id) < |AllIds(s)| && AllIds(s)[Rename(s, id)] == id
    ensures Rename(s, id) < s.newCount <==> !s.info[id].inTried
  {
    hide Inv, Listed;
    Sizes(c, s);
    ListedMember(s.info, s.idCount, s.info[id].inTried, id);
    ListedAt(s.info, s.idCount, s.info[id].inTried, id);
  }

  lemma RenameNth(c: Config, s: State, j: int)
    requires Inv(c, s) && 0 <= j < |AllIds(s)|
    ensures AllIds(s)[j] in s.info && Rename(s, AllIds(s)[j]) == j
  {
    hide Inv, Listed;
    Sizes(c, s);
    var tried := j >= s.newCount;
    ListedMember(s.info, s.idCount, tried, AllIds(s)[j]);
    ListedIndex(s.info, s.idCount, tried, if tried then j - s.newCount else j);
  }

  // ---------------------------------------------------------------- writing

  function Entries(info: Infos, ids: seq<int>): seq<Token>
    requires forall k :: 0 <= k < |ids| ==> ids[k] in info
  {
    seq(|ids|, k requires 0 <= k < |ids| => Entry(Save(info[ids[k]])))
  }

  /** The occupied positions below `p` of a bucket, in order. */
  function Row(t: Table, b: int, p: int): seq<int>
    decreases p
  {
    if p <= 0 then [] else Row(t, b, p - 1) + if (b, p - 1) in t then [p - 1] else []
  }

  lemma {:induction false} RowMember(t: Table, b: int, p: int, q: int)
    ensures q in Row(t, b, p) <==> 0 <= q < p && (b, q) in t
  {
    if p > 0 { RowMember(t, b, p - 1, q); }
  }

  lemma {:induction false} RowDistinct(t: Table, b: int, p: int, i: nat)
    requires i < |Row(t, b, p)|
    ensures Row(t, b, p)[i] in Row(t, b, p) && Row(t, b, p)[i] !in Row(t, b, p)[..i]
  {
    if p > 0 {
      var front := Row(t, b, p - 1);
      if i < |front| {
        RowDistinct(t, b, p - 1, i);
        assert Row(t, b, p)[..i] == front[..i];
      } else {
        RowMember(t, b, p - 1, p - 1);
        assert Row(t, b, p)[..i] == front;
      }
    }
  }

  /** The indices written for the positions below `p` of a bucket. */
  function Indices(s: State, b: int, p: int): seq<Token>
    decreases p
  {
    if p <= 0 then []
    else Indices(s, b, p - 1) + if (b, p - 1) in s.newTable then [Num(Rename(s, s.newTable[(b, p - 1)]))] else []
  }

  lemma {:induction false} IndicesAt(s: State, b: int, p: int)
    ensures |Indices(s, b, p)| == |Row(s.newTable, b, p)|
    ensures forall k :: 0 <= k < |Row(s.newTable, b, p)| ==>
              var slot := (b, Row(s.newTable, b, p)[k]);
              slot in s.newTable && Indices(s, b, p)[k] == Num(Rename(s, s.newTable[slot]))
  {
    if p > 0 { IndicesAt(s, b, p - 1); }
  }

  function Bucket(c: Config, s: State, b: int): seq<Token> {
    [Num(|Row(s.newTable, b, c.bucketSize)|)] + Indices(s, b, c.bucketSize)
  }

  function Buckets(c: Config, s: State, b: int): seq<Token>
    decreases b
  {
    if b <= 0 then [] else Buckets(c, s, b - 1) + Bucket(c, s, b - 1)
  }

  function Header(c: Config, s: State): seq<Token> {
    [Num(1), Num(32), Num(s.key), Num(s.newCount), Num(s.triedCount), Num(Flip(c.newBuckets))]
  }

  function Serialized(c: Config, s: State): seq<Token>
    requires Inv(c, s)
  {
    Bijection(c, s);
    Header(c, s) + Entries(s.info, AllIds(s)) + Buckets(c, s, c.newBuckets)
  }

  lemma EntriesAppend(info: Infos, ids: seq<int>, id: int)
    requires (forall k :: 0 <= k < |ids| ==> ids[k] in info) && id in info
    ensures Entries(info, ids + [id]) == Entries(info, ids) + [Entry(Save(info[id]))]
  {
  }

  lemma EntriesConcat(info: Infos, a: seq<int>, b: seq<int>)
    requires (forall k :: 0 <= k < |a| ==> a[k] in info) && (forall k :: 0 <= k < |b| ==> b[k] in info)
    ensures Entries(info, a + b) == Entries(info, a) + Entries(info, b)
  {
  }

  lemma ListedIn(info: Infos, n: int, tried: bool)
    ensures forall k :: 0 <= k < |Listed(info, n, tried)| ==> Listed(info, n, tried)[k] in info
  {
    forall k | 0 <= k < |Listed(info, n, tried)| ensures Listed(info, n, tried)[k] in info {
      ListedMember(info, n, tried, Listed(info, n, tried)[k]);
    }
  }

  method WriteEntries(info: Infos, idCount: int, tried: bool) returns (ts: seq<Token>, ranks: map<int, int>)
    ensures forall k :: 0 <= k < |Listed(info, idCount, tried)| ==> Listed(info, idCount, tried)[k] in info
    ensures ts == Entries(info, Listed(info, idCount, tried))
    ensures forall id <- info :: 0 <= id < idCount ==> id in ranks && ranks[id] == |Listed(info, id, tried)|
  {
    ts, ranks := [], map[];
    ListedIn(info, 0, tried);
    var id := 0;
    while id < idCount
      invariant 0 <= id && (id <= idCount || id == 0)
      invariant forall k :: 0 <= k < |Listed(info, id, tried)| ==> Listed(info, id, tried)[k] in info
      invariant ts == Entries(info, Listed(info, id, tried)) && |ts| == |Listed(info, id, tried)|
      invariant forall j <- info :: 0 <= j < id ==> j in ranks && ranks[j] == |Listed(info, j, tried)|
    {
      if id in info {
        ranks := ranks[id := |ts|];
        if Chosen(info, id, tried) {
          EntriesAppend(info, Listed(info, id, tried), id);
          ts := ts + [Entry(Save(info[id]))];
        }
      }
      ListedIn(info, id + 1, tried);
      id := id + 1;
    }
  }

  lemma NewRank(c: Config, s: State, k: Slot)
    requires Inv(c, s) && k in s.newTable
    ensures s.newTable[k] in s.info && 0 <= s.newTable[k] < s.idCount
    ensures Rename(s, s.newTable[k]) == |Listed(s.info, s.newTable[k], false)|
  {
    assert NewAt(c, s.key, s.info, k, s.newTable[k]);
  }

  method CountBucket(m: AddrManager, b: int) returns (size: nat)
    requires m.Shaped() && 0 <= b < m.c.newBuckets
    ensures size == |Row(TableOf(m.newTable), b, m.c.bucketSize)|
  {
    hide TableOf;
    size := 0;
    for p := 0 to m.c.bucketSize
      invariant size == |Row(TableOf(m.newTable), b, p)|
    {
      Cell(m.newTable, b, p);
      if m.newTable[b, p] != -1 { size := size + 1; }
    }
  }

  method WriteRow(m: AddrManager, ranks: map<int, int>, b: int) returns (ts: seq<Token>)
    requires m.Valid() && 0 <= b < m.c.newBuckets
    requires forall id <- m.info :: 0 <= id < m.idCount ==> id in ranks && ranks[id] == |Listed(m.info, id, false)|
    ensures ts == Indices(m.Model(), b, m.c.bucketSize)
  {
    hide Inv, TableOf, Rename, Listed;
    ghost var s := m.Model();
    ts := [];
    for p := 0 to m.c.bucketSize
      invariant ts == Indices(s, b, p)
    {
      Cell(m.newTable, b, p);
      if m.newTable[b, p] != -1 {
        NewRank(m.c, s, (b, p));
        ts := ts + [Num(ranks[m.newTable[b, p]])];
      }
    }
  }

  method Serialize(m: AddrManager) returns (ts: seq<Token>)
    requires m.Valid()
    ensures ts == Serialized(m.c, m.Model())
  {
    ghost var s := m.Model();
    Bijection(m.c, s);
    hide Inv, TableOf, Rename, Listed, Flip, Indices, Row;
    var entries, ranks := WriteEntries(m.info, m.idCount, false);
    var triedEntries, _ := WriteEntries(m.info, m.idCount, true);
    EntriesConcat(m.info, Listed(m.info, m.idCount, false), Listed(m.info, m.idCount, true));
    var buckets := [];
    for b := 0 to m.c.newBuckets
      invariant buckets == Buckets(m.c, s, b)
    {
      var size := CountBucket(m, b);
      var row := WriteRow(m, ranks, b);
      buckets := buckets + ([Num(size)] + row);
    }
    ts := [Num(1), Num(32), Num(m.key), Num(m.newCount), Num(m.triedCount), Num(Flip(m.c.newBuckets))]
          + (entries + triedEntries) + buckets;
  }
}
