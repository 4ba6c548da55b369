/** Over any run, a stack of coin caches behaves like one plain map per view
    (src/coins.cpp). A parent is not modified or flushed while a cache above it
    holds entries. */
module CoinsRuns {
  import opened Wrappers
  import opened Coins
  import opened CoinsCache

  /** The reference: one plain map for every view. */
  type Views = seq<Plain>

  datatype Op =
    | FetchOp(view: nat, id: Txid)
    | ModifyOp(view: nat, id: Txid, edit: Coins -> Coins)
    | FlushOp(view: nat)
    | PushOp
    | PopOp

  ghost predicate Allowed(s: Stack, op: Op) {
    match op
    case FetchOp(k, _) => k <= |s.caches|
    case ModifyOp(k, _, _) => 0 < k <= |s.caches| && Quiet(s, k)
    case FlushOp(k) => 0 < k <= |s.caches| && Quiet(s, k)
    case PushOp => true
    case PopOp => |s.caches| > 0
  }

  ghost function Apply(s: Stack, op: Op): Stack
    requires Allowed(s, op)
  {
    match op
    case FetchOp(k, id) => Fetch(s, k, id)
    case ModifyOp(k, id, edit) => Modify(s, k, id, edit)
    case FlushOp(k) => Flush(s, k)
    case PushOp => s.(caches := s.caches + [Cache(map[], 0)])
    case PopOp => s.(caches := s.caches[..|s.caches| - 1])
  }

  /** The record an edit of a plain map may start from: the one it has, or one with nothing in it. */
  predicate MayOpen(m: Plain, id: Txid, c: Coins) {
    if id in m then c == m[id] else IsPruned(c)
  }

  /** What each operation does to plain maps. */
  ghost predicate PlainStep(v: Views, op: Op, w: Views) {
    match op
    case FetchOp(_, _) => w == v
    case ModifyOp(k, id, edit) =>
      && k < |v| == |w| && w[..k] == v[..k]
      && exists c :: MayOpen(v[k], id, c) && forall j :: k <= j < |w| ==> w[j] == Put(v[k], id, Cleanup(edit(c)))
    case FlushOp(k) =>
      && 0 < k < |v| == |w| && w[..k - 1] == v[..k - 1]
      && forall j :: k - 1 <= j < |w| ==> w[j] == v[k]
    case PushOp => |v| > 0 && w == v + [v[|v| - 1]]
    case PopOp => |v| > 0 && w == v[..|v| - 1]
  }

  predicate Shows(o: Option<Coins>, m: Plain, id: Txid) {
    if id in m then o == Some(m[id]) && !IsPruned(m[id]) else Empty(o)
  }

  ghost predicate Refines(s: Stack, v: Views) {
    |v| == |s.caches| + 1 && forall j, x :: 0 <= j <= |s.caches| ==> Shows(Look(s, j, x), v[j], x)
  }

  /** Asking a view: GetCoins gives the live record if there is one, and HaveCoins answers whether there is. */
  lemma Answers(s: Stack, v: Views, k: nat, id: Txid)
    requires StackOk(s) && Refines(s, v) && k <= |s.caches|
    ensures var o := Look(Fetch(s, k, id), k, id);
      && (id in v[k] ==> o == Some(v[k][id]))
      && (id in v[k] <==> o.Some? && o.value.vout != [])
  {
    FetchKeeps(s, k, id);
    LookTidy(s, k, id);
    assert Shows(Look(s, k, id), v[k], id);
  }

  // ------------------------------------------------------------ step by step

  lemma FetchRefines(s: Stack, v: Views, k: nat, id: Txid)
    requires StackOk(s) && Refines(s, v) && k <= |s.caches|
    ensures StackOk(Fetch(s, k, id)) && Refines(Fetch(s, k, id), v)
  {
    hide StackOk, Shows, Look, Fetch;
    FetchKeeps(s, k, id);
  }

  ghost function Spread(v: Views, k: nat, m: Plain): Views
    requires k <= |v|
  {
    v[..k] + seq(|v| - k, _ => m)
  }

  lemma ModifyRefines(s: Stack, v: Views, k: nat, id: Txid, edit: Coins -> Coins)
    requires StackOk(s) && Refines(s, v) && 0 < k <= |s.caches| && Quiet(s, k)
    ensures var t := Modify(s, k, id, edit); var c := Current(s, k, id);
      && MayOpen(v[k], id, c)
      && StackOk(t) && Refines(t, Spread(v, k, Put(v[k], id, Cleanup(edit(c)))))
  {
    hide StackOk, Look, Modify, Cleanup, AllNull, Quiet;
    ModifyKeeps(s, k, id, edit);
    assert Shows(Look(s, k, id), v[k], id);
    assert IsPruned(CLEARED) by { ClearedIsPruned(); }
    var t, c := Modify(s, k, id, edit), Current(s, k, id);
    var w := Spread(v, k, Put(v[k], id, Cleanup(edit(c))));
    forall j, x | 0 <= j <= |t.caches| ensures Shows(Look(t, j, x), w[j], x) {
      assert Shows(Look(s, j, x), v[j], x) && Shows(Look(s, k, x), v[k], x);
    }
  }

  lemma ClearedIsPruned()
    ensures IsPruned(CLEARED)
  {
  }

  lemma FlushRefines(s: Stack, v: Views, k: nat)
    requires StackOk(s) && Refines(s, v) && 0 < k <= |s.caches| && Quiet(s, k)
    ensures StackOk(Flush(s, k)) && Refines(Flush(s, k), Spread(v, k - 1, v[k]))
  {
    hide StackOk, Look, Flush, AllNull, Quiet;
    FlushKeeps(s, k);
    var t, w := Flush(s, k), Spread(v, k - 1, v[k]);
    forall j, x | 0 <= j <= |t.caches| ensures Shows(Look(t, j, x), w[j], x) {
      assert Shows(Look(s, j, x), v[j], x) && Shows(Look(s, k, x), v[k], x);
      if j >= k - 1 { assert Agree(Look(t, j, x), Look(s, k, x)); }
    }
  }

  lemma PushPopRefines(s: Stack, v: Views)
    requires StackOk(s) && Refines(s, v)
    ensures StackOk(Apply(s, PushOp)) && Refines(Apply(s, PushOp), v + [v[|v| - 1]])
    ensures |s.caches| > 0 ==> StackOk(Apply(s, PopOp)) && Refines(Apply(s, PopOp), v[..|v| - 1])
  {
    hide AllNull, Tidy;
    var n := |s.caches|;
    var t := Apply(s, PushOp);
    forall j: nat, x | j <= n ensures Look(t, j, x) == Look(s, j, x) { LookFrame(s, t, j, x); }
    var w := v + [v[|v| - 1]];
    forall j, x | 0 <= j <= n + 1 ensures Shows(Look(t, j, x), w[j], x) {
      if j > n { assert Look(t, j, x) == Look(t, n, x) && Shows(Look(s, n, x), v[n], x); }
      else { assert Shows(Look(s, j, x), v[j], x); }
    }
    forall j: nat | j < n + 1 ensures CacheOk(t, j) { if j < n { UntouchedOk(s, t, j); } }
    if n > 0 {
      var u := Apply(s, PopOp);
      forall j: nat, x | j < n ensures Shows(Look(u, j, x), v[..n][j], x) {
        LookFrame(s, u, j, x);
        assert Shows(Look(s, j, x), v[j], x);
      }
      forall j: nat | j < n - 1 ensures CacheOk(u, j) { UntouchedOk(s, u, j); }
    }
  }

  lemma StepRefines(s: Stack, v: Views, op: Op) returns (w: Views)
    requires StackOk(s) && Refines(s, v) && Allowed(s, op)
    ensures PlainStep(v, op, w) && StackOk(Apply(s, op)) && Refines(Apply(s, op), w)
  {
    hide StackOk, Refines, Fetch, Modify, Flush, Look, Quiet, AllNull, Cleanup;
    SizeOf(s, v);
    match op
    case FetchOp(k, id) =>
      w := v;
      FetchRefines(s, v, k, id);
    case ModifyOp(k, id, edit) =>
      ModifyRefines(s, v, k, id, edit);
      var c := Current(s, k, id);
      w := Spread(v, k, Put(v[k], id, Cleanup(edit(c))));
      assert MayOpen(v[k], id, c) && forall j :: k <= j < |w| ==> w[j] == Put(v[k], id, Cleanup(edit(c)));
    case FlushOp(k) =>
      w := Spread(v, k - 1, v[k]);
      FlushRefines(s, v, k);
    case PushOp =>
      w := v + [v[|v| - 1]];
      PushPopRefines(s, v);
    case PopOp =>
      w := v[..|v| - 1];
      PushPopRefines(s, v);
  }

  lemma SizeOf(s: Stack, v: Views)
    requires Refines(s, v)
    ensures |v| == |s.caches| + 1
  {
  }

  // -------------------------------------------------------------------- runs

  ghost predicate AllowedRun(s: Stack, ops: seq<Op>)
    decreases |ops|
  {
    ops != [] ==> Allowed(s, ops[0]) && AllowedRun(Apply(s, ops[0]), ops[1..])
  }

  ghost function Run(s: Stack, ops: seq<Op>): Stack
    requires AllowedRun(s, ops)
    decreases |ops|
  {
    if ops == [] then s else Run(Apply(s, ops[0]), ops[1..])
  }

  ghost predicate PlainRun(vs: seq<Views>, ops: seq<Op>) {
    |vs| == |ops| + 1 && forall i :: 0 <= i < |ops| ==> PlainStep(vs[i], ops[i], vs[i + 1])
  }

  /** Every run of the caches is a run of the plain maps, and keeps every cache in order. */
  lemma {:induction false} RunRefines(s: Stack, v: Views, ops: seq<Op>) returns (vs: seq<Views>)
    requires StackOk(s) && Refines(s, v) && AllowedRun(s, ops)
    ensures PlainRun(vs, ops) && vs[0] == v
    ensures StackOk(Run(s, ops)) && Refines(Run(s, ops), vs[|ops|])
    decreases |ops|
  {
    hide StackOk, Refines, PlainStep, Apply, Allowed;
    if ops == [] {
      vs := [v];
    } else {
      var w := StepRefines(s, v, ops[0]);
      var rest := RunRefines(Apply(s, ops[0]), w, ops[1..]);
      vs := [v] + rest;
      forall i | 0 <= i < |ops| ensures PlainStep(vs[i], ops[i], vs[i + 1]) {
        if i > 0 { assert PlainStep(rest[i - 1], ops[1..][i - 1], rest[i]); }
      }
    }
  }

  /** A database with no caches on it is its own plain map. */
  lemma StartRefines(db: Plain, best: Hash)
    requires DbOk(db)
    ensures StackOk(Stack(db, best, [])) && Refines(Stack(db, best, []), [db])
  {
  }
}
