/** The active chain as an array indexed by height (src/chain.h, CChain; src/chain.cpp). */
module ActiveChain {
  import opened Numbers
  import opened BlockTree

  /** The blocks from genesis to a tip: what a full rebuild gives. */
  ghost function Path(b: BlockIndex): (p: seq<BlockIndex?>)
    requires Linked(b)
    ensures |p| == b.height + 1 && forall h :: 0 <= h <= b.height ==> p[h] == Ancestor(b, h)
    decreases b.height
  {
    if b.pprev == null then [b] else Path(b.pprev) + [b]
  }

  /** Steps back in a locator: so far from its start is its n-th entry, unless genesis is nearer. */
  ghost function Distance(n: nat): nat {
    if n <= 11 then n else 9 + Pow(2, n - 10)
  }

  ghost function EntryHeight(start: nat, n: nat): nat {
    if start <= Distance(n) then 0 else start - Distance(n)
  }

  lemma DistanceStep(n: nat)
    ensures Distance(n + 1) == Distance(n) + (if n <= 10 then 1 else Pow(2, n - 10))
    ensures n >= 10 ==> Pow(2, n - 9) == 2 * Pow(2, n - 10)
  {
    hide Mul, Pow;
    if n >= 10 {
      PowAdd(2, 1, n - 10);
      PowUnit(2);
      MulIs(2, Pow(2, n - 10));
    }
    if n >= 11 {
      PowAdd(2, 1, n - 11);
      MulIs(2, Pow(2, n - 11));
      PowPositive(2, n - 10);
      if n == 11 { PowUnit(2); }
    }
  }

  /** A locator: its entries are the ancestors of its start at the entry heights, and it ends with genesis as soon as
      it gets there. */
  ghost predicate Locates(have: seq<BlockIndex>, start: BlockIndex)
    requires Linked(start)
  {
    && |have| > 0
    && (forall i :: 0 <= i < |have| ==> have[i] == Ancestor(start, EntryHeight(start.height, i)))
    && (forall i :: 0 <= i < |have| ==> (have[i].height == 0 <==> i == |have| - 1))
  }

  /** A locator begins at its start, goes down strictly, ends at genesis, and is logarithmic in the height. */
  lemma LocatorShape(have: seq<BlockIndex>, start: BlockIndex)
    requires Linked(start) && Locates(have, start)
    ensures have[0] == start && have[|have| - 1].height == 0
    ensures forall i, j :: 0 <= i < j < |have| ==> have[i].height > have[j].height
    ensures forall i :: 0 <= i < |have| ==> IsAncestor(have[i], start)
    ensures |have| > 12 ==> Pow(2, |have| - 12) < start.height
  {
    hide Pow;
    forall i, j | 0 <= i < j < |have| ensures have[i].height > have[j].height { DistanceGrows(i, j); }
    if |have| > 12 {
      var n := |have| - 2;
      assert have[n].height > 0;
      DistanceStep(n - 1);
      if n == 11 { PowUnit(2); }
    }
  }

  lemma {:induction false} DistanceGrows(i: nat, j: nat)
    requires i < j
    ensures Distance(i) < Distance(j)
    decreases j
  {
    hide Pow;
    DistanceStep(j - 1);
    if j > 11 { PowPositive(2, j - 11); }
    if i < j - 1 { DistanceGrows(i, j - 1); }
  }

  class Chain {
    var vChain: seq<BlockIndex?>

    /** The chain is empty, or the path to its tip. */
    ghost predicate Valid()
      reads this
    {
      vChain != [] ==>
        && vChain[|vChain| - 1] != null && Linked(vChain[|vChain| - 1])
        && vChain == Path(vChain[|vChain| - 1])
    }

    constructor ()
      ensures Valid() && vChain == []
    {
      vChain := [];
    }

    function At(height: int): BlockIndex?
      reads this
    {
      if height < 0 || height >= |vChain| then null else vChain[height]
    }

    function Height(): int
      reads this
    {
      |vChain| - 1
    }

    function Tip(): BlockIndex?
      reads this
    {
      At(Height())
    }

    predicate Contains(b: BlockIndex)
      reads this
    {
      At(b.height) == b
    }

    function Next(b: BlockIndex): BlockIndex?
      reads this
    {
      if Contains(b) then At(b.height + 1) else null
    }

    /** A block is contained exactly when it is an ancestor of the tip; then so are its own ancestors. */
    lemma ContainsIffAncestor(b: BlockIndex)
      requires Valid()
      ensures Contains(b) <==> Tip() != null && Linked(Tip()) && IsAncestor(b, Tip())
      ensures Contains(b) ==> Linked(b) && forall h: nat :: h <= b.height ==> At(h) == Ancestor(b, h)
    {
      if Contains(b) {
        forall h: nat | h <= b.height ensures At(h) == Ancestor(b, h) { AncestorOfAncestor(Tip(), b.height, h); }
      }
    }

    /** The successor of a contained block is the contained block that links back to it. */
    lemma NextLinksBack(b: BlockIndex)
      requires Valid()
      ensures Next(b) != null <==> Contains(b) && b != Tip()
      ensures Next(b) != null ==> Contains(Next(b)) && Next(b).pprev == b
    {
      if Contains(b) && b.height + 1 < |vChain| {
        AncestorOfAncestor(Tip(), b.height + 1, b.height);
      }
    }

    /** SetTip: stopping at the first entry that is already right leaves what a full rebuild would. */
    method SetTip(tip: BlockIndex?)
      requires Valid() && (tip != null ==> Linked(tip))
      modifies this
      ensures Valid()
      ensures tip == null ==> vChain == []
      ensures tip != null ==> vChain == Path(tip)
    {
      if tip == null {
        vChain := [];
        return;
      }
      hide Path, Linked, Ancestor;
      ghost var was := vChain;
      vChain := Resized(vChain, tip.height + 1);
      ghost var resized, path := vChain, Path(tip);
      var pindex: BlockIndex? := tip;
      ghost var left := tip.height + 1;
      while pindex != null && vChain[pindex.height] != pindex
        invariant 0 <= left <= |path| == |vChain| && (pindex == null ==> left == 0)
        invariant pindex != null ==> left == pindex.height + 1 && path[left - 1] == pindex
        invariant forall i :: 0 <= i < left ==> vChain[i] == resized[i]
        invariant forall i :: left <= i < |path| ==> vChain[i] == path[i]
        decreases left
      {
        vChain := vChain[pindex.height := pindex];
        PathBelow(tip, pindex);
        pindex := pindex.pprev;
        left := left - 1;
      }
      if pindex != null { SharedPath(was, tip, pindex); }
      assert vChain == path;
    }

    /** FindFork: the highest block of the chain that is an ancestor of the given one. */
    method FindFork(b: BlockIndex) returns (r: BlockIndex?)
      requires Valid() && Linked(b) && Woven(b)
      ensures r != null ==> Contains(r) && IsAncestor(r, b)
      ensures forall h: nat :: h <= b.height && At(h) == Ancestor(b, h) ==> r != null && h <= r.height
      ensures Tip() != null ==> Linked(Tip()) && LastCommon(r, b, Tip())
    {
      hide Woven;
      var p: BlockIndex? := b;
      ghost var steps;
      if b.height > Height() { p, steps := b.GetAncestor(Height()); }
      while p != null && !Contains(p)
        invariant p != null ==> Linked(p) && IsAncestor(p, b)
        invariant forall h: nat :: h <= b.height && At(h) == Ancestor(b, h) ==> p != null && h <= p.height
        decreases if p == null then 0 else p.height + 1
      {
        if p.pprev != null { ParentIsAncestor(p, b); }
        p := p.pprev;
      }
      if Tip() != null { ForkIsLastCommon(p, b); }
      return p;
    }

    lemma ForkIsLastCommon(r: BlockIndex?, b: BlockIndex)
      requires Valid() && Linked(b) && Tip() != null
      requires r != null ==> Contains(r) && IsAncestor(r, b)
      requires forall h: nat :: h <= b.height && At(h) == Ancestor(b, h) ==> r != null && h <= r.height
      ensures Linked(Tip()) && LastCommon(r, b, Tip())
    {
      if r != null { ContainsIffAncestor(r); }
      forall h: nat | Meet(b, Tip(), h) ensures r != null && h <= r.height { assert At(h) == Ancestor(b, h); }
    }

    /** GetLocator. */
    method GetLocator(from: BlockIndex?) returns (have: seq<BlockIndex>)
      requires Valid() && (from != null ==> Linked(from) && Woven(from))
      requires Tip() != null ==> Linked(Tip()) && Woven(Tip())
      ensures var start := if from == null then Tip() else from;
        if start == null then have == [] else Linked(start) && Locates(have, start)
    {
      hide Woven, Pow;
      have := [];
      var pindex: BlockIndex? := if from == null then Tip() else from;
      if pindex == null { return; }
      ghost var start: BlockIndex := pindex;
      var step: nat := 1;
      while pindex != null
        invariant pindex != null && Linked(pindex) && Woven(pindex)
        invariant pindex == Ancestor(start, EntryHeight(start.height, |have|))
        invariant step == if |have| <= 10 then 1 else Pow(2, |have| - 10)
        invariant forall i :: 0 <= i < |have| ==>
          have[i] == Ancestor(start, EntryHeight(start.height, i)) && have[i].height > 0
        decreases pindex.height
      {
        ghost var n := |have|;
        have := have + [pindex];
        if pindex.height == 0 { break; }
        var height := if pindex.height - step > 0 then pindex.height - step else 0;
        DistanceStep(n);
        PowUnit(2);
        StepPositive(n);
        AncestorOfAncestor(start, pindex.height, height);
        AncestorWoven(pindex, height);
        if Contains(pindex) {
          ContainsIffAncestor(pindex);
          pindex := At(height);
        } else {
          ghost var steps;
          pindex, steps := pindex.GetAncestor(height);
        }
        if |have| > 10 { step := step * 2; }
      }
    }
  }

  lemma StepPositive(n: nat)
    ensures n > 10 ==> Pow(2, n - 10) > 0
  {
    if n > 10 { PowPositive(2, n - 10); }
  }

  /** std::vector::resize. */
  function Resized(v: seq<BlockIndex?>, n: nat): (r: seq<BlockIndex?>)
    ensures |r| == n
  {
    seq(n, i requires 0 <= i < n => if i < |v| then v[i] else null)
  }

  lemma PathBelow(tip: BlockIndex, b: BlockIndex)
    requires Linked(tip) && b.height <= tip.height && Path(tip)[b.height] == b
    ensures b.pprev == null ==> b.height == 0
    ensures b.pprev != null ==> b.height == b.pprev.height + 1 && Path(tip)[b.height - 1] == b.pprev
  {
    if b.pprev != null { AncestorOfAncestor(tip, b.height, b.height - 1); }
  }

  /** Where an old entry is right, so is everything below it. */
  lemma SharedPath(was: seq<BlockIndex?>, tip: BlockIndex, b: BlockIndex)
    requires was != [] ==> was[|was| - 1] != null && Linked(was[|was| - 1]) && was == Path(was[|was| - 1])
    requires Linked(tip) && b.height <= tip.height && Path(tip)[b.height] == b
    requires Resized(was, tip.height + 1)[b.height] == b
    ensures forall h :: 0 <= h <= b.height ==> Resized(was, tip.height + 1)[h] == Path(tip)[h]
  {
    var oldTip := was[|was| - 1];
    forall h | 0 <= h <= b.height ensures was[h] == Path(tip)[h] {
      AncestorOfAncestor(oldTip, b.height, h);
      AncestorOfAncestor(tip, b.height, h);
    }
  }
}
