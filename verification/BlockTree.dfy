/** Block index entries: links to the previous block and to an earlier one (src/chain.h, CBlockIndex; src/main.cpp). */
module BlockTree {
  import opened Numbers

  // ------------------------------------------------------------- skip heights

  /** Bitwise and. */
  function BitAnd(x: nat, y: nat): nat {
    if x == 0 then 0
    else 2 * BitAnd(x / 2, y / 2) + (if x % 2 == 1 && y % 2 == 1 then 1 else 0)
  }

  lemma {:induction false} BitAndSelf(x: nat)
    ensures BitAnd(x, x) == x
  {
    if x > 0 { BitAndSelf(x / 2); }
  }

  /** InvertLowestOne. */
  function InvertLowestOne(n: nat): nat {
    if n == 0 then 0 else BitAnd(n, n - 1)
  }

  /** The lowest bit that is set is cleared: odd numbers lose one, even ones twice what their half loses. */
  lemma {:induction false} InvertIs(n: nat)
    requires n > 0
    ensures InvertLowestOne(n) < n
    ensures n % 2 == 1 ==> InvertLowestOne(n) == n - 1
    ensures n % 2 == 0 ==> InvertLowestOne(n) == 2 * InvertLowestOne(n / 2)
  {
    if n % 2 == 1 {
      assert (n - 1) / 2 == n / 2;
      BitAndSelf(n / 2);
    } else {
      assert (n - 1) / 2 == n / 2 - 1;
      InvertIs(n / 2);
    }
  }

  /** GetSkipHeight. */
  function SkipHeight(height: nat): nat {
    if height < 2 then 0
    else if height % 2 == 1 then InvertLowestOne(InvertLowestOne(height - 1)) + 1
    else InvertLowestOne(height)
  }

  /** A block never skips to itself. */
  lemma SkipsBack(height: nat)
    requires height > 0
    ensures SkipHeight(height) < height
  {
    hide InvertLowestOne;
    if height >= 2 {
      if height % 2 == 1 {
        InvertIs(height - 1);
        if InvertLowestOne(height - 1) > 0 { InvertIs(InvertLowestOne(height - 1)); } else { InvertZero(); }
      } else {
        InvertIs(height);
      }
    }
  }

  lemma InvertZero()
    ensures InvertLowestOne(0) == 0
  {
  }

  // ------------------------------------------------------------- length of a walk

  /** Whether GetAncestor follows the skip link. */
  predicate Skips(walk: nat, h: nat)
    requires walk > 0
  {
    var skip, skipPrev := SkipHeight(walk), SkipHeight(walk - 1);
    skip == h || (skip > h && !(skipPrev < skip - 2 && skipPrev >= h))
  }

  /** The height GetAncestor goes to next on its way to height h. */
  function NextHeight(walk: nat, h: nat): nat
    requires walk > 0
  {
    if Skips(walk, h) then SkipHeight(walk) else walk - 1
  }

  function Ones(n: nat): nat {
    if n == 0 then 0 else n % 2 + Ones(n / 2)
  }

  /** The number of binary digits in which two heights differ, from the lowest up to the highest. */
  function Rank(walk: nat, h: nat): nat
    decreases walk + h
  {
    if walk == h then 0 else 1 + Rank(walk / 2, h / 2)
  }

  /** What is left to clear without changing the rank: the ones above the last two digits, and these two as a number. */
  function Weight(walk: nat): nat {
    4 * Ones(walk / 4) + walk % 4
  }

  lemma {:induction false} OnesInverted(n: nat)
    requires n > 0
    ensures Ones(n) > 0 && Ones(InvertLowestOne(n)) == Ones(n) - 1
  {
    hide InvertLowestOne;
    InvertIs(n);
    if n % 2 == 0 { OnesInverted(n / 2); }
  }

  /** Clearing a bit in a multiple of four is clearing it in the quotient. */
  lemma InvertFour(g: nat)
    ensures InvertLowestOne(4 * g) == 4 * InvertLowestOne(g)
    ensures InvertLowestOne(4 * g + 2) == 4 * g
  {
    hide InvertLowestOne;
    if g == 0 { InvertZero(); } else { InvertIs(4 * g); InvertIs(2 * g); }
    InvertIs(4 * g + 2);
    InvertIs(2 * g + 1);
  }

  /** A skip from an even height clears one bit. */
  lemma EvenSkip(g: nat)
    requires g > 0
    ensures Weight(SkipHeight(4 * g)) < Weight(4 * g)
    ensures Weight(SkipHeight(4 * g + 2)) < Weight(4 * g + 2)
  {
    hide InvertLowestOne, Ones;
    InvertFour(g);
    OnesInverted(g);
    FourParts(InvertLowestOne(g), 0);
    FourParts(g, 0);
    FourParts(g, 2);
  }

  lemma FourParts(g: nat, r: nat)
    requires r < 4
    ensures (4 * g + r) / 4 == g && (4 * g + r) % 4 == r
  {
  }

  /** A skip from an odd height clears one or two bits. */
  lemma OddSkip(g: nat, r: nat)
    requires r == 1 || r == 3
    ensures 4 * g + r > 1 ==> Weight(SkipHeight(4 * g + r)) < Weight(4 * g + r)
  {
    hide InvertLowestOne, Ones, Weight, SkipHeight;
    var i := InvertLowestOne(g);
    OddSkipIs(g);
    WeightIs(g, r);
    WeightIs(i, 1);
    WeightIs(InvertLowestOne(i), 1);
    InvertZero();
    NoOnes();
    if g > 0 { OnesInverted(g); }
    if i > 0 { OnesInverted(i); }
  }

  lemma OddSkipIs(g: nat)
    ensures g > 0 ==> SkipHeight(4 * g + 1) == 4 * InvertLowestOne(InvertLowestOne(g)) + 1
    ensures SkipHeight(4 * g + 3) == 4 * InvertLowestOne(g) + 1
  {
    hide InvertLowestOne, SkipHeight;
    InvertFour(g);
    InvertFour(InvertLowestOne(g));
    if g > 0 { SkipOdd(2 * g); }
    SkipOdd(2 * g + 1);
  }

  lemma SkipOdd(n: nat)
    requires n > 0
    ensures SkipHeight(2 * n + 1) == InvertLowestOne(InvertLowestOne(2 * n)) + 1
  {
    hide InvertLowestOne;
  }

  lemma WeightIs(g: nat, r: nat)
    requires r < 4
    ensures Weight(4 * g + r) == 4 * Ones(g) + r
  {
    hide Ones;
    FourParts(g, r);
  }

  lemma NoOnes()
    ensures Ones(0) == 0
  {
  }

  lemma {:induction false} RankOrder(a: nat, b: nat, h: nat)
    requires h <= a <= b
    ensures Rank(a, h) <= Rank(b, h)
    decreases b + h
  {
    if b != h && a != h { RankOrder(a / 2, b / 2, h / 2); }
  }

  /** Between a height and what is left when its lowest bit is cleared, one step down lowers the rank. */
  lemma {:induction false} RankBelow(walk: nat, h: nat)
    requires walk > 0 && InvertLowestOne(walk) <= h < walk
    ensures Rank(walk - 1, h) < Rank(walk, h)
    decreases walk
  {
    hide InvertLowestOne;
    InvertIs(walk);
    if walk % 2 == 0 {
      assert (walk - 1) / 2 == walk / 2 - 1;
      RankBelow(walk / 2, h / 2);
    }
  }

  /** From a multiple of eight a step back is only made when the skip would go too far. */
  lemma EightBack(g: nat, h: nat)
    requires g > 0 && h < 8 * g && !Skips(8 * g, h)
    ensures InvertLowestOne(8 * g) <= h
  {
    hide InvertLowestOne, SkipHeight;
    EightSkip(g);
    EightPrevious(g);
  }

  lemma EightSkip(g: nat)
    requires g > 0
    ensures SkipHeight(8 * g) == InvertLowestOne(8 * g) <= 8 * g - 8
  {
    hide InvertLowestOne;
    InvertFour(2 * g);
    InvertIs(2 * g);
    InvertIs(g);
  }

  lemma EightPrevious(g: nat)
    requires g > 0
    ensures SkipHeight(8 * g - 1) == 8 * g - 7
  {
    hide InvertLowestOne;
    var n := 2 * g - 1;
    InvertFour(n);
    InvertIs(n);
    assert 8 * g - 2 == 4 * n + 2;
  }

  /** Every step of the walk lowers the rank, or keeps it and lowers the weight. */
  lemma StepDown(walk: nat, h: nat)
    requires h < walk
    ensures h <= NextHeight(walk, h) < walk
    ensures Rank(NextHeight(walk, h), h) <= Rank(walk, h)
    ensures Rank(NextHeight(walk, h), h) < Rank(walk, h) || Weight(NextHeight(walk, h)) < Weight(walk)
  {
    hide SkipHeight, Ones, Rank;
    SkipsBack(walk);
    RankOrder(NextHeight(walk, h), walk, h);
    var g, r := walk / 4, walk % 4;
    assert walk == 4 * g + r;
    if walk == 1 {
      FirstStep();
    } else if Skips(walk, h) {
      if r == 1 || r == 3 { OddSkip(g, r); } else if g > 0 { EvenSkip(g); } else { TwoSkips(); }
    } else if r > 0 {
      FourParts(g, r - 1);
    } else if g % 2 == 1 {
      FourParts(g - 1, 3);
      OnesOdd(g);
    } else {
      EightBack(g / 2, h);
      RankBelow(walk, h);
    }
  }

  lemma FirstStep()
    ensures SkipHeight(1) == 0 && Weight(0) < Weight(1)
  {
  }

  lemma TwoSkips()
    ensures Weight(SkipHeight(2)) < Weight(2)
  {
    hide InvertLowestOne;
    InvertFour(0);
  }

  lemma OnesOdd(g: nat)
    requires g % 2 == 1
    ensures Ones(g - 1) == Ones(g) - 1
  {
    assert (g - 1) / 2 == g / 2;
  }

  /** An upper bound for the steps of the rest of a walk, when no number in it has more digits than `size`. */
  function Fuel(walk: nat, h: nat, size: nat): nat {
    MulNat(Rank(walk, h), 4 * size + 4);
    Mul(Rank(walk, h), 4 * size + 4) + Weight(walk)
  }

  lemma {:induction false} LengthBounds(n: nat, h: nat)
    requires h <= n
    ensures Ones(n) <= BitLength(n) && Rank(n, h) <= BitLength(n) && BitLength(h) <= BitLength(n)
  {
    if n > 0 && h != n { LengthBounds(n / 2, h / 2); }
    if n > 0 && h == n { LengthBounds(n / 2, n / 2); }
  }

  lemma WeightBound(n: nat)
    ensures Weight(n) <= 4 * BitLength(n) + 3
  {
    hide Ones, BitLength;
    LengthBounds(n / 4, n / 4);
    LengthBounds(n, n / 4);
  }

  lemma FuelStep(walk: nat, h: nat, size: nat)
    requires h < walk && BitLength(walk) <= size
    ensures BitLength(NextHeight(walk, h)) <= size && Fuel(NextHeight(walk, h), h, size) < Fuel(walk, h, size)
  {
    hide NextHeight, Rank, Weight, BitLength, Mul;
    StepDown(walk, h);
    var next := NextHeight(walk, h);
    LengthBounds(walk, next);
    WeightBound(next);
    MulGrows(4 * size + 4, Rank(next, h), Rank(walk, h));
    if Rank(next, h) < Rank(walk, h) {
      MulGrows(4 * size + 4, Rank(next, h) + 1, Rank(walk, h));
      MulPlus(4 * size + 4, Rank(next, h), 1);
      MulUnit(4 * size + 4);
    }
  }

  /** The whole walk is at most quadratic in the number of digits of the height it starts from. */
  lemma FuelBound(walk: nat, h: nat)
    requires h <= walk
    ensures var size := BitLength(walk); Fuel(walk, h, size) <= 4 * (size + 1) * (size + 1)
  {
    hide Rank, Weight, BitLength, Mul;
    var size := BitLength(walk);
    LengthBounds(walk, h);
    WeightBound(walk);
    MulGrows(4 * size + 4, Rank(walk, h), size);
    MulIs(size, 4 * size + 4);
  }

  // -------------------------------------------------------------------- blocks

  /** Heights count the links back to a block without a previous one. */
  ghost predicate Linked(b: BlockIndex)
    decreases b.height
  {
    if b.pprev == null then b.height == 0 else b.height == b.pprev.height + 1 && Linked(b.pprev)
  }

  /** The ancestor at a height, found link by link. */
  ghost function Ancestor(b: BlockIndex, height: nat): (a: BlockIndex)
    requires Linked(b) && height <= b.height
    ensures Linked(a) && a.height == height
    decreases b.height
  {
    if b.height == height then b else Ancestor(b.pprev, height)
  }

  /** Every skip link leads to the ancestor at the skip height. */
  ghost predicate Woven(b: BlockIndex)
    requires Linked(b)
    decreases b.height
  {
    b.pprev != null ==>
      && Woven(b.pprev)
      && (SkipsBack(b.height); b.pskip == Ancestor(b.pprev, SkipHeight(b.height)))
  }

  ghost predicate IsAncestor(a: BlockIndex, b: BlockIndex)
    requires Linked(b)
  {
    a.height <= b.height && Ancestor(b, a.height) == a
  }

  lemma {:induction false} AncestorOfAncestor(b: BlockIndex, h: nat, g: nat)
    requires Linked(b) && g <= h <= b.height
    ensures Ancestor(Ancestor(b, h), g) == Ancestor(b, g)
    decreases b.height
  {
    if h < b.height { AncestorOfAncestor(b.pprev, h, g); }
  }

  lemma {:induction false} AncestorWoven(b: BlockIndex, h: nat)
    requires Linked(b) && Woven(b) && h <= b.height
    ensures Woven(Ancestor(b, h))
    decreases b.height
  {
    if h < b.height { AncestorWoven(b.pprev, h); }
  }

  class BlockIndex {
    const height: nat
    const pprev: BlockIndex?
    const pskip: BlockIndex?

    /** A new entry after another one, as it is linked in: height and skip link follow from the previous block. */
    constructor (prev: BlockIndex?)
      requires prev != null ==> Linked(prev) && Woven(prev)
      ensures pprev == prev && Linked(this) && Woven(this)
    {
      pprev := prev;
      if prev == null {
        height := 0;
        pskip := null;
      } else {
        SkipsBack(prev.height + 1);
        var skip, _ := prev.GetAncestor(SkipHeight(prev.height + 1));
        height := prev.height + 1;
        pskip := skip;
      }
    }

    /** GetAncestor: skipping ahead finds the block that walking back link by link would, in a number of steps that is
        quadratic in the number of digits of the height. */
    method GetAncestor(h: int) returns (a: BlockIndex?, ghost steps: nat)
      requires Linked(this) && Woven(this)
      ensures a == if 0 <= h <= height then Ancestor(this, h) else null
      ensures steps <= 4 * (BitLength(height) + 1) * (BitLength(height) + 1)
    {
      hide Fuel, BitLength, NextHeight, SkipHeight;
      steps := 0;
      ghost var size := BitLength(height);
      assert 0 <= 4 * (size + 1) * (size + 1);
      if h > height || h < 0 { return null, 0; }
      var walk: BlockIndex, heightWalk := this, height;
      FuelBound(height, h);
      while heightWalk > h
        invariant Linked(walk) && Woven(walk) && h <= walk.height == heightWalk
        invariant Ancestor(walk, h) == Ancestor(this, h)
        invariant BitLength(heightWalk) <= size && steps + Fuel(heightWalk, h, size) <= Fuel(height, h, size)
        decreases heightWalk
      {
        SkipsBack(heightWalk);
        FuelStep(heightWalk, h, size);
        WalkIs(heightWalk, h);
        var skip, skipPrev := SkipHeight(heightWalk), SkipHeight(heightWalk - 1);
        if skip == h || (skip > h && !(skipPrev < skip - 2 && skipPrev >= h)) {
          AncestorWoven(walk.pprev, skip);
          AncestorOfAncestor(walk.pprev, skip, h);
          walk := walk.pskip;
          heightWalk := skip;
        } else {
          walk := walk.pprev;
          heightWalk := heightWalk - 1;
        }
        steps := steps + 1;
      }
      return walk, steps;
    }
  }

  lemma WalkIs(walk: nat, h: nat)
    requires walk > 0
    ensures NextHeight(walk, h) == if Skips(walk, h) then SkipHeight(walk) else walk - 1
  {
  }

  // ------------------------------------------------------------ common ancestors

  /** Two blocks have the same ancestor at a height. */
  ghost predicate Meet(a: BlockIndex, b: BlockIndex, h: nat)
    requires Linked(a) && Linked(b)
  {
    h <= a.height && h <= b.height && Ancestor(a, h) == Ancestor(b, h)
  }

  /** A common ancestor of both, and no other one is higher. */
  ghost predicate LastCommon(r: BlockIndex?, a: BlockIndex, b: BlockIndex)
    requires Linked(a) && Linked(b)
  {
    && (r != null ==> IsAncestor(r, a) && IsAncestor(r, b))
    && forall h: nat :: Meet(a, b, h) ==> r != null && h <= r.height
  }

  /** Blocks meet where their ancestors from the lower height down do. */
  lemma MeetLower(a: BlockIndex, b: BlockIndex, h: nat, m: nat)
    requires Linked(a) && Linked(b) && h <= m <= a.height && m <= b.height
    ensures Meet(a, b, h) <==> Meet(Ancestor(a, m), Ancestor(b, m), h)
  {
    AncestorOfAncestor(a, m, h);
    AncestorOfAncestor(b, m, h);
  }

  /** Blocks of one height that differ meet where their parents do. */
  lemma MeetBelow(a: BlockIndex, b: BlockIndex, h: nat)
    requires Linked(a) && Linked(b) && a.height == b.height && a != b && Meet(a, b, h)
    ensures a.pprev != null && b.pprev != null && Meet(a.pprev, b.pprev, h)
  {
  }

  /** LastCommonAncestor. Blocks of trees that do not meet have none. */
  method LastCommonAncestor(pa0: BlockIndex, pb0: BlockIndex) returns (r: BlockIndex?)
    requires Linked(pa0) && Woven(pa0) && Linked(pb0) && Woven(pb0)
    ensures LastCommon(r, pa0, pb0)
  {
    hide Woven;
    var pa: BlockIndex?, pb: BlockIndex? := pa0, pb0;
    ghost var steps;
    if pa.height > pb.height {
      pa, steps := pa.GetAncestor(pb.height);
    } else if pb.height > pa.height {
      pb, steps := pb.GetAncestor(pa.height);
    }
    forall h: nat | Meet(pa0, pb0, h) ensures Meet(pa, pb, h) { MeetLower(pa0, pb0, h, pa.height); }
    while pa != pb && pa != null && pb != null
      invariant pa == null <==> pb == null
      invariant pa != null ==>
        && Linked(pa) && Linked(pb) && pa.height == pb.height
        && IsAncestor(pa, pa0) && IsAncestor(pb, pb0)
      invariant forall h: nat :: Meet(pa0, pb0, h) ==> pa != null && Meet(pa, pb, h)
      decreases if pa == null then 0 else pa.height + 1
    {
      forall h: nat | Meet(pa0, pb0, h) ensures pa.pprev != null && pb.pprev != null && Meet(pa.pprev, pb.pprev, h) {
        MeetBelow(pa, pb, h);
      }
      if pa.pprev != null {
        ParentIsAncestor(pa, pa0);
        ParentIsAncestor(pb, pb0);
      }
      pa, pb := pa.pprev, pb.pprev;
    }
    assert pa == pb;
    return pa;
  }

  lemma ParentIsAncestor(a: BlockIndex, b: BlockIndex)
    requires Linked(b) && IsAncestor(a, b) && a.pprev != null
    ensures Linked(a) && Linked(a.pprev) && IsAncestor(a.pprev, b)
  {
    AncestorOfAncestor(b, a.height, a.pprev.height);
  }
}
