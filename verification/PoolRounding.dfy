/**
  Pools whose level sizes are rounded. `break_block` cuts a block at multiples of the next level's
  size and only checks against the end of the buffer, so a rounded quarter can reach into the next
  block. For which pools the blocks stay apart, keep their numbers and have bits of their own.
 */
module PoolRounding {
  import opened Arithmetic
  import opened PoolGeometry
  import opened PoolBitmap
  import opened NodeLists

  // ---------- the blocks of a pool ----------

  /** `block_fits`, for a block of level `l` at address `a`. */
  predicate Fits(g: Geometry, l: nat, a: nat) {
    a + g.LevelSize(l) <= Bytes(g)
  }

  /** Where `init_mem_pool` puts a top-level block. */
  function TopAt(g: Geometry, i: nat): nat {
    i * g.maxSz
  }

  /** Where `break_block` puts quarter `i` of the block of level `l` at `a`. */
  function QuarterAt(g: Geometry, l: nat, a: nat, i: nat): nat {
    a + i * g.LevelSize(l + 1)
  }

  /** The first quarter stays with the caller, the others are listed if they fit. */
  predicate Kept(g: Geometry, l: nat, a: nat, i: nat) {
    i < 4 && (i == 0 || Fits(g, l + 1, QuarterAt(g, l, a, i)))
  }

  /** The block of level `l` at `a` is quarter `i` of the one at `p`. */
  predicate CutFrom(g: Geometry, l: nat, a: nat, p: nat, i: nat) {
    l > 0 && Kept(g, l - 1, p, i) && a == QuarterAt(g, l - 1, p, i)
  }

  /** The blocks of a level that initialisation and breaking make, by address. */
  ghost predicate IsBlock(g: Geometry, l: nat, a: nat) {
    if l == 0 then exists i: nat :: i < g.nMax && a == TopAt(g, i)
    else exists p: nat, i: nat :: CutFrom(g, l, a, p, i) && IsBlock(g, l - 1, p)
  }

  // ---------- what the code relies on ----------

  /** Every block lies in the buffer, and so is listed again when it is freed. */
  ghost predicate Contained(g: Geometry) {
    forall l, a: nat :: 0 <= l < g.nLevels && IsBlock(g, l, a) ==> Fits(g, l, a)
  }

  /** No quarter of a block reaches into another block of its level, and the top-level blocks are apart. */
  ghost predicate Separate(g: Geometry) {
    && (forall i: nat, j: nat :: i < j < g.nMax ==> TopAt(g, i) + g.LevelSize(0) <= TopAt(g, j))
    && (forall l, a: nat, c: nat, i: nat ::
          0 <= l && l + 1 < g.nLevels && IsBlock(g, l, a) && IsBlock(g, l, c) && a != c && Kept(g, l, a, i) ==>
            Apart(QuarterAt(g, l, a, i), g.LevelSize(l + 1), c, g.LevelSize(l)))
  }

  predicate Apart(a: nat, m: nat, c: nat, n: nat) {
    a + m <= c || c + n <= a
  }

  /** `block_num` gives a block the number under which its bit was set, and a quarter one of its parent's four. */
  ghost predicate Numbered(g: Geometry) {
    && (forall i: nat :: i < g.nMax ==> At(g, 0, TopAt(g, i)) == i)
    && (forall l, a: nat, i: nat :: 0 <= l && l + 1 < g.nLevels && IsBlock(g, l, a) && Kept(g, l, a, i) ==>
          At(g, l + 1, QuarterAt(g, l, a, i)) == 4 * At(g, l, a) + i)
  }

  /** Every block has room for the list node that it holds while it is free. */
  ghost predicate NodesFit(g: Geometry) {
    forall l, a: nat :: 0 <= l < g.nLevels && IsBlock(g, l, a) ==> NODE_SIZE <= g.LevelSize(l)
  }

  /** The block numbers that `struct k_mem_block_id` has room for. */
  const ID_BLOCKS: nat := 0x10_0000

  /** `id.block`, in its 20 bits. */
  function BlockId(bn: nat): nat {
    bn % ID_BLOCKS
  }

  /** The id of a block is its number, so freeing by the id frees that block. */
  ghost predicate Identified(g: Geometry) {
    forall l, a: nat :: 0 <= l < g.nLevels && IsBlock(g, l, a) ==> BlockId(At(g, l, a)) == At(g, l, a)
  }

  /** Four blocks of the next level fill one of this level, or there is only one. */
  predicate RegularLevel(g: Geometry, l: nat) {
    g.LevelSize(l) == 4 * g.LevelSize(l + 1) || 2 * g.LevelSize(l) > Bytes(g)
  }

  predicate Regular(g: Geometry) {
    && (g.nMax == 1 || g.maxSz % 4 == 0)
    && forall l :: 0 <= l < g.nLevels - 1 ==> RegularLevel(g, l)
  }

  // ---------- sizes ----------

  lemma {:induction false} SizeSteps(g: Geometry, l: nat)
    requires Defined(g) && l < g.nLevels
    ensures 4 <= g.LevelSize(l) && g.LevelSize(l) % 4 == 0
    ensures l > 0 ==> g.LevelSize(l) <= g.LevelSize(l - 1) <= 4 * g.LevelSize(l)
    ensures l > 0 ==> g.LevelSize(l) <= g.maxSz
  {
    if l == 0 {
      Align4Fixed(g.maxSz);
    } else {
      SizeSteps(g, l - 1);
      Align4Fixed(g.LevelSize(l - 1) / 4);
      Pow4Grows(1, g.nLevels - 1);
      assert g.maxSz >= Pow4(1) == 4;
    }
  }

  lemma {:induction false} SizesShrink(g: Geometry, k: nat, l: nat)
    requires Defined(g) && k <= l < g.nLevels
    ensures g.LevelSize(l) <= g.LevelSize(k)
    decreases l - k
  {
    if k < l {
      SizeSteps(g, l);
      SizesShrink(g, k, l - 1);
    }
  }

  lemma {:induction false} FirstBlock(g: Geometry, l: nat)
    requires g.nMax > 0
    ensures IsBlock(g, l, 0)
  {
    if l == 0 {
      assert TopAt(g, 0) == 0;
    } else {
      FirstBlock(g, l - 1);
      assert CutFrom(g, l, 0, 0, 0);
    }
  }

  /** The second block of a level, where there is room for one. */
  lemma SecondBlock(g: Geometry, l: nat)
    requires Defined(g) && l < g.nLevels && 2 * g.LevelSize(l) <= Bytes(g)
    requires l == 0 ==> g.maxSz % 4 == 0
    ensures IsBlock(g, l, g.LevelSize(l))
  {
    if l == 0 {
      Align4Fixed(g.maxSz);
      assert g.nMax == 1 ==> Bytes(g) == g.maxSz;
      assert TopAt(g, 1) == g.LevelSize(0);
    } else {
      FirstBlock(g, l - 1);
      assert CutFrom(g, l, g.LevelSize(l), 0, 1);
    }
  }

  lemma MoreThanOne(g: Geometry)
    requires Defined(g) && g.maxSz % 4 != 0 && 2 * g.LevelSize(0) <= Bytes(g)
    ensures g.nMax > 1
  {
    Align4Fixed(g.maxSz);
    assert g.nMax == 1 ==> Bytes(g) == g.maxSz;
  }

  // ---------- regular pools ----------

  /** In a regular pool a block's address is a multiple of its size. */
  predicate Placed(g: Geometry, l: nat, a: nat) {
    && a == At(g, l, a) * g.LevelSize(l)
    && (g.maxSz % 4 == 0 || l > 0 ==> Fits(g, l, a))
    && (2 * g.LevelSize(l) > Bytes(g) ==> a == 0)
    && (l == 0 && g.maxSz % 4 != 0 ==> a == 0)
  }

  lemma PlacedAt(g: Geometry, l: nat, a: nat, b: nat)
    requires Defined(g) && l < g.nLevels && a == b * g.LevelSize(l) && (g.maxSz % 4 == 0 || l > 0)
    requires Fits(g, l, a)
    ensures Placed(g, l, a) && At(g, l, a) == b
  {
    SizeSteps(g, l);
    DivUnique(a, g.LevelSize(l), b, 0);
    if b >= 1 {
      MulMonotone(1, b, g.LevelSize(l));
    }
  }

  lemma TopPlaced(g: Geometry, i: nat)
    requires Defined(g) && (g.nMax == 1 || g.maxSz % 4 == 0) && i < g.nMax
    ensures Placed(g, 0, TopAt(g, i)) && At(g, 0, TopAt(g, i)) == i
  {
    SizeSteps(g, 0);
    Align4Fixed(g.maxSz);
    if g.maxSz % 4 == 0 {
      MulMonotone(i + 1, g.nMax, g.maxSz);
      PlacedAt(g, 0, TopAt(g, i), i);
    } else {
      DivUnique(0, g.LevelSize(0), 0, 0);
      assert TopAt(g, i) == 0;
    }
  }

  lemma FirstQuarterFits(g: Geometry, l: nat, a: nat)
    requires Defined(g) && l + 1 < g.nLevels && Placed(g, l, a)
    ensures Fits(g, l + 1, a)
  {
    SizeSteps(g, l + 1);
    if !Fits(g, l, a) {
      MulMonotone(1, g.nMax, g.maxSz);
    }
  }

  lemma QuarterIs(a: nat, b: nat, s: nat, i: nat)
    requires a == b * (4 * s)
    ensures a + i * s == (4 * b + i) * s
  {
  }

  lemma QuarterPlaced(g: Geometry, l: nat, a: nat, i: nat)
    requires Defined(g) && l + 1 < g.nLevels && RegularLevel(g, l) && Placed(g, l, a) && Kept(g, l, a, i)
    ensures Placed(g, l + 1, QuarterAt(g, l, a, i)) && At(g, l + 1, QuarterAt(g, l, a, i)) == 4 * At(g, l, a) + i
  {
    SizeSteps(g, l);
    var b, s := At(g, l, a), g.LevelSize(l + 1);
    FirstQuarterFits(g, l, a);
    if g.LevelSize(l) == 4 * s {
      QuarterIs(a, b, s, i);
    } else {
      DivUnique(0, g.LevelSize(l), 0, 0);
    }
    PlacedAt(g, l + 1, QuarterAt(g, l, a, i), 4 * b + i);
  }

  lemma {:induction false} RegularPlaced(g: Geometry, l: nat, a: nat)
    requires Defined(g) && Regular(g) && l < g.nLevels && IsBlock(g, l, a)
    ensures Placed(g, l, a)
  {
    if l == 0 {
      var i: nat :| i < g.nMax && a == TopAt(g, i);
      TopPlaced(g, i);
    } else {
      var p: nat, i: nat :| CutFrom(g, l, a, p, i) && IsBlock(g, l - 1, p);
      RegularPlaced(g, l - 1, p);
      QuarterPlaced(g, l - 1, p, i);
    }
  }

  /** With more than one top-level block, only exact pools are regular. */
  lemma RegularIsExact(g: Geometry)
    requires Defined(g) && g.nMax > 1 && g.maxSz % 4 == 0
    ensures Regular(g) <==> g.Exact()
  {
    Align4Fixed(g.maxSz);
    MulMonotone(2, g.nMax, g.maxSz);
    RoundingIsExactIff(g);
    if Regular(g) {
      forall l | 0 < l < g.nLevels ensures g.LevelSize(l - 1) == 4 * g.LevelSize(l) {
        assert RegularLevel(g, l - 1);
        SizesShrink(g, 0, l - 1);
      }
    }
    if g.Exact() {
      ExactIsRegular(g);
    }
  }

  // ---------- numbers ----------

  lemma RegularNumbered(g: Geometry)
    requires Defined(g) && Regular(g)
    ensures Numbered(g)
  {
    forall i: nat | i < g.nMax ensures At(g, 0, TopAt(g, i)) == i {
      TopPlaced(g, i);
    }
    forall l, a: nat, i: nat | 0 <= l && l + 1 < g.nLevels && IsBlock(g, l, a) && Kept(g, l, a, i)
      ensures At(g, l + 1, QuarterAt(g, l, a, i)) == 4 * At(g, l, a) + i
    {
      RegularPlaced(g, l, a);
      QuarterPlaced(g, l, a, i);
    }
  }

  lemma NumberedTop(g: Geometry)
    requires Defined(g) && Numbered(g)
    ensures g.nMax == 1 || g.maxSz % 4 == 0
  {
    if g.nMax > 1 {
      SizeSteps(g, 0);
      Align4Fixed(g.maxSz);
      assert At(g, 0, TopAt(g, 1)) == 1;
      DivMod(g.maxSz, g.LevelSize(0));
    }
  }

  lemma NumberedLevel(g: Geometry, l: nat)
    requires Defined(g) && Numbered(g) && l + 1 < g.nLevels
    ensures RegularLevel(g, l)
  {
    var s, t := g.LevelSize(l), g.LevelSize(l + 1);
    if 2 * s <= Bytes(g) {
      NumberedTop(g);
      if l == 0 && g.maxSz % 4 != 0 {
        MoreThanOne(g);
        assert false;
      }
      SecondBlock(g, l);
      SizeSteps(g, l);
      SizeSteps(g, l + 1);
      DivUnique(s, s, 1, 0);
      assert Kept(g, l, s, 0) && QuarterAt(g, l, s, 0) == s;
      assert At(g, l + 1, s) == 4 * At(g, l, s) + 0;
      DivMod(s, t);
    }
  }

  /**
    The number that breaking gives a quarter is the one that freeing computes from its address, for every block
    of the pool, exactly when each level is cut into exact quarters or has a single block.
   */
  lemma NumberedIff(g: Geometry)
    requires Defined(g)
    ensures Numbered(g) <==> Regular(g)
  {
    if Regular(g) {
      RegularNumbered(g);
    }
    if Numbered(g) {
      NumberedTop(g);
      forall l | 0 <= l < g.nLevels - 1 ensures RegularLevel(g, l) {
        NumberedLevel(g, l);
      }
    }
  }

  // ---------- overlap ----------

  lemma MultiplesApart(b: nat, d: nat, s: nat)
    requires b != d
    ensures Apart(b * s, s, d * s, s)
  {
    if b < d {
      MulMonotone(b + 1, d, s);
    } else {
      MulMonotone(d + 1, b, s);
    }
  }

  lemma QuarterApart(g: Geometry, l: nat, a: nat, c: nat, i: nat)
    requires Defined(g) && l + 1 < g.nLevels && RegularLevel(g, l) && i < 4
    requires Placed(g, l, a) && Placed(g, l, c) && a != c
    ensures Apart(QuarterAt(g, l, a, i), g.LevelSize(l + 1), c, g.LevelSize(l))
  {
    var b, d := At(g, l, a), At(g, l, c);
    MultiplesApart(b, d, g.LevelSize(l));
    assert g.LevelSize(l) == 4 * g.LevelSize(l + 1);
  }

  lemma RegularSeparate(g: Geometry)
    requires Defined(g) && Regular(g)
    ensures Separate(g)
  {
    forall i: nat, j: nat | i < j < g.nMax ensures TopAt(g, i) + g.LevelSize(0) <= TopAt(g, j) {
      Align4Fixed(g.maxSz);
      MulMonotone(i + 1, j, g.maxSz);
    }
    forall l, a: nat, c: nat, i: nat |
      0 <= l && l + 1 < g.nLevels && IsBlock(g, l, a) && IsBlock(g, l, c) && a != c && Kept(g, l, a, i)
      ensures Apart(QuarterAt(g, l, a, i), g.LevelSize(l + 1), c, g.LevelSize(l))
    {
      RegularPlaced(g, l, a);
      RegularPlaced(g, l, c);
      QuarterApart(g, l, a, c, i);
    }
  }

  lemma SeparateTop(g: Geometry)
    requires Defined(g) && Separate(g)
    ensures g.nMax == 1 || g.maxSz % 4 == 0
  {
    if g.nMax > 1 {
      Align4Fixed(g.maxSz);
      assert TopAt(g, 0) + g.LevelSize(0) <= TopAt(g, 1);
    }
  }

  /** The quarter of the first block that reaches into the second. */
  lemma Overlap(g: Geometry, l: nat)
    requires Defined(g) && l + 1 < g.nLevels && 2 * g.LevelSize(l) <= Bytes(g) && g.LevelSize(l) != 4 * g.LevelSize(l + 1)
    ensures exists i: nat :: Kept(g, l, 0, i) && !Apart(QuarterAt(g, l, 0, i), g.LevelSize(l + 1), g.LevelSize(l), g.LevelSize(l))
  {
    var s, t := g.LevelSize(l), g.LevelSize(l + 1);
    SizeSteps(g, l);
    SizeSteps(g, l + 1);
    var i := if s < 2 * t then 1 else if s < 3 * t then 2 else 3;
    assert QuarterAt(g, l, 0, i) == i * t;
    assert Kept(g, l, 0, i);
  }

  lemma SeparateLevel(g: Geometry, l: nat)
    requires Defined(g) && Separate(g) && l + 1 < g.nLevels
    ensures RegularLevel(g, l)
  {
    if 2 * g.LevelSize(l) <= Bytes(g) && g.LevelSize(l) != 4 * g.LevelSize(l + 1) {
      SeparateTop(g);
      if l == 0 && g.maxSz % 4 != 0 {
        MoreThanOne(g);
        assert false;
      }
      SizeSteps(g, l);
      FirstBlock(g, l);
      SecondBlock(g, l);
      Overlap(g, l);
      assert false;
    }
  }

  /** No quarter reaches into a block that it was not cut from, in exactly the same pools. */
  lemma SeparateIff(g: Geometry)
    requires Defined(g)
    ensures Separate(g) <==> Regular(g)
  {
    if Regular(g) {
      RegularSeparate(g);
    }
    if Separate(g) {
      SeparateTop(g);
      forall l | 0 <= l < g.nLevels - 1 ensures RegularLevel(g, l) {
        SeparateLevel(g, l);
      }
    }
  }

  // ---------- the buffer ----------

  lemma {:induction false} AlignedContained(g: Geometry, l: nat, a: nat)
    requires Defined(g) && g.maxSz % 4 == 0 && l < g.nLevels && IsBlock(g, l, a)
    ensures Fits(g, l, a)
  {
    if l == 0 {
      var i: nat :| i < g.nMax && a == TopAt(g, i);
      Align4Fixed(g.maxSz);
      MulMonotone(i + 1, g.nMax, g.maxSz);
    } else {
      var p: nat, i: nat :| CutFrom(g, l, a, p, i) && IsBlock(g, l - 1, p);
      AlignedContained(g, l - 1, p);
      SizeSteps(g, l);
    }
  }

  /** The largest blocks are rounded too, so the last one reaches over the end unless their size is a multiple of four. */
  lemma ContainedIff(g: Geometry)
    requires Defined(g)
    ensures Contained(g) <==> g.maxSz % 4 == 0
  {
    if g.maxSz % 4 == 0 {
      forall l, a: nat | 0 <= l < g.nLevels && IsBlock(g, l, a) ensures Fits(g, l, a) {
        AlignedContained(g, l, a);
      }
    }
    if Contained(g) {
      var last := TopAt(g, g.nMax - 1);
      assert IsBlock(g, 0, last);
      assert Fits(g, 0, last);
      Align4Fixed(g.maxSz);
      assert (g.nMax - 1) * g.maxSz + g.maxSz == g.nMax * g.maxSz;
    }
  }

  // ---------- bits ----------

  /** A bit that is touched for the block of level `l` at `a`: its own, a partner's, or one of a quarter. */
  predicate Touches(g: Geometry, l: nat, a: nat, m: nat, n: nat) {
    || (m == l && n / 4 == At(g, l, a) / 4 && (l > 0 || n == At(g, l, a)))
    || (m == l + 1 < g.nLevels && n / 4 == At(g, l, a))
  }

  /** Every bit that is touched lies in the storage of its own level. */
  ghost predicate BitsStored(g: Geometry)
    requires g.nLevels > 0
  {
    && (forall i: nat :: i < g.nMax ==> InBounds(InitCounts(g), 0, i))
    && (forall l, a: nat, m: nat, n: nat :: 0 <= l < g.nLevels && m < g.nLevels && IsBlock(g, l, a) && Touches(g, l, a, m, n) ==>
          InBounds(InitCounts(g), m, n))
  }

  /** Initialisation counts at least the blocks that fit. */
  lemma {:induction false} InitSizeBelow(g: Geometry, l: nat)
    requires Defined(g) && l < g.nLevels
    ensures 0 < InitSize(g, l) <= g.LevelSize(l)
  {
    InitSizeBounds(g, l);
    if l == 0 {
      Align4Fixed(g.maxSz);
    } else {
      InitSizeBelow(g, l - 1);
      QuarterGrows(InitSize(g, l - 1), g.LevelSize(l - 1));
    }
  }

  lemma QuarterGrows(m: nat, n: nat)
    requires m <= n
    ensures Align4(m / 4) <= Align4(n / 4)
  {
  }

  lemma CountedBlock(g: Geometry, l: nat, b: nat)
    requires Defined(g) && l < g.nLevels && (b + 1) * g.LevelSize(l) <= Bytes(g)
    ensures b < Carved(g, l)
  {
    InitSizeBelow(g, l);
    QuotientAbove(Bytes(g), b, g.LevelSize(l), InitSize(g, l));
  }

  lemma QuotientAbove(n: nat, b: nat, s: nat, z: nat)
    requires 0 < z <= s && (b + 1) * s <= n
    ensures b < n / z
  {
    MulMonotone(z, s, b + 1);
    DivMod(n, z);
    var q := n / z;
    if q <= b {
      DivNonNegative(n, z);
      MulMonotone(q + 1, b + 1, z);
    }
  }

  lemma CountedInBounds(g: Geometry, l: nat, n: nat)
    requires Defined(g) && 0 < l < g.nLevels && 4 * (n / 4) < Carved(g, l)
    ensures InBounds(InitCounts(g), l, n)
  {
    InitCountsRise(g);
    LastSmallSplits(InitCounts(g), g.nLevels, l);
    WordBelow(n, Carved(g, l));
  }

  lemma WordBelow(n: nat, count: nat)
    requires 4 * (n / 4) < count
    ensures n / 32 < Words(count) && (count < 32 ==> n / 32 == 0)
  {
    var w := n / 32;
    assert 8 * w <= n / 4;
    assert 32 * w < count;
    assert 32 * (w + 1) <= count + 31;
  }

  lemma TouchedStored(g: Geometry, l: nat, a: nat, m: nat, n: nat)
    requires Defined(g) && Regular(g) && g.nMax <= 32 && l < g.nLevels && m < g.nLevels
    requires IsBlock(g, l, a) && Touches(g, l, a, m, n)
    ensures InBounds(InitCounts(g), m, n)
  {
    RegularPlaced(g, l, a);
    if m == l + 1 {
      QuartersCounted(g, l, a);
      CountedInBounds(g, m, n);
    } else if l > 0 {
      Counted(g, l, a);
      CountedInBounds(g, l, n);
    } else {
      NumberBelow(g, a);
    }
  }

  lemma Counted(g: Geometry, l: nat, a: nat)
    requires Defined(g) && l < g.nLevels && Placed(g, l, a) && Fits(g, l, a)
    ensures At(g, l, a) < Carved(g, l)
  {
    OneMore(At(g, l, a), g.LevelSize(l));
    CountedBlock(g, l, At(g, l, a));
  }

  lemma QuartersCounted(g: Geometry, l: nat, a: nat)
    requires Defined(g) && l + 1 < g.nLevels && RegularLevel(g, l) && Placed(g, l, a)
    ensures 4 * At(g, l, a) < Carved(g, l + 1)
  {
    SmallestFits(g, l + 1);
    FirstQuarterFits(g, l, a);
    QuarterPlaced(g, l, a, 0);
    Counted(g, l + 1, a);
  }

  lemma NumberBelow(g: Geometry, a: nat)
    requires Defined(g) && Regular(g) && IsBlock(g, 0, a)
    ensures At(g, 0, a) < g.nMax
  {
    var i: nat :| i < g.nMax && a == TopAt(g, i);
    TopPlaced(g, i);
  }

  /** Free blocks have room for their nodes exactly if the smallest are not of four bytes. */
  lemma NodesFitIff(g: Geometry)
    requires Defined(g)
    ensures NodesFit(g) <==> 8 <= g.LevelSize(g.nLevels - 1)
  {
    FirstBlock(g, g.nLevels - 1);
    forall l, a: nat | 0 <= l < g.nLevels && IsBlock(g, l, a) ensures g.LevelSize(g.nLevels - 1) <= g.LevelSize(l) {
      SizesShrink(g, l, g.nLevels - 1);
    }
  }

  // ---------- ids ----------

  lemma {:induction false} NumberCounted(g: Geometry, l: nat, a: nat)
    requires Defined(g) && Regular(g) && l < g.nLevels && IsBlock(g, l, a)
    ensures At(g, l, a) < g.Count(l)
  {
    if l == 0 {
      NumberBelow(g, a);
      assert g.Count(0) == g.nMax;
    } else {
      var p: nat, i: nat :| CutFrom(g, l, a, p, i) && IsBlock(g, l - 1, p);
      NumberCounted(g, l - 1, p);
      RegularPlaced(g, l - 1, p);
      QuarterPlaced(g, l - 1, p, i);
      CountQuadruples(g, l - 1);
    }
  }

  lemma FirstQuarter(g: Geometry, l: nat, a: nat)
    requires Defined(g) && Regular(g) && 0 < l < g.nLevels && IsBlock(g, l - 1, a)
    ensures IsBlock(g, l, a) && At(g, l, a) == 4 * At(g, l - 1, a)
  {
    RegularPlaced(g, l - 1, a);
    assert QuarterAt(g, l - 1, a, 0) == a && Kept(g, l - 1, a, 0);
    QuarterPlaced(g, l - 1, a, 0);
    assert CutFrom(g, l, a, a, 0);
  }

  lemma FourTimes(n: nat, i: nat)
    requires i > 0
    ensures 4 * (n * Pow4(i - 1)) == n * Pow4(i)
  {
    Regroup(n, Pow4(i - 1));
  }

  /** The first quarters of a block, down to level `l`, are at its address. */
  lemma {:induction false} FirstQuarters(g: Geometry, k: nat, a: nat, l: nat)
    requires Defined(g) && Regular(g) && k <= l < g.nLevels && IsBlock(g, k, a)
    ensures IsBlock(g, l, a) && At(g, l, a) == At(g, k, a) * Pow4(l - k)
    decreases l - k
  {
    if k < l {
      FirstQuarters(g, k, a, l - 1);
      FirstQuarter(g, l, a);
      FourTimes(At(g, k, a), l - k);
    }
  }

  lemma SecondIs(g: Geometry, l: nat)
    requires Defined(g) && Regular(g) && g.maxSz % 4 == 0 && l < g.nLevels && 2 * g.LevelSize(l) <= Bytes(g)
    ensures IsBlock(g, l, g.LevelSize(l)) && At(g, l, g.LevelSize(l)) == 1
  {
    SecondBlock(g, l);
    SizeSteps(g, l);
    DivUnique(g.LevelSize(l), g.LevelSize(l), 1, 0);
  }

  lemma TwoFit(g: Geometry, l: nat)
    requires Defined(g) && g.maxSz % 4 == 0 && 0 < l < g.nLevels && g.nLevels > 2
    ensures 2 * g.LevelSize(l) <= Bytes(g)
  {
    SizesShrink(g, 1, l);
    Align4Fixed(g.maxSz);
    Align4Fixed(g.maxSz / 4);
    Pow4Grows(2, g.nLevels - 1);
    assert g.maxSz >= Pow4(2) == 16;
    MulMonotone(1, g.nMax, g.maxSz);
  }

  lemma Powers()
    ensures Pow4(10) == ID_BLOCKS
  {
    assert Pow4(5) == 1024;
    assert Pow4(10) == 1024 * Pow4(5);
  }

  /** With more than 2^20 smallest blocks there is one with the number 2^20. */
  lemma UnnamedBlock(g: Geometry) returns (a: nat)
    requires Defined(g) && Regular(g) && g.maxSz % 4 == 0 && g.nMax <= 32 && g.Count(g.nLevels - 1) > ID_BLOCKS
    ensures IsBlock(g, g.nLevels - 1, a) && At(g, g.nLevels - 1, a) == ID_BLOCKS
  {
    var l := g.nLevels - 1;
    Powers();
    if l > 10 {
      TwoFit(g, l - 10);
      SecondIs(g, l - 10);
      a := g.LevelSize(l - 10);
      FirstQuarters(g, l - 10, a, l);
    } else {
      var c := Pow4(10 - l);
      PowerProduct(10 - l, l);
      assert c < g.nMax by {
        if c >= g.nMax {
          MulMonotone(g.nMax, c, Pow4(l));
        }
      }
      a := TopAt(g, c);
      TopPlaced(g, c);
      FirstQuarters(g, 0, a, l);
    }
  }

  lemma {:induction false} PowerProduct(i: nat, j: nat)
    ensures Pow4(i) * Pow4(j) == Pow4(i + j)
  {
    if i > 0 {
      PowerProduct(i - 1, j);
      Regroup(Pow4(i - 1), Pow4(j));
    }
  }

  /** In regular pools ids name blocks exactly if there are at most 2^20 smallest blocks. */
  lemma IdentifiedIff(g: Geometry)
    requires Defined(g) && Regular(g) && g.maxSz % 4 == 0 && g.nMax <= 32
    ensures Identified(g) <==> g.Count(g.nLevels - 1) <= 0x10_0000
  {
    if g.Count(g.nLevels - 1) <= ID_BLOCKS {
      forall l, a: nat | 0 <= l < g.nLevels && IsBlock(g, l, a) ensures BlockId(At(g, l, a)) == At(g, l, a) {
        NumberCounted(g, l, a);
        CountGrows(g, l, g.nLevels - 1);
        IdIs(At(g, l, a));
      }
    } else {
      var a := UnnamedBlock(g);
      IdIs(At(g, g.nLevels - 1, a));
    }
  }

  lemma IdIs(bn: nat)
    ensures BlockId(bn) == bn <==> bn < ID_BLOCKS
  {
  }

  const LARGE: Geometry := Geometry(1, 0x200_0000, 12)

  lemma LargeExact()
    ensures Defined(LARGE) && LARGE.Exact() && LARGE.LevelSize(11) == 8 && LARGE.Count(11) == 4 * ID_BLOCKS
  {
    Powers();
    assert Pow4(11) == 4 * ID_BLOCKS && Pow4(12) == 16 * ID_BLOCKS;
    ExactSizes(LARGE, 11);
  }

  lemma ExactIsRegular(g: Geometry)
    requires g.Exact()
    ensures Regular(g) && g.maxSz % 4 == 0
  {
    DivPow4(g.maxSz, g.nLevels - 1);
    forall l | 0 <= l < g.nLevels - 1 ensures RegularLevel(g, l) {
      ExactSizes(g, l + 1);
    }
  }

  /** A pool of 32 MB with smallest blocks of eight bytes: the one at 8 MB has the id of the one at the start. */
  lemma SharedId(a: nat)
    requires a == 0x80_0000
    ensures Defined(LARGE) && LARGE.Exact() && IsBlock(LARGE, 11, 0) && IsBlock(LARGE, 11, a)
    ensures At(LARGE, 11, a) == ID_BLOCKS && BlockId(At(LARGE, 11, a)) == BlockId(At(LARGE, 11, 0)) == 0
  {
    LargeExact();
    ExactIsRegular(LARGE);
    var b := UnnamedBlock(LARGE);
    RegularPlaced(LARGE, 11, b);
    FirstBlock(LARGE, 11);
  }

  // ---------- all together ----------

  /**
    At most 32 top-level blocks, whose size is a multiple of four, with regular levels, no blocks of four bytes and
    at most 2^20 of the smallest.
   */
  predicate Sound(g: Geometry) {
    && Defined(g) && g.maxSz % 4 == 0 && Regular(g) && g.nMax <= 32
    && NODE_SIZE <= g.LevelSize(g.nLevels - 1) && g.Count(g.nLevels - 1) <= ID_BLOCKS
  }

  /**
    What allocation relies on: blocks inside the buffer, none reaching into another, each with room for a list node
    and an id of its own, and every bit in its level's storage. It holds exactly for the pools that are `Sound`.
   */
  lemma SoundIff(g: Geometry)
    requires Defined(g)
    ensures Contained(g) && Separate(g) && Numbered(g) && NodesFit(g) && Identified(g) && BitsStored(g) <==> Sound(g)
  {
    NodesFitIff(g);
    if g.maxSz % 4 == 0 && Regular(g) && g.nMax <= 32 {
      IdentifiedIff(g);
    }
    ContainedIff(g);
    SeparateIff(g);
    NumberedIff(g);
    if Regular(g) && g.nMax <= 32 {
      forall l, a: nat, m: nat, n: nat |
        0 <= l < g.nLevels && m < g.nLevels && IsBlock(g, l, a) && Touches(g, l, a, m, n)
        ensures InBounds(InitCounts(g), m, n)
      {
        TouchedStored(g, l, a, m, n);
      }
    }
    if BitsStored(g) {
      assert InBounds(InitCounts(g), 0, g.nMax - 1);
    }
  }

  /** In such a pool no shift of the sizing macros, which goes up to level `n_levels`, overflows an int. */
  lemma SoundShiftsFit(g: Geometry, l: nat)
    requires Sound(g) && l <= g.nLevels
    ensures g.Count(l) < 0x8000_0000
  {
    CountGrows(g, l, g.nLevels);
    CountQuadruples(g, g.nLevels - 1);
  }

  /** Then no two blocks share a bit. */
  lemma OwnBit(g: Geometry, l: nat, a: nat, m: nat, c: nat)
    requires Defined(g) && Regular(g) && g.nMax <= 32
    requires l < g.nLevels && m < g.nLevels && IsBlock(g, l, a) && IsBlock(g, m, c)
    ensures Place(InitCounts(g), l, At(g, l, a)) == Place(InitCounts(g), m, At(g, m, c)) <==> l == m && a == c
  {
    TouchedStored(g, l, a, l, At(g, l, a));
    TouchedStored(g, m, c, m, At(g, m, c));
    PlacesDistinct(InitCounts(g), l, At(g, l, a), m, At(g, m, c));
    RegularPlaced(g, l, a);
    RegularPlaced(g, m, c);
  }

  // ---------- pools that are not regular ----------

  /**
    Two blocks of 52 bytes and quarters of 16: the last quarter of the first block, at byte 48, reaches into the
    second block. Both have number 3, and freeing the first quarter of the second lists byte 48 instead of 52.
   */
  lemma OverlappingQuarter(g: Geometry)
    requires g == Geometry(2, 52, 2)
    ensures Defined(g) && g.maxSz % 4 == 0 && !Regular(g) && IsBlock(g, 0, 0) && IsBlock(g, 0, 52)
    ensures Kept(g, 0, 0, 3) && QuarterAt(g, 0, 0, 3) == 48 && !Apart(48, g.LevelSize(1), 52, g.LevelSize(0))
    ensures Kept(g, 0, 52, 0) && At(g, 1, 48) == 3 == At(g, 1, 52) && At(g, 1, 52) * g.LevelSize(1) == 48
  {
    assert Pow4(1) == 4;
    assert g.LevelSize(0) == 52;
    assert g.LevelSize(1) == 16;
    assert TopAt(g, 0) == 0 && TopAt(g, 1) == 52;
    assert !RegularLevel(g, 0);
  }

  /** One block of 50 bytes: it is rounded to 52, does not fit, and is not listed again once it is freed. */
  lemma LostBlock(g: Geometry)
    requires g == Geometry(1, 50, 1)
    ensures Defined(g) && Regular(g) && IsBlock(g, 0, 0) && !Fits(g, 0, 0)
  {
    assert TopAt(g, 0) == 0;
    assert g.LevelSize(0) == 52;
  }
}
