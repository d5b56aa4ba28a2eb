/**
  Where the pool keeps its free bits: one word inside the level record for the upper
  levels, and an area behind the buffer for the others. What `init_mem_pool` carves out
  of that area against the bits that are used and against what the sizing macros reserve.
 */
module PoolBitmap {
  import opened Arithmetic
  import opened PoolGeometry

  /** The address of a bit: in a level's own word(s), or in the area behind the buffer. */
  datatype BitPlace = Inline(level: nat, word: nat, bit: nat) | InArea(word: nat, bit: nat)

  /** A geometry as the definition macros make it: up to 16 levels, the smallest at least one byte before rounding. */
  predicate Defined(g: Geometry) {
    g.nMax > 0 && 0 < g.nLevels <= 16 && g.maxSz >= Pow4(g.nLevels - 1)
  }

  // ---------- the blocks that initialisation counts ----------

  /** The block size of a level in the loop of `init_mem_pool`; unlike `LevelSize` it does not round the largest size. */
  function InitSize(g: Geometry, l: nat): nat {
    if l == 0 then g.maxSz else Align4(InitSize(g, l - 1) / 4)
  }

  /** `nblocks`. */
  function Carved(g: Geometry, l: nat): nat {
    if InitSize(g, l) == 0 then 0 else DivNonNegative(Bytes(g), InitSize(g, l)); Bytes(g) / InitSize(g, l)
  }

  /** Sizes shrink but stay positive, and all quarters together lose less than four bytes of the largest block. */
  lemma {:induction false} InitSizeBounds(g: Geometry, l: nat)
    requires Defined(g) && l < g.nLevels
    ensures InitSize(g, l) > 0 && g.maxSz < InitSize(g, l) * Pow4(l) + 4
    ensures l > 0 ==> 4 <= InitSize(g, l) <= InitSize(g, l - 1) && InitSize(g, l) % 4 == 0
  {
    if l > 0 {
      InitSizeBounds(g, l - 1);
      var up, s := InitSize(g, l - 1), InitSize(g, l);
      if l == 1 {
        Pow4Grows(1, g.nLevels - 1);
        assert up >= Pow4(1) == 4;
      }
      Align4Fixed(up / 4);
      Regroup(s, Pow4(l - 1));
      if l > 1 {
        MulMonotone(up, 4 * s, Pow4(l - 1));
      }
    }
  }

  lemma {:induction false} Pow4Grows(k: nat, l: nat)
    requires k <= l
    ensures Pow4(k) <= Pow4(l)
    decreases l - k
  {
    if k < l {
      Pow4Grows(k, l - 1);
    }
  }

  /** Rounding can add only few blocks to a level. */
  lemma CarvedAtMost(g: Geometry, l: nat)
    requires Defined(g) && l < g.nLevels
    ensures 0 < Carved(g, l) && 4 * Carved(g, l) <= 4 * g.Count(l) + 3 * g.nMax
  {
    var s, c, n := InitSize(g, l), Carved(g, l), g.Count(l);
    InitSizeBounds(g, l);
    DivMod(Bytes(g), s);
    if l == 0 {
      DivUnique(Bytes(g), s, g.nMax, 0);
    } else {
      SmallestFits(g, l);
      BytesAtMost(g.nMax, g.maxSz, s, Pow4(l));
      FewMore(c, n, s, 3 * g.nMax);
    }
  }

  lemma {:induction false} SizeAtMost(g: Geometry, l: nat)
    requires Defined(g) && l < g.nLevels
    ensures 0 < InitSize(g, l) <= g.maxSz
  {
    InitSizeBounds(g, l);
    if l > 0 {
      SizeAtMost(g, l - 1);
    }
  }

  lemma SmallestFits(g: Geometry, l: nat)
    requires Defined(g) && l < g.nLevels
    ensures 0 < Carved(g, l)
  {
    SizeAtMost(g, l);
    MulMonotone(1, g.nMax, g.maxSz);
    DivPositive(Bytes(g), InitSize(g, l));
  }

  lemma DivPositive(n: nat, s: nat)
    requires 0 < s <= n
    ensures n / s > 0
  {
    DivMod(n, s);
  }

  lemma BytesAtMost(n: nat, size: nat, s: nat, p: nat)
    requires size < s * p + 4
    ensures n * size <= (n * p) * s + 3 * n
  {
    MulMonotone(size, s * p + 3, n);
    MulSwap(n, p, s);
  }

  lemma FewMore(c: nat, n: nat, s: nat, k: nat)
    requires s >= 4 && c * s <= n * s + k
    ensures 4 * c <= 4 * n + k
  {
    if c > n {
      assert (c - n) * s == c * s - n * s;
      MulMonotone(4, s, c - n);
    }
  }

  /** Lower levels have no fewer blocks. */
  lemma {:induction false} CarvedGrows(g: Geometry, k: nat, l: nat)
    requires Defined(g) && k <= l < g.nLevels
    ensures Carved(g, k) <= Carved(g, l)
    decreases l - k
  {
    if k < l {
      CarvedGrows(g, k, l - 1);
      InitSizeBounds(g, l - 1);
      InitSizeBounds(g, l);
      SmallerMore(Bytes(g), InitSize(g, l - 1), InitSize(g, l));
    }
  }

  lemma SmallerMore(n: nat, s: nat, t: nat)
    requires 0 < t <= s
    ensures n / s <= n / t
  {
    DivMod(n, s);
    DivMod(n, t);
    DivNonNegative(n, s);
    var q, r := n / s, n / t;
    MulMonotone(t, s, q);
    assert (q - r) * t == q * t - r * t;
    if r < q {
      MulAtLeast(q - r, t);
    }
  }

  /** In an exact geometry the blocks counted are the blocks used. */
  lemma {:induction false} ExactCarved(g: Geometry, l: nat)
    requires g.Exact() && l < g.nLevels
    ensures InitSize(g, l) == g.LevelSize(l) && Carved(g, l) == g.Count(l)
  {
    if l == 0 {
      ExactSizes(g, 0);
    } else {
      ExactCarved(g, l - 1);
    }
    LevelFillsBuffer(g, l);
    DivUnique(Bytes(g), g.LevelSize(l), g.Count(l), 0);
  }

  /** The block counts of all levels. */
  function InitCounts(g: Geometry): seq<nat> {
    seq(g.nLevels, l requires 0 <= l < g.nLevels => Carved(g, l))
  }

  lemma InitCount(g: Geometry, l: nat)
    requires Defined(g) && l < g.nLevels
    ensures InitSize(g, l) > 0 && Bytes(g) / InitSize(g, l) == InitCounts(g)[l]
  {
    InitSizeBounds(g, l);
  }

  // ---------- where a bit is ----------

  /** The last of the levels below `n` with fewer than 32 blocks; 0, the initial value, if there is none. */
  function LastSmall(counts: seq<nat>, n: nat): nat
    requires n <= |counts|
  {
    if n == 0 then 0 else if counts[n - 1] < 32 then n - 1 else LastSmall(counts, n - 1)
  }

  /** `max_inline_level` after initialisation. */
  function MaxInline(counts: seq<nat>): nat {
    LastSmall(counts, |counts|)
  }

  function Words(n: nat): nat {
    (n + 31) / 32
  }

  /** The words that `init_mem_pool` sets aside for a level. */
  function AreaWords(counts: seq<nat>, l: nat): nat
    requires l < |counts|
  {
    if counts[l] < 32 then 0 else Words(counts[l])
  }

  function AreaStart(counts: seq<nat>, l: nat): nat
    requires l <= |counts|
  {
    if l == 0 then 0 else AreaStart(counts, l - 1) + AreaWords(counts, l - 1)
  }

  /** `get_bit_ptr`. */
  function Place(counts: seq<nat>, l: nat, b: nat): BitPlace
    requires l < |counts|
  {
    if l <= MaxInline(counts) then Inline(l, b / 32, b % 32)
    else InArea(AreaStart(counts, l) + b / 32, b % 32)
  }

  /** The place lies in the storage of its own level. */
  predicate InBounds(counts: seq<nat>, l: nat, b: nat)
    requires l < |counts|
  {
    if l <= MaxInline(counts) then b / 32 == 0 else b / 32 < AreaWords(counts, l)
  }

  predicate Rising(counts: seq<nat>) {
    forall i, j :: 0 <= i <= j < |counts| ==> counts[i] <= counts[j]
  }

  lemma InitCountsRise(g: Geometry)
    requires Defined(g)
    ensures Rising(InitCounts(g))
  {
    forall i, j | 0 <= i <= j < g.nLevels
      ensures InitCounts(g)[i] <= InitCounts(g)[j]
    {
      CarvedGrows(g, i, j);
    }
  }

  lemma {:induction false} LastSmallSplits(counts: seq<nat>, n: nat, l: nat)
    requires Rising(counts) && l < n <= |counts|
    ensures LastSmall(counts, n) < l ==> counts[l] >= 32
    ensures l <= LastSmall(counts, n) && 0 < LastSmall(counts, n) ==> counts[l] < 32
    ensures LastSmall(counts, n) < n
  {
    if counts[n - 1] >= 32 {
      if l < n - 1 {
        LastSmallSplits(counts, n - 1, l);
      } else if n > 1 {
        LastSmallSplits(counts, n - 1, n - 2);
      }
    }
  }

  lemma CountPositive(g: Geometry, l: nat)
    requires g.nMax > 0
    ensures g.Count(l) >= g.nMax
  {
    MulAtLeast(g.nMax, Pow4(l));
    MulMonotone(1, Pow4(l), g.nMax);
  }

  /** The counts of a level are the blocks that are used. */
  predicate Exactly(g: Geometry, counts: seq<nat>) {
    |counts| == g.nLevels && forall l :: 0 <= l < g.nLevels ==> counts[l] == g.Count(l)
  }

  lemma ExactRises(g: Geometry, counts: seq<nat>)
    requires Exactly(g, counts)
    ensures Rising(counts)
  {
    forall i, j | 0 <= i <= j < |counts|
      ensures counts[i] <= counts[j]
    {
      CountGrows(g, i, j);
    }
  }

  lemma PlaceInBounds(g: Geometry, counts: seq<nat>, l: nat, b: nat)
    requires Exactly(g, counts) && 0 < g.nMax <= 32 && l < g.nLevels && b < g.Count(l)
    ensures InBounds(counts, l, b)
  {
    ExactRises(g, counts);
    LastSmallSplits(counts, |counts|, l);
    assert g.Count(0) == g.nMax;
  }

  lemma ExactCounts(g: Geometry)
    requires g.Exact()
    ensures Exactly(g, InitCounts(g))
  {
    forall l | 0 <= l < g.nLevels
      ensures InitCounts(g)[l] == g.Count(l)
    {
      ExactCarved(g, l);
    }
  }

  lemma {:induction false} AreaStartGrows(counts: seq<nat>, k: nat, l: nat)
    requires k < l <= |counts|
    ensures AreaStart(counts, k) + AreaWords(counts, k) <= AreaStart(counts, l)
    decreases l - k
  {
    if k < l - 1 {
      AreaStartGrows(counts, k, l - 1);
    }
  }

  ghost predicate AllInBounds(g: Geometry) {
    forall l, b: nat :: 0 <= l < g.nLevels && b < g.Count(l) ==> InBounds(InitCounts(g), l, b)
  }

  /** In an exact pool every free bit has storage of its own exactly when there are at most 32 top-level blocks. */
  lemma InBoundsIff(g: Geometry)
    requires g.Exact()
    ensures AllInBounds(g) <==> g.nMax <= 32
  {
    ExactCounts(g);
    assert g.Count(0) == g.nMax;
    if g.nMax <= 32 {
      forall l, b: nat | 0 <= l < g.nLevels && b < g.Count(l)
        ensures InBounds(InitCounts(g), l, b)
      {
        PlaceInBounds(g, InitCounts(g), l, b);
      }
    }
    if AllInBounds(g) {
      assert InBounds(InitCounts(g), 0, g.nMax - 1);
    }
  }

  /** Two bits that each lie in the storage of their own level are different bits. */
  lemma PlacesDistinct(counts: seq<nat>, l: nat, b: nat, m: nat, c: nat)
    requires l < |counts| && m < |counts| && InBounds(counts, l, b) && InBounds(counts, m, c)
    ensures Place(counts, l, b) == Place(counts, m, c) <==> l == m && b == c
  {
    if l < m {
      AreaStartGrows(counts, l, m);
    } else if m < l {
      AreaStartGrows(counts, m, l);
    }
  }

  /** A pool of one 1280-byte block and six levels. */
  const ROUNDED: Geometry := Geometry(1, 1280, 6)

  lemma RoundedSizes()
    ensures InitSize(ROUNDED, 0) == 1280 && InitSize(ROUNDED, 1) == 320 && InitSize(ROUNDED, 2) == 80
    ensures InitSize(ROUNDED, 3) == 20 && InitSize(ROUNDED, 4) == 8 && InitSize(ROUNDED, 5) == 4
    ensures Pow4(2) == 16 && Pow4(3) == 64 && Pow4(4) == 256 && Pow4(5) == 1024
  {
    assert InitSize(ROUNDED, 1) == 320;
    assert InitSize(ROUNDED, 2) == 80;
    assert InitSize(ROUNDED, 3) == 20;
    assert InitSize(ROUNDED, 4) == 8;
    assert Pow4(2) == 16;
    assert Pow4(3) == 64;
    assert Pow4(4) == 256;
  }

  lemma RoundedCounts()
    ensures Carved(ROUNDED, 0) == 1 && Carved(ROUNDED, 1) == 4 && Carved(ROUNDED, 2) == 16
    ensures Carved(ROUNDED, 3) == 64 && Carved(ROUNDED, 4) == 160 && Carved(ROUNDED, 5) == 320
  {
    RoundedSizes();
    assert Bytes(ROUNDED) == 1280;
  }

  /**
    There breaking the last block of level 3 sets a bit of level 4 that lies behind the words of that level,
    where block 95 of level 5 has its own.
   */
  lemma SharedBit()
    ensures Defined(ROUNDED) && ROUNDED.nMax <= 32 && ROUNDED.LevelSize(3) == 20 && 64 * 20 <= Bytes(ROUNDED)
    ensures !InBounds(InitCounts(ROUNDED), 4, 4 * 63 + 3)
    ensures Place(InitCounts(ROUNDED), 4, 4 * 63 + 3) == Place(InitCounts(ROUNDED), 5, 95)
    ensures InBounds(InitCounts(ROUNDED), 5, 95)
  {
    var counts := InitCounts(ROUNDED);
    RoundedSizes();
    RoundedCounts();
    RoundedQuarters(ROUNDED);
    assert counts == [1, 4, 16, 64, 160, 320];
    assert LastSmall(counts, 3) == 2 && LastSmall(counts, 4) == 2 && LastSmall(counts, 5) == 2 && MaxInline(counts) == 2;
    assert AreaStart(counts, 3) == 0 && AreaStart(counts, 4) == 2 && AreaStart(counts, 5) == 7 by {
      assert AreaStart(counts, 1) == 0 && AreaStart(counts, 2) == 0;
    }
  }

  /** A pool of 33 blocks that are not split: the bit of the last one lies behind the word of its level. */
  lemma ThirtyThreeBlocks(g: Geometry)
    requires g == Geometry(33, 8, 1)
    ensures Defined(g) && g.Exact() && 32 < g.Count(0) && !InBounds(InitCounts(g), 0, 32)
  {
    assert Pow4(1) == 4;
    assert g.Count(0) == 33;
    assert InitCounts(g)[0] == 33;
  }

  // ---------- the reservation ----------

  /** `_MPOOL_LBIT_WORDS`: nothing is reserved for a level whose bits fit one word. */
  function ReservedWords(g: Geometry, l: nat): nat {
    if Words(g.Count(l)) < 2 then 0 else Words(g.Count(l))
  }

  /** `_MPOOL_BITS_SIZE` in words: the sum runs over levels 0 to 15 and includes level `n_levels` itself. */
  function Reserved(g: Geometry, n: nat): nat {
    if n == 0 then 0 else Reserved(g, n - 1) + (if n - 1 <= g.nLevels then ReservedWords(g, n - 1) else 0)
  }

  lemma CountQuadruples(g: Geometry, l: nat)
    ensures g.Count(l + 1) == 4 * g.Count(l)
  {
    Regroup(g.nMax, Pow4(l));
  }

  lemma {:induction false} CountGrows(g: Geometry, k: nat, l: nat)
    requires k <= l
    ensures g.Count(k) <= g.Count(l)
    ensures k < l ==> 4 * g.Count(k) <= g.Count(l)
    decreases l - k
  {
    if k < l {
      CountQuadruples(g, l - 1);
      CountGrows(g, k, l - 1);
    }
  }

  /** The level with exactly 32 blocks, for which a word is carved but none reserved. */
  ghost predicate HasFullWordLevel(g: Geometry, n: nat) {
    exists l: nat :: l < n && g.Count(l) == 32
  }

  /** In an exact geometry the carved words are the reserved ones, and one more for a level of 32 blocks. */
  lemma {:induction false} CarvedAgainstReserved(g: Geometry, n: nat)
    requires g.Exact() && n <= g.nLevels
    ensures AreaStart(InitCounts(g), n) == Reserved(g, n) + (if HasFullWordLevel(g, n) then 1 else 0)
  {
    if n > 0 {
      CarvedAgainstReserved(g, n - 1);
      ExactCarved(g, n - 1);
      if l: nat :| l < n - 1 && g.Count(l) == 32 {
        CountGrows(g, l, n - 1);
      }
      if l: nat :| l < n && g.Count(l) == 32 {
        assert l == n - 1 || HasFullWordLevel(g, n - 1);
      }
    }
  }

  lemma {:induction false} ReservedGrows(g: Geometry, n: nat, m: nat)
    requires n <= m
    ensures Reserved(g, n) <= Reserved(g, m)
    decreases m - n
  {
    if n < m {
      ReservedGrows(g, n, m - 1);
    }
  }

  /** All levels above one together carve no more than a bit per block of that one. */
  lemma {:induction false} CarvedBelowNext(g: Geometry, n: nat)
    requires Defined(g) && n <= g.nLevels
    ensures AreaStart(InitCounts(g), n) <= g.Count(n) / 32
    ensures g.Count(n) < 64 ==> AreaStart(InitCounts(g), n) == 0
  {
    if n > 0 {
      var x, c := g.Count(n - 1), Carved(g, n - 1);
      CarvedBelowNext(g, n - 1);
      CarvedAtMost(g, n - 1);
      CountPositive(g, n - 1);
      CountQuadruples(g, n - 1);
      assert c <= 2 * x;
    }
  }

  /** By how many words the reservation of `n` levels can be short, with up to three top-level blocks. */
  function Short(g: Geometry, n: nat): nat {
    if g.nMax == 1 then 0 else 2 * n
  }

  lemma LevelShort(g: Geometry, l: nat)
    requires Defined(g) && l < g.nLevels && g.nMax <= 3
    ensures AreaWords(InitCounts(g), l) <= ReservedWords(g, l) + Short(g, 1)
  {
    CarvedAtMost(g, l);
    if g.nMax == 1 {
      assert Pow4(2) == 16 && Pow4(3) == 64;
      if l <= 2 {
        CountGrows(g, l, 2);
      } else {
        CountGrows(g, 3, l);
      }
    }
  }

  lemma {:induction false} LevelsShort(g: Geometry, n: nat)
    requires Defined(g) && n <= g.nLevels && g.nMax <= 3
    ensures AreaStart(InitCounts(g), n) <= Reserved(g, n) + Short(g, n)
  {
    if n > 0 {
      LevelsShort(g, n - 1);
      LevelShort(g, n - 1);
    }
  }

  lemma Pow4Of15()
    ensures Pow4(15) == 0x4000_0000
  {
    assert Pow4(3) == 64;
    assert Pow4(6) == 64 * Pow4(3);
    assert Pow4(9) == 64 * Pow4(6);
    assert Pow4(12) == 64 * Pow4(9);
    assert Pow4(15) == 64 * Pow4(12);
  }

  /** The last of 16 levels has no more blocks than a quarter of the addresses. */
  lemma LastOfSixteen(g: Geometry)
    requires Defined(g) && g.nLevels == 16 && Bytes(g) < 0x1_0000_0000
    ensures g.nMax <= 3 && AreaWords(InitCounts(g), 15) <= 0x200_0000 && ReservedWords(g, 15) == g.nMax * 0x200_0000
  {
    Pow4Of15();
    FewLargest(g.nMax, g.maxSz);
    InitSizeBounds(g, 15);
    AtMostQuarter(Bytes(g), InitSize(g, 15));
    assert g.Count(15) == g.nMax * 0x4000_0000;
    ReservedOf(g.nMax);
  }

  lemma FewLargest(n: nat, size: nat)
    requires size >= 0x4000_0000 && n * size < 0x1_0000_0000
    ensures n <= 3
  {
    if n >= 4 {
      MulMonotone(4, n, size);
    }
  }

  lemma AtMostQuarter(n: nat, s: nat)
    requires n < 0x1_0000_0000 && s >= 4
    ensures 0 <= n / s <= 0x4000_0000 && Words(n / s) <= 0x200_0000
  {
    var q := n / s;
    DivMod(n, s);
    DivNonNegative(n, s);
    MulMonotone(4, s, q);
  }

  lemma ReservedOf(n: nat)
    requires n <= 3
    ensures Words(n * 0x4000_0000) == n * 0x200_0000
  {
  }

  lemma SixteenLevels(g: Geometry)
    requires Defined(g) && g.nLevels == 16 && Bytes(g) < 0x1_0000_0000
    ensures AreaStart(InitCounts(g), 16) <= Reserved(g, 16)
  {
    LastOfSixteen(g);
    LevelsShort(g, 15);
  }

  /** The words carved for the levels always fit the reservation. */
  lemma ReservationSuffices(g: Geometry)
    requires Defined(g) && Bytes(g) < 0x1_0000_0000
    ensures AreaStart(InitCounts(g), g.nLevels) <= Reserved(g, 16)
  {
    var n := g.nLevels;
    if n == 16 {
      SixteenLevels(g);
    } else {
      CarvedBelowNext(g, n);
      ReservedGrows(g, n + 1, 16);
    }
  }

  /** In a pool of less than 512 MB no shift of the sizing macros overflows an `int`. */
  lemma ShiftsFit(g: Geometry, l: nat)
    requires Defined(g) && Bytes(g) < 0x2000_0000 && l <= g.nLevels
    ensures g.Count(l) < 0x8000_0000
  {
    CountGrows(g, l, g.nLevels);
    CountQuadruples(g, g.nLevels - 1);
    assert g.Count(g.nLevels - 1) <= Bytes(g) by { FactorGrows(g.nMax, Pow4(g.nLevels - 1), g.maxSz); }
  }

  lemma FactorGrows(n: nat, x: nat, y: nat)
    requires x <= y
    ensures n * x <= n * y
  {
  }

  /** That level exists exactly for 2, 8 or 32 top-level blocks and levels enough. */
  lemma FullWordLevelIff(g: Geometry, n: nat)
    ensures HasFullWordLevel(g, n) <==> (g.nMax == 2 && n > 2) || (g.nMax == 8 && n > 1) || (g.nMax == 32 && n > 0)
  {
    assert Pow4(1) == 4 && Pow4(2) == 16 && Pow4(3) == 64;
    if l: nat :| l < n && g.Count(l) == 32 {
      if l >= 3 {
        CountGrows(g, 3, l);
      } else {
        assert l == 0 || l == 1 || l == 2;
      }
    }
    assert g.nMax == 2 ==> g.Count(2) == 32;
    assert g.nMax == 8 ==> g.Count(1) == 32;
    assert g.nMax == 32 ==> g.Count(0) == 32;
  }
}
