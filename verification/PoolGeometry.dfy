/**
  Sizes of the quad-buddy memory pool: block sizes per level, and which block of a level
  a byte of the buffer lies in.
 */
module PoolGeometry {
  import opened Arithmetic

  function Pow4(n: nat): (p: nat)
    ensures p > 0
  {
    if n == 0 then 1 else 4 * Pow4(n - 1)
  }

  /** `_ALIGN4`. */
  function Align4(n: nat): nat {
    (n + 3) / 4 * 4
  }

  /** `n_max` blocks of `max_sz` bytes, split into quarters down to level `n_levels - 1`. */
  datatype Geometry = Geometry(nMax: nat, maxSz: nat, nLevels: nat) {

    /** The size of a level as the code computes it, rounded up to a multiple of four. */
    function LevelSize(l: nat): nat {
      if l == 0 then Align4(maxSz) else Align4(LevelSize(l - 1) / 4)
    }

    /** The number of blocks of a level. */
    function Count(l: nat): nat {
      nMax * Pow4(l)
    }

    /** Every level's blocks are exact quarters of the blocks above. */
    predicate Exact() {
      nMax > 0 && maxSz > 0 && nLevels > 0 && maxSz % Pow4(nLevels) == 0
    }
  }

  // ---------- rounding ----------

  lemma Align4Fixed(n: nat)
    ensures Align4(n) == n <==> n % 4 == 0
    ensures Align4(n) % 4 == 0 && n <= Align4(n) < n + 4
  {
  }

  lemma {:induction false} DivPow4(n: nat, k: nat)
    requires n % Pow4(k + 1) == 0
    ensures n % 4 == 0 && (n / 4) % Pow4(k) == 0
  {
    var p, q := Pow4(k), n / Pow4(k + 1);
    assert n == 4 * p * q;
    assert n == 4 * (p * q) && n / 4 == p * q;
    assert (p * q) % p == 0 by { ModOfMultiple(q, p); }
  }

  lemma ModOfMultiple(q: nat, p: nat)
    requires p > 0
    ensures (p * q) % p == 0
  {
    assert p * q == q * p + 0;
    DivUnique(p * q, p, q, 0);
  }

  /** The rounding of the level sizes is harmless: they are the exact quarters. */
  lemma {:induction false} ExactSizes(g: Geometry, l: nat)
    requires g.Exact() && l < g.nLevels
    ensures g.LevelSize(l) > 0 && g.LevelSize(l) * Pow4(l) == g.maxSz
    ensures g.LevelSize(l) % Pow4(g.nLevels - l) == 0
    ensures l > 0 ==> g.LevelSize(l - 1) == 4 * g.LevelSize(l)
  {
    if l == 0 {
      DivPow4(g.maxSz, g.nLevels - 1);
      Align4Fixed(g.maxSz);
    } else {
      ExactSizes(g, l - 1);
      var up := g.LevelSize(l - 1);
      DivPow4(up, g.nLevels - l);
      DivPow4(up / 4, g.nLevels - l - 1);
      Align4Fixed(up / 4);
      Regroup(g.LevelSize(l), Pow4(l - 1));
    }
  }

  lemma Regroup(s: nat, p: nat)
    ensures s * (4 * p) == (4 * s) * p
  {
  }

  ghost predicate QuartersExactly(g: Geometry) {
    g.LevelSize(0) == g.maxSz && forall l :: 0 < l < g.nLevels ==> g.LevelSize(l - 1) == 4 * g.LevelSize(l)
  }

  /**
    The pool relies on four blocks of a level filling one of the level above. Its rounding
    to multiples of four keeps that exactly when `4^n_levels` divides `max_sz`.
   */
  lemma RoundingIsExactIff(g: Geometry)
    requires g.nMax > 0 && g.maxSz > 0 && g.nLevels > 0
    ensures QuartersExactly(g) <==> g.maxSz % Pow4(g.nLevels) == 0
  {
    if g.Exact() {
      forall l | 0 <= l < g.nLevels ensures l > 0 ==> g.LevelSize(l - 1) == 4 * g.LevelSize(l) {
        ExactSizes(g, l);
      }
      ExactSizes(g, 0);
    }
    if QuartersExactly(g) {
      var last := g.nLevels - 1;
      QuarterProduct(g, last);
      Align4Fixed(if last == 0 then g.maxSz else g.LevelSize(last - 1) / 4);
      var q := g.LevelSize(last) / 4;
      assert g.maxSz == (4 * q) * Pow4(last) == q * Pow4(g.nLevels);
      ModOfMultiple(q, Pow4(g.nLevels));
    }
  }

  /** One block of 1280 bytes and six levels: the blocks of level 4 are 8 bytes long, those of level 3 are 20. */
  lemma RoundedQuarters(g: Geometry)
    requires g == Geometry(1, 1280, 6)
    ensures g.LevelSize(3) == 20 && g.LevelSize(4) == 8 && !QuartersExactly(g)
  {
    assert g.LevelSize(1) == 320;
    assert g.LevelSize(2) == 80;
    assert g.LevelSize(3) == 20;
  }

  lemma {:induction false} QuarterProduct(g: Geometry, l: nat)
    requires QuartersExactly(g) && l < g.nLevels
    ensures g.LevelSize(l) * Pow4(l) == g.maxSz
  {
    if l > 0 {
      QuarterProduct(g, l - 1);
      Regroup(g.LevelSize(l), Pow4(l - 1));
    }
  }

  // ---------- blocks and bytes ----------

  /** `block_num`: the block of level `l` that byte `o` of the buffer lies in. */
  function At(g: Geometry, l: nat, o: nat): nat {
    if g.LevelSize(l) == 0 then 0 else DivNonNegative(o, g.LevelSize(l)); o / g.LevelSize(l)
  }

  function Bytes(g: Geometry): nat {
    g.nMax * g.maxSz
  }

  lemma DivBy4(o: nat, s: nat)
    requires s > 0
    ensures (o / s) / 4 == o / (4 * s)
  {
    var q, r := o / s, o % s;
    DivMod(o, s);
    var u, v := q / 4, q % 4;
    assert q * s == (4 * u + v) * s == u * (4 * s) + v * s;
    MulMonotone(v, 3, s);
    DivUnique(o, 4 * s, u, v * s + r);
  }

  lemma AtUp(g: Geometry, l: nat, o: nat)
    requires g.Exact() && 0 < l < g.nLevels
    ensures At(g, l, o) / 4 == At(g, l - 1, o)
  {
    ExactSizes(g, l);
    ExactSizes(g, l - 1);
    DivBy4(o, g.LevelSize(l));
  }

  /** The blocks of a level fill the buffer. */
  lemma LevelFillsBuffer(g: Geometry, l: nat)
    requires g.Exact() && l < g.nLevels
    ensures g.LevelSize(l) > 0 && g.Count(l) * g.LevelSize(l) == Bytes(g)
  {
    ExactSizes(g, l);
    MulSwap(g.nMax, Pow4(l), g.LevelSize(l));
  }

  lemma MulSwap(n: nat, p: nat, s: nat)
    ensures (n * p) * s == n * (s * p)
  {
  }

  lemma AtInRange(g: Geometry, l: nat, o: nat)
    requires g.Exact() && l < g.nLevels && o < Bytes(g)
    ensures At(g, l, o) < g.Count(l)
  {
    LevelFillsBuffer(g, l);
    DivBelow(o, g.LevelSize(l), g.Count(l));
  }

  lemma DivBelow(o: nat, s: nat, n: nat)
    requires s > 0 && o < n * s
    ensures o / s < n
  {
    DivMod(o, s);
    if n <= o / s {
      MulMonotone(n, o / s, s);
    }
  }

  /** `block_ptr`: the first byte of a block, which lies in that block and in the buffer. */
  lemma AtStart(g: Geometry, l: nat, b: nat)
    requires g.Exact() && l < g.nLevels && b < g.Count(l)
    ensures g.LevelSize(l) > 0
    ensures At(g, l, b * g.LevelSize(l)) == b && (b + 1) * g.LevelSize(l) <= Bytes(g)
  {
    LevelFillsBuffer(g, l);
    DivUnique(b * g.LevelSize(l), g.LevelSize(l), b, 0);
    MulMonotone(b + 1, g.Count(l), g.LevelSize(l));
  }
}
