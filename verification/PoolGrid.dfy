/**
  The pools that work, as exact grids of blocks that may reach over the end of the buffer: a pool of
  one block has at most four quarters, of which the last need not fit.
 */
module PoolGrid {
  import opened Arithmetic
  import opened PoolGeometry
  import opened PoolBitmap
  import opened PoolProtocol
  import opened PoolRounding

  /** The blocks of the pool, with all four quarters of every block. */
  function Grid(g: Geometry): Geometry {
    if g.nLevels == 0 then g else Geometry(g.nMax, g.LevelSize(g.nLevels - 1) * Pow4(g.nLevels - 1), g.nLevels)
  }

  /** How many blocks of each level fit the buffer. */
  function Caps(g: Geometry): seq<nat> {
    CapsTo(g, g.nLevels)
  }

  function CapsTo(g: Geometry, n: nat): (cap: seq<nat>)
    ensures |cap| == n
  {
    if n == 0 then [] else CapsTo(g, n - 1) + [At(g, n - 1, Bytes(g))]
  }

  lemma {:induction false} CapAt(g: Geometry, n: nat, l: nat)
    requires l < n
    ensures CapsTo(g, n)[l] == At(g, l, Bytes(g))
  {
    if l < n - 1 {
      CapAt(g, n - 1, l);
    }
  }

  // ---------- the grid ----------

  lemma GridExact(g: Geometry)
    requires Defined(g)
    ensures Grid(g).Exact()
  {
    SizeSteps(g, g.nLevels - 1);
    MultipleOfPower(g.LevelSize(g.nLevels - 1), g.nLevels - 1);
  }

  lemma MultipleOfPower(s: nat, n: nat)
    requires s >= 4 && s % 4 == 0
    ensures s * Pow4(n) > 0 && s * Pow4(n) % Pow4(n + 1) == 0
  {
    var q, p := s / 4, Pow4(n);
    assert s == 4 * q;
    Regroup(q, p);
    ModOfMultiple(q, Pow4(n + 1));
    assert s * p == Pow4(n + 1) * q;
    MulAtLeast(s, p);
  }

  /** Only the largest blocks can be cut into rounded quarters. */
  lemma OnlyTopRounded(g: Geometry, l: nat)
    requires Sound(g) && 0 < l && l + 1 < g.nLevels
    ensures g.LevelSize(l) == 4 * g.LevelSize(l + 1)
  {
    assert RegularLevel(g, l);
    SizesShrink(g, 1, l);
    Align4Fixed(g.maxSz);
    Align4Fixed(g.maxSz / 4);
    Pow4Grows(2, g.nLevels - 1);
    assert g.maxSz >= Pow4(2) == 16;
    MulMonotone(1, g.nMax, g.maxSz);
  }

  /** Below level 0 the grid has the pool's own block sizes. */
  lemma {:induction false} GridSizes(g: Geometry, l: nat)
    requires Sound(g) && 0 < l < g.nLevels
    ensures Grid(g).LevelSize(l) == g.LevelSize(l)
    decreases g.nLevels - l
  {
    GridExact(g);
    if l == g.nLevels - 1 {
      ExactSizes(Grid(g), l);
      SameFactor(Grid(g).LevelSize(l), g.LevelSize(l), Pow4(l));
    } else {
      GridSizes(g, l + 1);
      ExactSizes(Grid(g), l + 1);
      OnlyTopRounded(g, l);
    }
  }

  lemma SameFactor(x: nat, y: nat, p: nat)
    requires p > 0 && x * p == y * p
    ensures x == y
  {
    assert (x - y) * p == 0;
    MulAtLeast(x - y, p);
  }

  /** The grid of an exact pool is the pool itself. */
  lemma GridOfExact(g: Geometry)
    requires g.Exact()
    ensures Grid(g) == g && forall l :: 0 <= l < g.nLevels ==> Caps(g)[l] == g.Count(l)
  {
    ExactSizes(g, g.nLevels - 1);
    forall l | 0 <= l < g.nLevels ensures Caps(g)[l] == g.Count(l) {
      CapAt(g, g.nLevels, l);
      LevelFillsBuffer(g, l);
      DivUnique(Bytes(g), g.LevelSize(l), g.Count(l), 0);
    }
  }

  // ---------- the end of the buffer ----------

  /** `block_fits`, by number. */
  lemma CapIff(g: Geometry, l: nat, b: nat)
    requires Defined(g) && l < g.nLevels
    ensures b < Limit(Caps(g), l) <==> b * g.LevelSize(l) + g.LevelSize(l) <= Bytes(g)
  {
    SizeSteps(g, l);
    CapAt(g, g.nLevels, l);
    QuotientIff(Bytes(g), g.LevelSize(l), b);
  }

  lemma QuotientIff(n: nat, s: nat, b: nat)
    requires s > 0
    ensures b < n / s <==> b * s + s <= n
  {
    DivMod(n, s);
    DivNonNegative(n, s);
    OneMore(b, s);
    if b < n / s {
      MulMonotone(b + 1, n / s, s);
    } else {
      MulMonotone(n / s, b, s);
    }
  }

  /** The first quarter of a block that fits has its address. */
  lemma QuarterStart(g: Geometry, l: nat, b: nat)
    requires Sound(g) && l + 1 < g.nLevels && b < Limit(Caps(g), l)
    ensures b * g.LevelSize(l) == 4 * b * g.LevelSize(l + 1) && 4 * b < Limit(Caps(g), l + 1)
  {
    assert RegularLevel(g, l);
    CapIff(g, l, b);
    SizeSteps(g, l + 1);
    SameStart(b, g.LevelSize(l), g.LevelSize(l + 1), Bytes(g));
    CapIff(g, l + 1, 4 * b);
  }

  lemma SameStart(b: nat, s: nat, t: nat, bytes: nat)
    requires t <= s && (s == 4 * t || 2 * s > bytes) && b * s + s <= bytes
    ensures b * s == 4 * b * t && 4 * b * t + t <= bytes
  {
    if s == 4 * t {
      Regroup(b, t);
    } else if b > 0 {
      MulMonotone(1, b, s);
    }
  }

  lemma CapsRoomy(g: Geometry)
    requires Sound(g)
    ensures Roomy(Grid(g), Caps(g))
  {
    var cap := Caps(g);
    SizeSteps(g, 0);
    Align4Fixed(g.maxSz);
    CapAt(g, g.nLevels, 0);
    DivUnique(Bytes(g), g.maxSz, g.nMax, 0);
    forall l | 0 <= l < |cap| - 1 ensures 4 * cap[l] < cap[l + 1] + 4 {
      if cap[l] > 0 {
        QuarterStart(g, l, cap[l] - 1);
      }
    }
  }

  // ---------- bits ----------

  /** All blocks of a level of the grid together reach at most 12 bytes over the end of the buffer. */
  lemma {:induction false} GridEnds(g: Geometry, l: nat)
    requires Sound(g) && 0 < l < g.nLevels
    ensures g.Count(l) * g.LevelSize(l) <= Bytes(g) + 12
  {
    if l == 1 {
      TopQuarters(g);
    } else {
      GridEnds(g, l - 1);
      OnlyTopRounded(g, l - 1);
      CountQuadruples(g, l - 1);
      Regroup(g.Count(l - 1), g.LevelSize(l));
    }
  }

  lemma TopQuarters(g: Geometry)
    requires Sound(g) && 1 < g.nLevels
    ensures g.Count(1) * g.LevelSize(1) <= Bytes(g) + 12
  {
    var t := g.LevelSize(1);
    assert RegularLevel(g, 0);
    Align4Fixed(g.maxSz);
    Align4Fixed(g.maxSz / 4);
    CountQuadruples(g, 0);
    assert g.Count(0) == g.nMax;
    if g.LevelSize(0) == 4 * t {
      Regroup(g.nMax, t);
    } else {
      assert g.nMax == 1 by {
        if g.nMax > 1 {
          MulMonotone(2, g.nMax, g.maxSz);
        }
      }
    }
  }

  lemma FewMissing(n: nat, s: nat, bytes: nat)
    requires s >= 4 && n * s <= bytes + 12
    ensures n < bytes / s + 4
  {
    DivMod(bytes, s);
    DivNonNegative(bytes, s);
    var q := bytes / s;
    assert (q + 4) * s == q * s + 4 * s;
    if n >= q + 4 {
      MulMonotone(q + 4, n, s);
    }
  }

  lemma GroupBelow(b: nat, m: nat, count: nat)
    requires b < 4 * m < count + 4
    ensures 4 * (b / 4) < count
  {
  }

  /** Every block of the grid, whether it fits or not, has its bit in the storage of its level. */
  lemma GridInBounds(g: Geometry, l: nat, b: nat)
    requires Sound(g) && l < g.nLevels && b < g.Count(l)
    ensures InBounds(InitCounts(g), l, b)
  {
    if l == 0 {
      assert g.Count(0) == g.nMax;
    } else {
      GridEnds(g, l);
      SizeSteps(g, l);
      InitSizeIs(g, l);
      FewMissing(g.Count(l), g.LevelSize(l), Bytes(g));
      CountQuadruples(g, l - 1);
      GroupBelow(b, g.Count(l - 1), Carved(g, l));
      CountedInBounds(g, l, b);
    }
  }

  /** There is storage for the bits of all blocks of the grid. */
  ghost predicate AllStored(g: Geometry, counts: seq<nat>) {
    |counts| == g.nLevels && forall l, b: nat :: 0 <= l < g.nLevels && b < g.Count(l) ==> InBounds(counts, l, b)
  }

  lemma SoundStored(g: Geometry)
    requires Sound(g)
    ensures AllStored(g, InitCounts(g))
  {
    forall l, b: nat | 0 <= l < g.nLevels && b < g.Count(l) ensures InBounds(InitCounts(g), l, b) {
      GridInBounds(g, l, b);
    }
  }

  lemma {:induction false} InitSizeIs(g: Geometry, l: nat)
    requires Defined(g) && g.maxSz % 4 == 0 && l < g.nLevels
    ensures InitSize(g, l) == g.LevelSize(l)
  {
    if l == 0 {
      Align4Fixed(g.maxSz);
    } else {
      InitSizeIs(g, l - 1);
    }
  }

  // ---------- blocks and memory ----------

  lemma GridTop(g: Geometry)
    requires Sound(g)
    ensures g.maxSz == g.LevelSize(0) <= Grid(g).LevelSize(0) == Grid(g).maxSz && Bytes(g) <= Bytes(Grid(g))
  {
    GridExact(g);
    ExactSizes(Grid(g), 0);
    Align4Fixed(g.maxSz);
    if g.nLevels > 1 {
      GridSizes(g, 1);
      ExactSizes(Grid(g), 1);
      SizeSteps(g, 1);
    }
    FactorGrows(g.nMax, g.maxSz, Grid(g).maxSz);
  }

  /** `block_ptr`. */
  function Address(g: Geometry, x: Block): nat {
    x.num * g.LevelSize(x.level)
  }

  predicate InBlock(g: Geometry, x: Block, o: nat) {
    Address(g, x) <= o < Address(g, x) + g.LevelSize(x.level)
  }

  predicate Disjoint(g: Geometry, x: Block, y: Block) {
    Apart(Address(g, x), g.LevelSize(x.level), Address(g, y), g.LevelSize(y.level))
  }

  /** The bytes of a block that fits are the block's in the grid. */
  lemma OwnByte(g: Geometry, x: Block, o: nat)
    requires Sound(g) && x.level < g.nLevels && x.num < Limit(Caps(g), x.level) && InBlock(g, x, o)
    ensures At(Grid(g), x.level, o) == x.num
  {
    var b, s := x.num, Grid(g).LevelSize(x.level);
    GridTop(g);
    SizeSteps(g, x.level);
    GridSizeIs(g, x.level);
    OnlyTop(g, x);
    assert b * s == Address(g, x);
    DivUnique(o, s, b, o - b * s);
  }

  /** A block has its size in the grid, unless it is the only one. */
  lemma GridSizeIs(g: Geometry, l: nat)
    requires Sound(g) && l < g.nLevels
    ensures Grid(g).LevelSize(l) == g.LevelSize(l) || (l == 0 && g.nMax == 1)
  {
    if l > 0 {
      GridSizes(g, l);
    } else if g.nMax > 1 {
      RegularIsExact(g);
      GridOfExact(g);
    }
  }

  lemma OnlyTop(g: Geometry, x: Block)
    requires Sound(g) && x.level < g.nLevels && x.num < Limit(Caps(g), x.level)
    ensures x.level == 0 && g.nMax == 1 ==> x == Block(0, 0) && Address(g, x) == 0 && g.LevelSize(0) == Bytes(g)
  {
    CapsRoomy(g);
    GridTop(g);
  }

  lemma FitsByNumber(g: Geometry, x: Block)
    requires Defined(g) && x.level < g.nLevels && x.num < Limit(Caps(g), x.level)
    ensures Fits(g, x.level, Address(g, x))
  {
    CapIff(g, x.level, x.num);
  }

  lemma CommonByte(g: Geometry, x: Block, y: Block) returns (o: nat)
    requires Defined(g) && x.level < g.nLevels && x.num < Limit(Caps(g), x.level)
    requires y.level < g.nLevels && !Disjoint(g, y, x)
    ensures InBlock(g, x, o) && InBlock(g, y, o) && o < Bytes(g)
  {
    SizeSteps(g, x.level);
    SizeSteps(g, y.level);
    FitsByNumber(g, x);
    o := if Address(g, x) < Address(g, y) then Address(g, y) else Address(g, x);
  }

  /** In a proper state, two different blocks that fit have no byte in common. */
  lemma BlocksApart(g: Geometry, s: State, x: Block, y: Block)
    requires Sound(g) && Inv(Grid(g), s) && s.cap == Caps(g) && x in s.free + s.held && y in s.free + s.held && x != y
    requires x.num < Limit(s.cap, x.level) && y.num < Limit(s.cap, y.level)
    ensures Disjoint(g, x, y)
  {
    if !Disjoint(g, x, y) {
      assert Real(Grid(g), x) && Real(Grid(g), y);
      var o := CommonByte(g, x, y);
      SharedByte(g, s, x, y, o);
    }
  }

  lemma SharedByte(g: Geometry, s: State, x: Block, y: Block, o: nat)
    requires Sound(g) && Tiles(Grid(g), s.free + s.held) && x in s.free + s.held && y in s.free + s.held
    requires x.num < Limit(Caps(g), x.level) && y.num < Limit(Caps(g), y.level) && InBlock(g, x, o) && InBlock(g, y, o)
    ensures x == y
  {
    assert Real(Grid(g), x) && Real(Grid(g), y);
    FitsByNumber(g, x);
    GridTop(g);
    OwnByte(g, x, o);
    OwnByte(g, y, o);
    OneBlock(Grid(g), s, x, y, o);
  }

  lemma OneBlock(g: Geometry, s: State, x: Block, y: Block, o: nat)
    requires Tiles(g, s.free + s.held) && x in s.free + s.held && y in s.free + s.held && o < Bytes(g)
    requires At(g, x.level, o) == x.num && At(g, y.level, o) == y.num
    ensures x == y
  {
    assert Real(g, x) && Real(g, y);
    assert OneOwner(Path(g, o), s.free + s.held);
    assert Owns(Path(g, o), s.free + s.held, x.level) && Owns(Path(g, o), s.free + s.held, y.level);
  }

  lemma {:induction false} RunKeepsCap(g: Geometry, s: State, steps: seq<Step>, t: State)
    requires RunsTo(g, s, steps, t)
    ensures t.cap == s.cap
    decreases |steps|
  {
    if steps != [] {
      RunKeepsCap(g, Apply(g, s, steps[0]), steps[1..], t);
    }
  }

  /**
    In every pool of `SoundIff`, whatever threads do in whatever order: the blocks that they hold lie in the
    buffer and have no byte in common.
   */
  lemma HeldApart(g: Geometry, steps: seq<Step>, t: State, x: Block, y: Block)
    requires Sound(g) && RunsTo(Grid(g), Init(Grid(g), Caps(g)), steps, t) && x in t.held && y in t.held && x != y
    ensures Fits(g, x.level, Address(g, x)) && Fits(g, y.level, Address(g, y)) && Disjoint(g, x, y)
  {
    GridExact(g);
    CapsRoomy(g);
    ReachableInv(Grid(g), Caps(g), steps, t);
    RunKeepsCap(Grid(g), Init(Grid(g), Caps(g)), steps, t);
    HeldFits(g, t, x);
    HeldFits(g, t, y);
    BlocksApart(g, t, x, y);
  }

  lemma HeldFits(g: Geometry, s: State, x: Block)
    requires Defined(g) && Inv(Grid(g), s) && s.cap == Caps(g) && x in s.held
    ensures x.num < Limit(s.cap, x.level) && Fits(g, x.level, Address(g, x))
  {
    assert x in s.free + s.held;
    assert Real(Grid(g), x);
    FitsByNumber(g, x);
  }

  /** The id of a held block is its number. */
  lemma HeldId(g: Geometry, s: State, x: Block)
    requires Sound(g) && Inv(Grid(g), s) && x in s.held
    ensures BlockId(x.num) == x.num
  {
    assert x in s.free + s.held;
    assert Real(Grid(g), x);
    CountGrows(g, x.level, g.nLevels - 1);
    IdIs(x.num);
  }

  /** The blocks that threads can get are the blocks that initialisation and breaking make. */
  lemma {:induction false} UsableIsBlock(g: Geometry, l: nat, b: nat)
    requires Sound(g) && l < g.nLevels && Usable(Caps(g), l, b)
    ensures IsBlock(g, l, Address(g, Block(l, b)))
  {
    if l == 0 {
      CapsRoomy(g);
      GridTop(g);
      assert TopAt(g, b) == b * g.LevelSize(0);
    } else {
      var p, i := b / 4, b % 4;
      UsableIsBlock(g, l - 1, p);
      CutAt(g, l, p, i, b);
    }
  }

  lemma CutAt(g: Geometry, l: nat, p: nat, i: nat, b: nat)
    requires Sound(g) && 0 < l < g.nLevels && i < 4 && b == 4 * p + i
    requires p < Limit(Caps(g), l - 1) && b < Limit(Caps(g), l)
    ensures CutFrom(g, l, Address(g, Block(l, b)), Address(g, Block(l - 1, p)), i)
  {
    QuarterStart(g, l - 1, p);
    CapIff(g, l, b);
    QuarterSum(p, i, g.LevelSize(l));
  }

  lemma QuarterSum(p: nat, i: nat, s: nat)
    ensures 4 * p * s + i * s == (4 * p + i) * s
  {
  }

  lemma {:induction false} BlockIsUsable(g: Geometry, l: nat, a: nat)
    requires Sound(g) && l < g.nLevels && IsBlock(g, l, a)
    ensures Usable(Caps(g), l, At(g, l, a))
  {
    NumberFits(g, l, a);
    if l > 0 {
      var p: nat, i: nat :| CutFrom(g, l, a, p, i) && IsBlock(g, l - 1, p);
      BlockIsUsable(g, l - 1, p);
      RegularPlaced(g, l - 1, p);
      QuarterPlaced(g, l - 1, p, i);
      UsableQuarter(Caps(g), l - 1, At(g, l - 1, p), i, At(g, l, a));
    }
  }

  lemma UsableQuarter(cap: seq<nat>, l: nat, b: nat, i: nat, c: nat)
    requires Usable(cap, l, b) && i < 4 && c == 4 * b + i && c < Limit(cap, l + 1)
    ensures Usable(cap, l + 1, c)
  {
  }

  lemma NumberFits(g: Geometry, l: nat, a: nat)
    requires Sound(g) && l < g.nLevels && IsBlock(g, l, a)
    ensures At(g, l, a) < Limit(Caps(g), l)
  {
    RegularPlaced(g, l, a);
    CapIff(g, l, At(g, l, a));
  }

  // ---------- no memory ----------

  /** A held block has a byte in common with the block of level `l` at `a`. */
  ghost predicate OverlapsHeld(g: Geometry, s: State, l: nat, a: nat) {
    exists x :: x in s.held && !Apart(a, g.LevelSize(l), Address(g, x), g.LevelSize(x.level))
  }

  lemma {:induction false} UsableCounted(g: Geometry, cap: seq<nat>, l: nat, b: nat)
    requires Roomy(g, cap) && l < g.nLevels && Usable(cap, l, b)
    ensures b < g.Count(l)
  {
    if l > 0 {
      UsableCounted(g, cap, l - 1, b / 4);
      CountQuadruples(g, l - 1);
    }
  }

  /** The bytes of a grid block that fits are its own, except that the only top-level block may lose its end. */
  lemma GridByte(g: Geometry, x: Block, o: nat)
    requires Sound(g) && x.level < g.nLevels && x.num < Limit(Caps(g), x.level) && At(Grid(g), x.level, o) == x.num
    ensures InBlock(g, x, o) || (x == Block(0, 0) && Address(g, x) == 0 && g.LevelSize(0) == Bytes(g))
  {
    GridTop(g);
    SizeSteps(g, x.level);
    GridSizeIs(g, x.level);
    OnlyTop(g, x);
    QuotientRange(o, Grid(g).LevelSize(x.level), x.num);
  }

  lemma QuotientRange(o: nat, s: nat, b: nat)
    requires s > 0 && o / s == b
    ensures b * s <= o < b * s + s
  {
    DivMod(o, s);
  }

  lemma BothHave(g: Geometry, x: Block, y: Block, o: nat)
    requires Sound(g) && x.level < g.nLevels && x.num < Limit(Caps(g), x.level) && At(Grid(g), x.level, o) == x.num
    requires y.level < g.nLevels && y.num < Limit(Caps(g), y.level) && At(Grid(g), y.level, o) == y.num
    ensures !Disjoint(g, x, y)
  {
    GridByte(g, x, o);
    GridByte(g, y, o);
    FitsByNumber(g, x);
    FitsByNumber(g, y);
    SizeSteps(g, x.level);
    SizeSteps(g, y.level);
  }

  /** Overlapping in the grid is overlapping in memory. */
  lemma TouchesIff(g: Geometry, s: State, l: nat, b: nat)
    requires Sound(g) && Inv(Grid(g), s) && s.cap == Caps(g) && l < g.nLevels && Usable(s.cap, l, b)
    ensures TouchesHeld(Grid(g), s, l, b) <==> OverlapsHeld(g, s, l, Address(g, Block(l, b)))
  {
    var y := Block(l, b);
    if TouchesHeld(Grid(g), s, l, b) {
      TouchedOverlaps(g, s, y);
    }
    if OverlapsHeld(g, s, l, Address(g, y)) {
      var x :| x in s.held && !Disjoint(g, y, x);
      HeldTouched(g, s, y, x);
    }
  }

  lemma TouchedOverlaps(g: Geometry, s: State, y: Block)
    requires Sound(g) && Inv(Grid(g), s) && s.cap == Caps(g) && y.level < g.nLevels && y.num < Limit(s.cap, y.level)
    requires TouchesHeld(Grid(g), s, y.level, y.num)
    ensures OverlapsHeld(g, s, y.level, Address(g, y))
  {
    var o: nat, m: nat :| Inside(Grid(g), y.level, y.num, o) && Owns(Path(Grid(g), o), s.held, m);
    var x := Block(m, At(Grid(g), m, o));
    assert x in s.held && m < g.nLevels;
    HeldFits(g, s, x);
    BothHave(g, y, x, o);
  }

  lemma HeldTouched(g: Geometry, s: State, y: Block, x: Block)
    requires Sound(g) && Inv(Grid(g), s) && s.cap == Caps(g) && y.level < g.nLevels && y.num < Limit(s.cap, y.level)
    requires x in s.held && !Disjoint(g, y, x)
    ensures TouchesHeld(Grid(g), s, y.level, y.num)
  {
    HeldFits(g, s, x);
    assert x in s.free + s.held;
    assert Real(Grid(g), x);
    var o := CommonByte(g, x, y);
    GridTop(g);
    OwnByte(g, x, o);
    OwnByte(g, y, o);
    assert Inside(Grid(g), y.level, y.num, o) && Owns(Path(Grid(g), o), s.held, x.level);
  }

  /**
    In every pool of `SoundIff` and every proper state: no list down to level `l` has a block exactly when
    each block of that level that the pool can have overlaps a held one.
   */
  lemma NoMemoryIff(g: Geometry, s: State, l: nat)
    requires Sound(g) && Inv(Grid(g), s) && s.cap == Caps(g) && l < g.nLevels
    ensures Exhausted(s, l) <==> forall a: nat :: IsBlock(g, l, a) ==> OverlapsHeld(g, s, l, a)
  {
    GridExact(g);
    ExhaustedIff(Grid(g), s, l);
    if Exhausted(s, l) {
      forall a: nat | IsBlock(g, l, a) ensures OverlapsHeld(g, s, l, a) {
        BlockIsUsable(g, l, a);
        RegularPlaced(g, l, a);
        UsableCounted(Grid(g), s.cap, l, At(g, l, a));
        TouchesIff(g, s, l, At(g, l, a));
      }
    } else {
      var b: nat :| b < Grid(g).Count(l) && Usable(s.cap, l, b) && !TouchesHeld(Grid(g), s, l, b);
      UsableIsBlock(g, l, b);
      TouchesIff(g, s, l, b);
    }
  }
}
