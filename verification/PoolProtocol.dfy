/**
  The memory pool as a protocol: each locked section of the pool code is one step on the
  free bits, the free lists and the blocks that threads hold in between. The blocks form an
  exact grid; the buffer may end before it, and blocks that do not fit are never listed.
 */
module PoolProtocol {
  import opened Arithmetic
  import opened PoolGeometry

  datatype Block = Block(level: nat, num: nat)

  /** Blocks marked free, the free list of each level, the blocks held by threads, and how many blocks of each level fit. */
  datatype State = State(free: set<Block>, lists: seq<seq<nat>>, held: set<Block>, cap: seq<nat>)

  /** The number of blocks of a level that fit the buffer. */
  function Limit(cap: seq<nat>, l: nat): nat {
    if l < |cap| then cap[l] else 0
  }

  // ---------- the steps ----------

  /** The four blocks that a block of level `l` splits into. */
  function Quad(l: nat, q: nat): set<Block> {
    {Block(l, 4 * q), Block(l, 4 * q + 1), Block(l, 4 * q + 2), Block(l, 4 * q + 3)}
  }

  /** A free list without the blocks of one quad. */
  function WithoutQuad(list: seq<nat>, q: nat): (r: seq<nat>)
    ensures forall b :: b in r <==> b in list && b / 4 != q
  {
    if list == [] then []
    else if list[0] / 4 == q then WithoutQuad(list[1..], q)
    else [list[0]] + WithoutQuad(list[1..], q)
  }

  /** `alloc_block`: take the first block of a level, if there is one. */
  function AllocStep(s: State, l: nat): State
    requires l < |s.lists|
  {
    if s.lists[l] == [] then s
    else
      var b := s.lists[l][0];
      State(s.free - {Block(l, b)}, s.lists[l := s.lists[l][1..]], s.held + {Block(l, b)}, s.cap)
  }

  /** A free list after block `b` was freed: it is listed only if it fits. */
  function Listed(list: seq<nat>, b: nat, limit: nat): seq<nat> {
    if b < limit then list + [b] else list
  }

  /** The list after the quarters 1 to `n` of block `b` were freed. */
  function ListedQuarters(list: seq<nat>, b: nat, n: nat, limit: nat): seq<nat> {
    if n == 0 then list else Listed(ListedQuarters(list, b, n - 1, limit), 4 * b + n, limit)
  }

  /** `break_block`: three quarters become free, the first stays with the caller. */
  function BreakStep(s: State, l: nat, b: nat): State
    requires l + 1 < |s.lists|
  {
    State(s.free + (Quad(l + 1, b) - {Block(l + 1, 4 * b)}),
          s.lists[l + 1 := ListedQuarters(s.lists[l + 1], b, 3, Limit(s.cap, l + 1))],
          s.held - {Block(l, b)} + {Block(l + 1, 4 * b)}, s.cap)
  }

  /** Freeing the block completes a quad of free blocks. */
  predicate Merges(s: State, l: nat, b: nat) {
    l > 0 && Quad(l, b / 4) <= s.free + {Block(l, b)}
  }

  /** One level of `free_block`: either the block goes to its list, or its quad becomes one held block. */
  function FreeStep(s: State, l: nat, b: nat): State
    requires l < |s.lists|
  {
    if Merges(s, l, b) then
      State(s.free + {Block(l, b)} - Quad(l, b / 4),
            s.lists[l := WithoutQuad(s.lists[l], b / 4)],
            s.held - {Block(l, b)} + {Block(l - 1, b / 4)}, s.cap)
    else
      State(s.free + {Block(l, b)}, s.lists[l := Listed(s.lists[l], b, Limit(s.cap, l))], s.held - {Block(l, b)}, s.cap)
  }

  // ---------- the invariant ----------

  ghost predicate Real(g: Geometry, x: Block) {
    x.level < g.nLevels && x.num < g.Count(x.level)
  }

  /** The blocks around byte `o`, one per level. */
  function Path(g: Geometry, o: nat): seq<nat> {
    seq(g.nLevels, l requires 0 <= l < g.nLevels => At(g, l, o))
  }

  /** Each block of a path is a quarter of the one before. */
  ghost predicate Nested(path: seq<nat>) {
    forall l :: 0 < l < |path| ==> path[l] / 4 == path[l - 1]
  }

  ghost predicate Owns(path: seq<nat>, blocks: set<Block>, l: nat) {
    l < |path| && Block(l, path[l]) in blocks
  }

  /** Exactly one block of the path is among `blocks`: the one of level `l`. */
  ghost predicate OwnedAt(path: seq<nat>, blocks: set<Block>, l: nat) {
    Owns(path, blocks, l) && forall m: nat :: Owns(path, blocks, m) ==> m == l
  }

  ghost predicate OneOwner(path: seq<nat>, blocks: set<Block>) {
    exists l :: OwnedAt(path, blocks, l)
  }

  /** The blocks partition the grid: each byte lies in exactly one of them. */
  ghost predicate Tiles(g: Geometry, blocks: set<Block>) {
    && (forall x :: x in blocks ==> Real(g, x))
    && (forall o: nat :: o < Bytes(g) ==> OneOwner(Path(g, o), blocks))
  }

  lemma PathNested(g: Geometry, o: nat)
    requires g.Exact()
    ensures Nested(Path(g, o))
  {
    forall l | 0 < l < g.nLevels ensures Path(g, o)[l] / 4 == Path(g, o)[l - 1] {
      AtUp(g, l, o);
    }
  }

  ghost predicate NoRepeats(list: seq<nat>) {
    forall i, j :: 0 <= i < j < |list| ==> list[i] != list[j]
  }

  /** A level's list holds exactly its free blocks that fit, once each. */
  ghost predicate ListAgrees(s: State, l: nat)
    requires l < |s.lists|
  {
    NoRepeats(s.lists[l]) && forall b: nat :: b in s.lists[l] <==> Block(l, b) in s.free && b < Limit(s.cap, l)
  }

  ghost predicate ListsAgree(g: Geometry, s: State) {
    |s.lists| == g.nLevels && forall l :: 0 <= l < g.nLevels ==> ListAgrees(s, l)
  }

  /** No four siblings below level 0 are all free. */
  ghost predicate NoFreeQuad(g: Geometry, free: set<Block>) {
    forall l, q: nat :: 0 < l < g.nLevels ==> !(Quad(l, q) <= free)
  }

  /** All top-level blocks fit, and the first quarter of a block that fits does. */
  predicate Roomy(g: Geometry, cap: seq<nat>) {
    |cap| == g.nLevels > 0 && cap[0] == g.nMax && forall l :: 0 <= l < |cap| - 1 ==> 4 * cap[l] < cap[l + 1] + 4
  }

  /** Every block around this one fits. */
  predicate ParentsFit(cap: seq<nat>, l: nat, b: nat)
    decreases l
  {
    l == 0 || (b / 4 < Limit(cap, l - 1) && ParentsFit(cap, l - 1, b / 4))
  }

  /** A block that threads can get. */
  predicate Usable(cap: seq<nat>, l: nat, b: nat) {
    b < Limit(cap, l) && ParentsFit(cap, l, b)
  }

  /** Blocks are cut only from blocks that fit, and only such blocks are held. */
  ghost predicate Fitting(s: State) {
    && (forall x :: x in s.held ==> x.num < Limit(s.cap, x.level))
    && (forall x :: x in s.free + s.held ==> ParentsFit(s.cap, x.level, x.num))
  }

  ghost predicate Inv(g: Geometry, s: State) {
    && s.free !! s.held && Tiles(g, s.free + s.held) && ListsAgree(g, s) && NoFreeQuad(g, s.free)
    && Roomy(g, s.cap) && Fitting(s)
  }

  // ---------- splitting and merging keep the tiling ----------

  lemma QuadMembers(l: nat, q: nat, b: nat)
    ensures Block(l, b) in Quad(l, q) <==> b / 4 == q
  {
  }

  lemma SplitPath(path: seq<nat>, blocks: set<Block>, l: nat, b: nat)
    requires Nested(path) && l + 1 < |path|
    requires OneOwner(path, blocks) && Block(l, b) in blocks
    ensures OneOwner(path, blocks - {Block(l, b)} + Quad(l + 1, b))
  {
    var after := blocks - {Block(l, b)} + Quad(l + 1, b);
    var k :| OwnedAt(path, blocks, k);
    QuadMembers(l + 1, b, path[l + 1]);
    if path[l] == b {
      assert Owns(path, blocks, l);
      forall m: nat | Owns(path, after, m) ensures m == l + 1 {
        if Owns(path, blocks, m) {}
      }
      assert OwnedAt(path, after, l + 1);
    } else {
      forall m: nat | Owns(path, after, m) ensures m == k {
        assert Owns(path, blocks, m);
      }
      assert OwnedAt(path, after, k);
    }
  }

  lemma MergePath(path: seq<nat>, blocks: set<Block>, l: nat, b: nat)
    requires Nested(path) && l + 1 < |path|
    requires OneOwner(path, blocks) && Quad(l + 1, b) <= blocks
    ensures OneOwner(path, blocks - Quad(l + 1, b) + {Block(l, b)})
  {
    var after := blocks - Quad(l + 1, b) + {Block(l, b)};
    var k :| OwnedAt(path, blocks, k);
    QuadMembers(l + 1, b, path[l + 1]);
    if path[l] == b {
      assert Owns(path, blocks, l + 1);
      forall m: nat | Owns(path, after, m) ensures m == l {
        if Owns(path, blocks, m) {}
      }
      assert OwnedAt(path, after, l);
    } else {
      forall m: nat | Owns(path, after, m) ensures m == k {
        assert Owns(path, blocks, m);
      }
      assert OwnedAt(path, after, k);
    }
  }

  lemma CountDown(g: Geometry, l: nat, b: nat)
    ensures b < g.Count(l) <==> 4 * b + 3 < g.Count(l + 1)
  {
    assert g.Count(l + 1) == 4 * g.Count(l) by { Regroup(g.nMax, Pow4(l)); }
  }

  /** Some byte has the block on its path. */
  lemma ByteOf(g: Geometry, l: nat, b: nat) returns (o: nat)
    requires g.Exact() && l < g.nLevels && b < g.Count(l)
    ensures o < Bytes(g) && Path(g, o)[l] == b && Nested(Path(g, o))
  {
    o := b * g.LevelSize(l);
    StartInGrid(g, l, b);
    PathNested(g, o);
  }

  lemma StartInGrid(g: Geometry, l: nat, b: nat)
    requires g.Exact() && l < g.nLevels && b < g.Count(l)
    ensures b * g.LevelSize(l) < Bytes(g) && At(g, l, b * g.LevelSize(l)) == b
  {
    AtStart(g, l, b);
    OneMore(b, g.LevelSize(l));
  }

  /** A block and one of its quarters are never both in a tiling. */
  lemma NotBoth(g: Geometry, blocks: set<Block>, l: nat, child: nat)
    requires g.Exact() && l + 1 < g.nLevels && Tiles(g, blocks) && child < g.Count(l + 1)
    ensures !(Block(l, child / 4) in blocks && Block(l + 1, child) in blocks)
  {
    var o := ByteOf(g, l + 1, child);
    assert OneOwner(Path(g, o), blocks);
    var k :| OwnedAt(Path(g, o), blocks, k);
    assert Owns(Path(g, o), blocks, l) ==> k == l;
    assert Owns(Path(g, o), blocks, l + 1) ==> k == l + 1;
  }

  lemma SplitTiles(g: Geometry, blocks: set<Block>, l: nat, b: nat)
    requires g.Exact() && l + 1 < g.nLevels
    requires Tiles(g, blocks) && Block(l, b) in blocks
    ensures Tiles(g, blocks - {Block(l, b)} + Quad(l + 1, b))
    ensures blocks !! Quad(l + 1, b)
  {
    var after := blocks - {Block(l, b)} + Quad(l + 1, b);
    assert Real(g, Block(l, b));
    CountDown(g, l, b);
    forall x | x in Quad(l + 1, b) ensures x !in blocks {
      NotBoth(g, blocks, l, x.num);
    }
    forall o: nat | o < Bytes(g) ensures OneOwner(Path(g, o), after) {
      PathNested(g, o);
      SplitPath(Path(g, o), blocks, l, b);
    }
  }

  lemma MergeTiles(g: Geometry, blocks: set<Block>, l: nat, b: nat)
    requires g.Exact() && l + 1 < g.nLevels
    requires Tiles(g, blocks) && Quad(l + 1, b) <= blocks
    ensures Tiles(g, blocks - Quad(l + 1, b) + {Block(l, b)})
    ensures Block(l, b) !in blocks
  {
    var after := blocks - Quad(l + 1, b) + {Block(l, b)};
    assert Real(g, Block(l + 1, 4 * b + 3));
    CountDown(g, l, b);
    NotBoth(g, blocks, l, 4 * b);
    forall o: nat | o < Bytes(g) ensures OneOwner(Path(g, o), after) {
      PathNested(g, o);
      MergePath(Path(g, o), blocks, l, b);
    }
  }

  // ---------- every step keeps the invariant ----------

  datatype Step = Alloc(l: nat) | Break(l: nat, b: nat) | Free(l: nat, b: nat)

  /** A thread may break or free only a block that it holds. */
  predicate Enabled(g: Geometry, s: State, step: Step) {
    && step.l < g.nLevels && |s.lists| == g.nLevels
    && match step
       case Alloc(l) => true
       case Break(l, b) => l + 1 < g.nLevels && Block(l, b) in s.held
       case Free(l, b) => Block(l, b) in s.held
  }

  function Apply(g: Geometry, s: State, step: Step): State
    requires Enabled(g, s, step)
  {
    match step
    case Alloc(l) => AllocStep(s, l)
    case Break(l, b) => BreakStep(s, l, b)
    case Free(l, b) => FreeStep(s, l, b)
  }

  lemma AllocKeepsInv(g: Geometry, s: State, l: nat)
    requires Inv(g, s) && l < g.nLevels
    ensures Inv(g, AllocStep(s, l))
  {
    if s.lists[l] != [] {
      var b, t := s.lists[l][0], AllocStep(s, l);
      assert ListAgrees(s, l);
      assert t.free + t.held == s.free + s.held;
      forall m | 0 <= m < g.nLevels ensures ListAgrees(t, m) {
        assert ListAgrees(s, m);
        if m == l {
          assert s.lists[l] == [b] + t.lists[l];
        }
      }
      assert Fitting(t);
    }
  }

  lemma BreakKeepsInv(g: Geometry, s: State, l: nat, b: nat)
    requires g.Exact() && Inv(g, s) && Enabled(g, s, Break(l, b))
    ensures Inv(g, BreakStep(s, l, b))
  {
    var t := BreakStep(s, l, b);
    SplitTiles(g, s.free + s.held, l, b);
    assert t.free + t.held == s.free + s.held - {Block(l, b)} + Quad(l + 1, b);
    forall m | 0 <= m < g.nLevels ensures ListAgrees(t, m) {
      assert ListAgrees(s, m);
      if m == l + 1 {
        AppendQuarters(s.lists[m], b, 3, Limit(s.cap, m));
      }
    }
    BreakLeavesNoFreeQuad(g, s, l, b);
    BreakKeepsFitting(g, s, l, b);
  }

  lemma BreakKeepsFitting(g: Geometry, s: State, l: nat, b: nat)
    requires Roomy(g, s.cap) && Fitting(s) && Enabled(g, s, Break(l, b))
    ensures Fitting(BreakStep(s, l, b))
  {
    var t := BreakStep(s, l, b);
    assert b < Limit(s.cap, l) && ParentsFit(s.cap, l, b);
    assert 4 * s.cap[l] < s.cap[l + 1] + 4;
    forall x | x in t.free + t.held ensures ParentsFit(t.cap, x.level, x.num) {
      if x in Quad(l + 1, b) {
        QuadMembers(l + 1, b, x.num);
      }
    }
  }

  lemma BreakLeavesNoFreeQuad(g: Geometry, s: State, l: nat, b: nat)
    requires l + 1 < |s.lists| && NoFreeQuad(g, s.free) && Quad(l + 1, b) !! s.free
    ensures NoFreeQuad(g, BreakStep(s, l, b).free)
  {
    var t := BreakStep(s, l, b);
    forall m, q: nat | 0 < m < g.nLevels ensures !(Quad(m, q) <= t.free) {
      assert !(Quad(m, q) <= s.free);
      if m == l + 1 && q == b {
        assert Block(m, 4 * b) in Quad(m, b) && Block(m, 4 * b) !in t.free;
      } else {
        assert Quad(m, q) !! Quad(l + 1, b);
      }
    }
  }

  lemma {:induction false} AppendQuarters(list: seq<nat>, b: nat, n: nat, limit: nat)
    requires NoRepeats(list) && forall x :: 4 * b < x <= 4 * b + n ==> x !in list
    ensures NoRepeats(ListedQuarters(list, b, n, limit))
    ensures forall x :: x in ListedQuarters(list, b, n, limit) <==> x in list || (4 * b < x <= 4 * b + n && x < limit)
  {
    if n > 0 {
      AppendQuarters(list, b, n - 1, limit);
      AppendOne(ListedQuarters(list, b, n - 1, limit), 4 * b + n, limit);
    }
  }

  /** The quarters that fit are listed behind the others, in ascending order; the first is not listed but held. */
  lemma BreakOutcome(s: State, l: nat, b: nat)
    requires l + 1 < |s.lists|
    ensures var t, limit := BreakStep(s, l, b), Limit(s.cap, l + 1);
            && t.lists[l + 1] == s.lists[l + 1] + (if 4 * b + 3 < limit then [4 * b + 1, 4 * b + 2, 4 * b + 3]
                                                   else if 4 * b + 2 < limit then [4 * b + 1, 4 * b + 2]
                                                   else if 4 * b + 1 < limit then [4 * b + 1] else [])
            && |t.lists| == |s.lists| && (forall m :: 0 <= m < |s.lists| && m != l + 1 ==> t.lists[m] == s.lists[m])
            && t.free == s.free + {Block(l + 1, 4 * b + 1), Block(l + 1, 4 * b + 2), Block(l + 1, 4 * b + 3)}
            && t.held == s.held - {Block(l, b)} + {Block(l + 1, 4 * b)}
  {
    var list, limit := s.lists[l + 1], Limit(s.cap, l + 1);
    assert ListedQuarters(list, b, 1, limit) == Listed(list, 4 * b + 1, limit);
    assert ListedQuarters(list, b, 2, limit) == Listed(Listed(list, 4 * b + 1, limit), 4 * b + 2, limit);
  }

  lemma AppendOne(list: seq<nat>, b: nat, limit: nat)
    requires NoRepeats(list) && b !in list
    ensures NoRepeats(Listed(list, b, limit))
    ensures forall x :: x in Listed(list, b, limit) <==> x in list || (x == b && b < limit)
  {
  }

  lemma {:induction false} WithoutQuadNoRepeats(list: seq<nat>, q: nat)
    requires NoRepeats(list)
    ensures NoRepeats(WithoutQuad(list, q))
  {
    if list != [] {
      WithoutQuadNoRepeats(list[1..], q);
      assert list[0] !in list[1..];
    }
  }

  lemma FreeKeepsInv(g: Geometry, s: State, l: nat, b: nat)
    requires g.Exact() && Inv(g, s) && Enabled(g, s, Free(l, b))
    ensures Inv(g, FreeStep(s, l, b))
  {
    if Merges(s, l, b) {
      MergeKeepsInv(g, s, l, b);
    } else {
      var t := FreeStep(s, l, b);
      assert t.free + t.held == s.free + s.held;
      assert Fitting(t);
      forall m | 0 <= m < g.nLevels ensures ListAgrees(t, m) {
        assert ListAgrees(s, m);
      }
      forall m, q: nat | 0 < m < g.nLevels ensures !(Quad(m, q) <= t.free) {
        assert !(Quad(m, q) <= s.free);
        QuadMembers(l, q, b);
      }
    }
  }

  lemma MergeKeepsInv(g: Geometry, s: State, l: nat, b: nat)
    requires g.Exact() && Inv(g, s) && Enabled(g, s, Free(l, b)) && Merges(s, l, b)
    ensures Inv(g, FreeStep(s, l, b))
  {
    var t := FreeStep(s, l, b);
    QuadMembers(l, b / 4, b);
    MergeTiles(g, s.free + s.held, l - 1, b / 4);
    assert t.free + t.held == s.free + s.held - Quad(l, b / 4) + {Block(l - 1, b / 4)};
    forall m | 0 <= m < g.nLevels ensures ListAgrees(t, m) {
      assert ListAgrees(s, m);
      if m == l {
        WithoutQuadNoRepeats(s.lists[l], b / 4);
        forall c: nat ensures c in t.lists[l] <==> Block(l, c) in t.free && c < Limit(t.cap, l) {
          QuadMembers(l, b / 4, c);
        }
      }
    }
    forall m, q: nat | 0 < m < g.nLevels ensures !(Quad(m, q) <= t.free) {
      assert !(Quad(m, q) <= s.free);
      assert t.free <= s.free;
    }
    MergeKeepsFitting(s, l, b);
  }

  lemma MergeKeepsFitting(s: State, l: nat, b: nat)
    requires l < |s.lists| && Fitting(s) && Block(l, b) in s.held && Merges(s, l, b)
    ensures Fitting(FreeStep(s, l, b))
  {
    assert ParentsFit(s.cap, l, b);
  }

  lemma StepKeepsInv(g: Geometry, s: State, step: Step)
    requires g.Exact() && Inv(g, s) && Enabled(g, s, step)
    ensures Inv(g, Apply(g, s, step))
  {
    match step
    case Alloc(l) => AllocKeepsInv(g, s, l);
    case Break(l, b) => BreakKeepsInv(g, s, l, b);
    case Free(l, b) => FreeKeepsInv(g, s, l, b);
  }

  // ---------- whole runs ----------

  function TopBlocks(n: nat): set<Block> {
    set b | 0 <= b < n :: Block(0, b)
  }

  function UpTo(n: nat): seq<nat> {
    seq(n, b => b)
  }

  function TopLists(g: Geometry, n: nat): seq<seq<nat>> {
    seq(g.nLevels, l => if l == 0 then UpTo(n) else [])
  }

  /** `init_mem_pool`: the top-level blocks are free. */
  function Init(g: Geometry, cap: seq<nat>): State {
    State(TopBlocks(g.nMax), TopLists(g, g.nMax), {}, cap)
  }

  lemma InitInv(g: Geometry, cap: seq<nat>)
    requires g.Exact() && Roomy(g, cap)
    ensures Inv(g, Init(g, cap))
  {
    var s := Init(g, cap);
    assert s.free + s.held == s.free;
    forall o: nat | o < Bytes(g) ensures OneOwner(Path(g, o), s.free) {
      AtInRange(g, 0, o);
      assert OwnedAt(Path(g, o), s.free, 0);
    }
    forall l | 0 <= l < g.nLevels ensures ListAgrees(s, l) {
      forall b: nat ensures b in s.lists[l] <==> Block(l, b) in s.free && b < Limit(s.cap, l) {
        if l == 0 && b < g.nMax {
          assert s.lists[0][b] == b;
        }
      }
    }
    forall l, q: nat | 0 < l < g.nLevels ensures !(Quad(l, q) <= s.free) {
      assert Block(l, 4 * q) in Quad(l, q) && Block(l, 4 * q) !in s.free;
    }
  }

  /** A new pool lists its top-level blocks in ascending order and nothing else. */
  lemma InitOutcome(g: Geometry, cap: seq<nat>)
    ensures var s := Init(g, cap);
            && s.held == {} && s.cap == cap && |s.lists| == g.nLevels
            && (forall x :: x in s.free <==> x.level == 0 && x.num < g.nMax)
            && (g.nLevels > 0 ==> |s.lists[0]| == g.nMax && forall b :: 0 <= b < g.nMax ==> s.lists[0][b] == b)
            && forall l :: 0 < l < g.nLevels ==> s.lists[l] == []
  {
    forall x
      ensures x in TopBlocks(g.nMax) <==> x.level == 0 && x.num < g.nMax
    {
      assert x == Block(x.level, x.num);
    }
  }

  /** The state after a sequence of steps, in any interleaving of threads. */
  ghost predicate RunsTo(g: Geometry, s: State, steps: seq<Step>, t: State)
    decreases |steps|
  {
    if steps == [] then s == t
    else Enabled(g, s, steps[0]) && RunsTo(g, Apply(g, s, steps[0]), steps[1..], t)
  }

  lemma {:induction false} RunKeepsInv(g: Geometry, s: State, steps: seq<Step>, t: State)
    requires g.Exact() && Inv(g, s) && RunsTo(g, s, steps, t)
    ensures Inv(g, t)
    decreases |steps|
  {
    if steps != [] {
      StepKeepsInv(g, s, steps[0]);
      RunKeepsInv(g, Apply(g, s, steps[0]), steps[1..], t);
    }
  }

  /** In every reachable state free and held blocks partition the grid and the lists agree with the bits. */
  lemma ReachableInv(g: Geometry, cap: seq<nat>, steps: seq<Step>, t: State)
    requires g.Exact() && Roomy(g, cap) && RunsTo(g, Init(g, cap), steps, t)
    ensures Inv(g, t)
  {
    InitInv(g, cap);
    RunKeepsInv(g, Init(g, cap), steps, t);
  }

  // ---------- completeness ----------

  /** Byte `o` belongs to the block of level `l` numbered `b`. */
  predicate Inside(g: Geometry, l: nat, b: nat, o: nat) {
    o < Bytes(g) && At(g, l, o) == b
  }

  /** Some byte of the region `l, b` belongs to a held block. */
  ghost predicate TouchesHeld(g: Geometry, s: State, l: nat, b: nat) {
    exists o: nat, m: nat :: Inside(g, l, b, o) && Owns(Path(g, o), s.held, m)
  }

  /** Some block of the path at level `l` or below is free. */
  ghost predicate FreeBelow(path: seq<nat>, free: set<Block>, l: nat) {
    exists m: nat :: l <= m && Owns(path, free, m)
  }

  /** Every byte of the region belongs to a free block no larger than the region. */
  ghost predicate FreeWithin(g: Geometry, s: State, l: nat, b: nat) {
    forall o: nat :: Inside(g, l, b, o) ==> FreeBelow(Path(g, o), s.free, l)
  }

  /** Because free quads are always merged, a region made of free blocks is itself one free block. */
  lemma {:induction false} FreeRegionIsBlock(g: Geometry, s: State, l: nat, b: nat)
    requires g.Exact() && Inv(g, s) && l < g.nLevels && b < g.Count(l)
    requires FreeWithin(g, s, l, b)
    ensures Block(l, b) in s.free
    decreases g.nLevels - l
  {
    if Block(l, b) !in s.free {
      DeeperLevel(g, s, l, b);
      CountDown(g, l, b);
      assert !(Quad(l + 1, b) <= s.free);
      QuarterIsFree(g, s, l, b, 4 * b);
      QuarterIsFree(g, s, l, b, 4 * b + 1);
      QuarterIsFree(g, s, l, b, 4 * b + 2);
      QuarterIsFree(g, s, l, b, 4 * b + 3);
    }
  }

  lemma DeeperLevel(g: Geometry, s: State, l: nat, b: nat)
    requires g.Exact() && l < g.nLevels && b < g.Count(l)
    requires FreeWithin(g, s, l, b) && Block(l, b) !in s.free
    ensures l + 1 < g.nLevels
  {
    var o := ByteOf(g, l, b);
    assert Inside(g, l, b, o);
    assert FreeBelow(Path(g, o), s.free, l);
    var m: nat :| l <= m && Owns(Path(g, o), s.free, m);
    assert m != l;
  }

  lemma {:induction false} QuarterIsFree(g: Geometry, s: State, l: nat, b: nat, c: nat)
    requires g.Exact() && Inv(g, s) && l + 1 < g.nLevels && c < g.Count(l + 1) && c / 4 == b
    requires FreeWithin(g, s, l, b) && Block(l, b) !in s.free
    ensures Block(l + 1, c) in s.free
    decreases g.nLevels - l, 0
  {
    forall o: nat | Inside(g, l + 1, c, o) ensures FreeBelow(Path(g, o), s.free, l + 1) {
      AtUp(g, l + 1, o);
      assert Inside(g, l, b, o);
      assert FreeBelow(Path(g, o), s.free, l);
      var m: nat :| l <= m && Owns(Path(g, o), s.free, m);
      assert Path(g, o)[l] == b;
    }
    FreeRegionIsBlock(g, s, l + 1, c);
  }

  lemma {:induction false} SamePrefix(p: seq<nat>, q: seq<nat>, k: nat, l: nat)
    requires Nested(p) && Nested(q) && |p| == |q| && k <= l < |p| && p[l] == q[l]
    ensures p[k] == q[k]
    decreases l - k
  {
    if k < l {
      assert p[l] / 4 == p[l - 1] && q[l] / 4 == q[l - 1];
      SamePrefix(p, q, k, l - 1);
    }
  }

  /** Some block of the path at level `l` or above is free. */
  ghost predicate FreeAbove(path: seq<nat>, free: set<Block>, l: nat) {
    exists k: nat :: k <= l && Owns(path, free, k)
  }

  /** The owner of a byte that lies in no held block. */
  lemma FreeOwner(g: Geometry, s: State, l: nat, b: nat, o: nat) returns (k: nat)
    requires Inv(g, s) && !TouchesHeld(g, s, l, b) && Inside(g, l, b, o)
    ensures Owns(Path(g, o), s.free, k)
    ensures forall m: nat :: Owns(Path(g, o), s.free, m) ==> m == k
  {
    assert OneOwner(Path(g, o), s.free + s.held);
    k :| OwnedAt(Path(g, o), s.free + s.held, k);
    assert !Owns(Path(g, o), s.held, k);
    forall m: nat | Owns(Path(g, o), s.free, m) ensures m == k {
      assert Owns(Path(g, o), s.free + s.held, m);
    }
  }

  /** A byte of a region that touches no held block lies in a free block at least as large as the region. */
  lemma UntouchedIsFree(g: Geometry, s: State, l: nat, b: nat, o: nat)
    requires g.Exact() && Inv(g, s) && l < g.nLevels && b < g.Count(l)
    requires !TouchesHeld(g, s, l, b) && Inside(g, l, b, o)
    ensures FreeAbove(Path(g, o), s.free, l)
  {
    var k := FreeOwner(g, s, l, b, o);
    if k > l {
      forall o': nat | Inside(g, l, b, o') ensures FreeBelow(Path(g, o'), s.free, l) {
        var m := FreeOwner(g, s, l, b, o');
        if m <= l {
          PathNested(g, o);
          PathNested(g, o');
          SamePrefix(Path(g, o), Path(g, o'), m, l);
          assert Owns(Path(g, o), s.free, m);
        }
      }
      FreeRegionIsBlock(g, s, l, b);
      assert Owns(Path(g, o), s.free, l);
    }
  }

  lemma FreeBlockUntouched(g: Geometry, s: State, k: nat, l: nat, o: nat)
    requires g.Exact() && Inv(g, s) && k <= l < g.nLevels && o < Bytes(g)
    requires Owns(Path(g, o), s.free, k)
    ensures !TouchesHeld(g, s, l, Path(g, o)[l])
  {
    forall o': nat, m: nat | Inside(g, l, Path(g, o)[l], o') && Owns(Path(g, o'), s.held, m) ensures false {
      PathNested(g, o);
      PathNested(g, o');
      SamePrefix(Path(g, o), Path(g, o'), k, l);
      var n: nat :| OwnedAt(Path(g, o'), s.free + s.held, n);
      assert Owns(Path(g, o'), s.free + s.held, k) && Owns(Path(g, o'), s.free + s.held, m);
    }
  }

  /** The blocks around a usable one are usable. */
  lemma {:induction false} ParentsUsable(cap: seq<nat>, path: seq<nat>, k: nat, l: nat)
    requires Nested(path) && k <= l < |path| && Usable(cap, l, path[l])
    ensures Usable(cap, k, path[k])
    decreases l - k
  {
    if k < l {
      assert path[l] / 4 == path[l - 1];
      ParentsUsable(cap, path, k, l - 1);
    }
  }

  lemma FreeHasList(g: Geometry, s: State, o: nat, l: nat)
    requires g.Exact() && Inv(g, s) && l < g.nLevels && FreeAbove(Path(g, o), s.free, l) && Usable(s.cap, l, Path(g, o)[l])
    ensures !Exhausted(s, l)
  {
    var k: nat :| k <= l && Owns(Path(g, o), s.free, k);
    PathNested(g, o);
    ParentsUsable(s.cap, Path(g, o), k, l);
    assert ListAgrees(s, k);
    assert Path(g, o)[k] in s.lists[k];
  }

  /** The block that breaking down leaves with the caller. */
  function FirstWithin(l: nat, b: nat, dest: nat): nat
    requires l <= dest
    decreases dest - l
  {
    if l == dest then b else FirstWithin(l + 1, 4 * b, dest)
  }

  /** The first blocks within a usable one are usable. */
  lemma {:induction false} FirstUsable(g: Geometry, cap: seq<nat>, k: nat, c: nat, l: nat)
    requires Roomy(g, cap) && k <= l < g.nLevels && Usable(cap, k, c)
    ensures Usable(cap, l, FirstWithin(k, c, l))
    decreases l - k
  {
    if k < l {
      assert 4 * cap[k] < cap[k + 1] + 4;
      FirstUsable(g, cap, k + 1, 4 * c, l);
    }
  }

  /** The first byte of a block is in the first blocks within it. */
  lemma {:induction false} FirstByte(g: Geometry, k: nat, c: nat, l: nat)
    requires g.Exact() && k <= l < g.nLevels && c < g.Count(k)
    ensures At(g, l, c * g.LevelSize(k)) == FirstWithin(k, c, l)
    decreases l - k
  {
    if k == l {
      AtStart(g, k, c);
    } else {
      CountDown(g, k, c);
      FirstByte(g, k + 1, 4 * c, l);
      ExactSizes(g, k + 1);
      Regroup(c, g.LevelSize(k + 1));
    }
  }

  /** No block of level `l` can be had in state `s`. */
  ghost predicate Exhausted(s: State, l: nat)
    requires l < |s.lists|
  {
    forall k :: 0 <= k <= l ==> s.lists[k] == []
  }

  /**
    When `pool_alloc` gives up: the lists down to the needed level are all empty exactly
    when every aligned region of that level's size that a thread could get overlaps a held block.
   */
  lemma ExhaustedIff(g: Geometry, s: State, l: nat)
    requires g.Exact() && Inv(g, s) && l < g.nLevels
    ensures Exhausted(s, l) <==> forall b: nat :: b < g.Count(l) && Usable(s.cap, l, b) ==> TouchesHeld(g, s, l, b)
  {
    if Exhausted(s, l) {
      forall b: nat | b < g.Count(l) && Usable(s.cap, l, b) ensures TouchesHeld(g, s, l, b) {
        if !TouchesHeld(g, s, l, b) {
          var o := ByteOf(g, l, b);
          UntouchedIsFree(g, s, l, b, o);
          FreeHasList(g, s, o, l);
        }
      }
    } else {
      var k :| 0 <= k <= l && s.lists[k] != [];
      var b := AvailableRegion(g, s, k, l);
    }
  }

  /** A listed block holds a region that touches no held block. */
  lemma AvailableRegion(g: Geometry, s: State, k: nat, l: nat) returns (b: nat)
    requires g.Exact() && Inv(g, s) && k <= l < g.nLevels && s.lists[k] != []
    ensures b < g.Count(l) && Usable(s.cap, l, b) && !TouchesHeld(g, s, l, b)
  {
    var c := s.lists[k][0];
    assert ListAgrees(s, k) && c in s.lists[k];
    assert Block(k, c) in s.free + s.held;
    assert Real(g, Block(k, c)) && ParentsFit(s.cap, k, c);
    var o := c * g.LevelSize(k);
    StartInGrid(g, k, c);
    FirstByte(g, k, c, l);
    b := FirstWithin(k, c, l);
    FreeBlockUntouched(g, s, k, l, o);
    AtInRange(g, l, o);
    FirstUsable(g, s.cap, k, c, l);
  }

  /** A pool from which nothing is held is back to its top-level blocks. */
  lemma NothingHeld(g: Geometry, s: State)
    requires g.Exact() && Inv(g, s) && s.held == {}
    ensures s.free == Init(g, s.cap).free
  {
    forall b: nat | b < g.nMax ensures Block(0, b) in s.free {
      var o := ByteOf(g, 0, b);
      UntouchedIsFree(g, s, 0, b, o);
    }
    forall x | x in s.free ensures x.level == 0 {
      assert Real(g, x);
      var o := ByteOf(g, x.level, x.num);
      AtInRange(g, 0, o);
      UntouchedIsFree(g, s, 0, At(g, 0, o), o);
      var k :| OwnedAt(Path(g, o), s.free + s.held, k);
      assert Owns(Path(g, o), s.free + s.held, 0) && Owns(Path(g, o), s.free + s.held, x.level);
    }
  }
}
