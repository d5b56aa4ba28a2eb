/**
  The memory pool object: bitmaps and free lists updated in place. Every locked section is
  a method proved to be one step of the protocol.
 */
module MemPool {
  import opened Arithmetic
  import opened PoolGeometry
  import opened PoolProtocol
  import opened PoolCalls
  import opened PoolBitmap
  import opened PoolGrid
  import opened PoolRounding
  import opened PoolNodes
  import opened NodeLists

  /** A 32-bit word as its bits, least significant first. */
  type Word = w: seq<bool> | |w| == 32 witness seq(32, _ => false)

  /** A word that holds the number `n`. */
  function WordOf(n: nat): Word {
    seq(32, i requires 0 <= i < 32 => n / Pow2(i) % 2 == 1)
  }

  class Pool {
    const g: Geometry
    /** The addresses of `levels[l].free_list`, relative to the buffer, and of the words behind the buffer. */
    const heads: seq<int>
    const areaAt: nat
    /** `levels[l].bits`, the words behind the buffer, and `levels[l].bits_p`. */
    const inlineBits: array<Word>
    const area: array<Word>
    const bitsP: array<nat>
    /** The list heads and the nodes in the buffer. */
    var mem: Memory
    var maxInlineLevel: nat
    /** The block counts that initialisation found. */
    ghost const counts: seq<nat>
    /** The protocol state that the fields stand for. */
    ghost var st: State

    /** One entry per level, in separate arrays. */
    ghost predicate Arrays() {
      && inlineBits.Length == g.nLevels && bitsP.Length == g.nLevels
      && inlineBits != area && inlineBits as object != bitsP && area as object != bitsP
    }

    ghost predicate Shape()
      reads this, bitsP
    {
      && Sound(g) && HeadsPlaced(g, heads) && AllStored(g, counts) && Arrays() && area.Length >= AreaStart(counts, g.nLevels)
      && maxInlineLevel == MaxInline(counts)
      && forall l :: maxInlineLevel < l < g.nLevels ==> bitsP[l] == AreaStart(counts, l)
    }

    function GetBitPtr(l: nat, bn: nat): BitPlace
      requires l < bitsP.Length
      reads this, bitsP
    {
      if l <= maxInlineLevel then Inline(l, bn / 32, bn % 32) else InArea(bitsP[l] + bn / 32, bn % 32)
    }

    /** The word and bit exist. */
    predicate Stored(p: BitPlace) {
      p.bit < 32 && match p
                    case Inline(l, w, _) => l < inlineBits.Length && w == 0
                    case InArea(w, _) => w < area.Length
    }

    function Load(p: BitPlace): bool
      requires Stored(p)
      reads inlineBits, area
    {
      match p
      case Inline(l, _, bit) => inlineBits[l][bit]
      case InArea(w, bit) => area[w][bit]
    }

    lemma PtrIsPlace(l: nat, b: nat)
      requires Shape() && l < g.nLevels && b < g.Count(l)
      ensures GetBitPtr(l, b) == Place(counts, l, b) && Stored(Place(counts, l, b))
    {
      assert InBounds(counts, l, b);
      if l > maxInlineLevel {
        AreaStartGrows(counts, l, g.nLevels);
      }
    }

    ghost predicate BitIs(l: nat, b: nat, free: set<Block>)
      reads inlineBits, area
    {
      l < |counts| && Stored(Place(counts, l, b)) && (Load(Place(counts, l, b)) <==> Block(l, b) in free)
    }

    /** The bitmaps mark exactly the blocks in `free`. */
    ghost predicate BitsAre(free: set<Block>)
      reads inlineBits, area
    {
      forall l, b: nat :: 0 <= l < g.nLevels && b < g.Count(l) ==> BitIs(l, b, free)
    }

    method Store(p: BitPlace, v: bool)
      requires Stored(p) && inlineBits != area
      modifies inlineBits, area
      ensures forall q: BitPlace :: Stored(q) ==> Load(q) == if q == p then v else old(Load(q))
    {
      match p
      case Inline(l, _, bit) => inlineBits[l] := inlineBits[l][bit := v];
      case InArea(w, bit) => area[w] := area[w][bit := v];
    }

    /** `set_free_bit` and `clear_free_bit`. */
    method WriteBit(l: nat, bn: nat, v: bool, ghost free: set<Block>)
      requires Shape() && l < g.nLevels && bn < g.Count(l) && BitsAre(free)
      modifies inlineBits, area
      ensures BitsAre(if v then free + {Block(l, bn)} else free - {Block(l, bn)})
    {
      PtrIsPlace(l, bn);
      Store(GetBitPtr(l, bn), v);
      ghost var after := if v then free + {Block(l, bn)} else free - {Block(l, bn)};
      assert InBounds(counts, l, bn);
      forall m, c: nat | 0 <= m < g.nLevels && c < g.Count(m) ensures BitIs(m, c, after) {
        assert old(BitIs(m, c, free));
        assert InBounds(counts, m, c);
        PlacesDistinct(counts, l, bn, m, c);
      }
    }

    /** `partner_bits(..) == 0xf`: the four bits of the block's group within its word. */
    predicate PartnersSet(l: nat, bn: nat)
      requires l < bitsP.Length && Stored(GetBitPtr(l, bn))
      reads this, bitsP, inlineBits, area
    {
      PartnerSet(l, bn, 0) && PartnerSet(l, bn, 1) && PartnerSet(l, bn, 2) && PartnerSet(l, bn, 3)
    }

    predicate PartnerSet(l: nat, bn: nat, i: nat)
      requires i < 4 && l < bitsP.Length && Stored(GetBitPtr(l, bn))
      reads this, bitsP, inlineBits, area
    {
      Load(GetBitPtr(l, bn).(bit := GroupBit(bn, i)))
    }

    lemma PartnerBit(l: nat, bn: nat, i: nat, free: set<Block>)
      requires i < 4 && l < bitsP.Length && Stored(GetBitPtr(l, bn))
      requires Shape() && bn < g.Count(l) && BitsAre(free) && 4 * (bn / 4) + i < g.Count(l)
      ensures PartnerSet(l, bn, i) <==> Block(l, 4 * (bn / 4) + i) in free
    {
      PtrIsPlace(l, bn);
      GroupInWord(bn, i);
      assert BitIs(l, 4 * (bn / 4) + i, free);
    }

    lemma PartnersSetIff(l: nat, bn: nat, free: set<Block>)
      requires Shape() && l < g.nLevels && bn < g.Count(l) && BitsAre(free)
      requires 4 * (bn / 4) + 3 < g.Count(l)
      ensures Stored(GetBitPtr(l, bn))
      ensures PartnersSet(l, bn) <==> Quad(l, bn / 4) <= free
    {
      PtrIsPlace(l, bn);
      PartnerBit(l, bn, 0, free);
      PartnerBit(l, bn, 1, free);
      PartnerBit(l, bn, 2, free);
      PartnerBit(l, bn, 3, free);
    }

    /** The fields hold the protocol state, and that state is a proper one. */
    ghost predicate Valid()
      reads this, bitsP, inlineBits, area
    {
      Shape() && BitsAre(st.free) && Holds(g, heads, st, mem)
    }

    /** `block_fits`. */
    predicate BlockFits(block: nat, bsz: nat) {
      block + bsz - 1 < g.nMax * g.maxSz
    }

    /** `init_mem_pool`, on zeroed storage of the size that the definition macro reserves. */
    constructor (g: Geometry, heads: seq<int>, areaAt: nat, mem: Memory)
      requires Sound(g) && Bytes(g) < 0x1_0000_0000 && HeadsPlaced(g, heads)
      ensures Valid() && this.g == g && this.heads == heads
      ensures st == Init(Grid(g), Caps(g)) && this.mem == InitMem(g, heads, mem)
    {
      this.g, this.heads, this.areaAt, this.mem := g, heads, areaAt, mem;
      inlineBits := new Word[g.nLevels](_ => seq(32, _ => false));
      area := new Word[Reserved(g, 16)](_ => seq(32, _ => false));
      bitsP := new nat[g.nLevels](_ => 0);
      maxInlineLevel := 0;
      counts := InitCounts(g);
      st := Init(Grid(g), Caps(g));
      new;
      InitMemPool();
    }

    method InitMemPool()
      requires Sound(g) && Bytes(g) < 0x1_0000_0000 && HeadsPlaced(g, heads) && counts == InitCounts(g)
      requires st == Init(Grid(g), Caps(g)) && Arrays() && area.Length == Reserved(g, 16) && Zeroed() && maxInlineLevel == 0
      modifies this`maxInlineLevel, this`mem, bitsP, inlineBits, area
      ensures Valid() && mem == InitMem(g, heads, old(mem))
    {
      ReservationSuffices(g);
      InitLevels();
      SoundStored(g);
      StartingBits();
      InitBlocks();
      InitOn(g, heads, old(mem));
    }

    /** Storage as the loader leaves it. */
    ghost predicate Zeroed()
      reads inlineBits, area
    {
      && (forall i :: 0 <= i < inlineBits.Length ==> inlineBits[i] == seq(32, _ => false))
      && (forall i :: 0 <= i < area.Length ==> area[i] == seq(32, _ => false))
    }

    /** The top-level blocks whose bits are set before they are freed: a pointer in that word may leave some. */
    ghost function Leftover(): set<Block>
      requires inlineBits.Length > 0 && g.nMax <= 32
      reads inlineBits
    {
      set b | 0 <= b < g.nMax && inlineBits[0][b] :: Block(0, b)
    }

    lemma StartingBits()
      requires Shape() && forall i :: 0 <= i < area.Length ==> area[i] == seq(32, _ => false)
      requires forall l :: 0 < l <= maxInlineLevel && l < g.nLevels ==> inlineBits[l] == seq(32, _ => false)
      ensures BitsAre(Leftover())
    {
      forall l, b: nat | 0 <= l < g.nLevels && b < g.Count(l) ensures BitIs(l, b, Leftover()) {
        PtrIsPlace(l, b);
        assert g.Count(0) == g.nMax;
      }
    }

    /** The loop of `init_mem_pool` that starts the lists and assigns the bitmaps. */
    method InitLevels()
      requires Defined(g) && |heads| == g.nLevels && counts == InitCounts(g) && Arrays() && Zeroed() && maxInlineLevel == 0
      modifies this`maxInlineLevel, this`mem, bitsP, inlineBits
      ensures maxInlineLevel == MaxInline(counts) && mem == EmptyMem(heads, g.nLevels, old(mem))
      ensures forall l :: maxInlineLevel < l < g.nLevels ==> bitsP[l] == AreaStart(counts, l)
      ensures forall l :: 0 < l <= maxInlineLevel && l < g.nLevels ==> inlineBits[l] == seq(32, _ => false)
      ensures forall i :: 0 <= i < area.Length ==> area[i] == old(area[i])
    {
      var sz, bits := g.maxSz, 0;
      for i := 0 to g.nLevels
        invariant i < g.nLevels ==> sz == InitSize(g, i)
        invariant bits == AreaStart(counts, i) && maxInlineLevel == LastSmall(counts, i)
        invariant mem == EmptyMem(heads, i, old(mem))
        invariant forall l :: 0 <= l < i && counts[l] >= 32 ==> bitsP[l] == AreaStart(counts, l)
        invariant forall l :: 0 <= l < g.nLevels && (l >= i || counts[l] < 32) ==> inlineBits[l] == seq(32, _ => false)
      {
        var nblocks := BlocksOf(i, sz);
        mem := InitList(mem, heads[i]);
        bits := InitLevel(i, nblocks, bits);
        sz := Align4(sz / 4);
      }
      SmallLevels();
    }

    lemma SmallLevels()
      requires Defined(g) && counts == InitCounts(g)
      ensures forall l :: MaxInline(counts) < l < g.nLevels ==> counts[l] >= 32
      ensures forall l :: 0 < l <= MaxInline(counts) && l < g.nLevels ==> counts[l] < 32
    {
      InitCountsRise(g);
      forall l | 0 <= l < g.nLevels ensures MaxInline(counts) < l ==> counts[l] >= 32 {
        LastSmallSplits(counts, g.nLevels, l);
      }
      forall l | 0 < l <= MaxInline(counts) && l < g.nLevels ensures counts[l] < 32 {
        LastSmallSplits(counts, g.nLevels, l);
      }
    }

    method BlocksOf(i: nat, sz: nat) returns (nblocks: nat)
      requires Defined(g) && i < g.nLevels && sz == InitSize(g, i)
      ensures nblocks == InitCounts(g)[i]
    {
      InitCount(g, i);
      nblocks := g.nMax * g.maxSz / sz;
    }

    /** The bitmap of one level: its inline word, or a pointer in the same place. */
    method InitLevel(i: nat, nblocks: nat, bits: nat) returns (next: nat)
      requires i < |counts| && nblocks == counts[i] && i < bitsP.Length && i < inlineBits.Length
      requires bits == AreaStart(counts, i) && maxInlineLevel == LastSmall(counts, i)
      modifies this`maxInlineLevel, bitsP, inlineBits
      ensures next == AreaStart(counts, i + 1) && maxInlineLevel == LastSmall(counts, i + 1)
      ensures counts[i] >= 32 ==> bitsP[i] == bits
      ensures counts[i] < 32 ==> inlineBits[i] == old(inlineBits[i])
      ensures forall l :: 0 <= l < bitsP.Length && l != i ==> bitsP[l] == old(bitsP[l])
      ensures forall l :: 0 <= l < inlineBits.Length && l != i ==> inlineBits[l] == old(inlineBits[l])
    {
      if nblocks < 32 {
        maxInlineLevel := i;
        return bits;
      }
      bitsP[i] := bits;
      inlineBits[i] := WordOf(areaAt + 4 * bits);
      return bits + (nblocks + 31) / 32;
    }

    /** The loop of `init_mem_pool` that frees the top-level blocks. */
    method InitBlocks()
      requires Shape() && BitsAre(Leftover())
      modifies this`mem, inlineBits, area
      ensures BitsAre(TopBlocks(g.nMax)) && mem == TopMem(g, heads[0], g.nMax, old(mem))
    {
      ghost var left := Leftover();
      assert left + TopBlocks(0) == left;
      for i := 0 to g.nMax
        invariant BitsAre(left + TopBlocks(i)) && mem == TopMem(g, heads[0], i, old(mem))
      {
        var block := g.maxSz * i;
        assert block == TopAt(g, i);
        mem := Append(mem, heads[0], block);
        assert g.Count(0) == g.nMax;
        WriteBit(0, i, true, left + TopBlocks(i));
        assert left + TopBlocks(i) + {Block(0, i)} == left + TopBlocks(i + 1);
      }
      assert left + TopBlocks(g.nMax) == TopBlocks(g.nMax);
    }

    /** `alloc_block`: the address of the first free block of a level, or -1. */
    method AllocBlock(l: nat, lsz: nat) returns (block: int)
      requires Valid() && l < g.nLevels && lsz == g.LevelSize(l)
      modifies this`st, this`mem, inlineBits, area
      ensures Valid() && st == AllocStep(old(st), l) && mem == Get(old(mem), heads[l])
      ensures if old(st).lists[l] == [] then block == -1 else block >= 0 && block == old(st).lists[l][0] * lsz
    {
      StepOn(g, heads, st, mem, Alloc(l));
      AllocOn(g, heads, st, mem, l);
      if IsEmpty(mem, heads[l]) {
        return -1;
      }
      ghost var after, b := AllocStep(st, l), st.lists[l][0];
      assert ListAgrees(st, l) && b in st.lists[l];
      assert Real(Grid(g), Block(l, b));
      NumberOf(g, l, b);
      block := Next(mem, heads[l]);
      assert block == Address(g, Block(l, b));
      mem := Remove(mem, block);
      WriteBit(l, block / lsz, false, st.free);
      st := after;
    }

    /** Put a block at the end of its level's list, if it fits. */
    method AppendFree(level: nat, block: nat, lsz: nat)
      requires level < g.nLevels == |heads| && lsz == g.LevelSize(level) > 0
      modifies this`mem
      ensures mem == ListedMem(g, heads[level], level, block, old(mem))
    {
      if BlockFits(block, lsz) {
        mem := Append(mem, heads[level], block);
      }
    }

    /** The test in `free_block` for four free partners. */
    method CompletesQuad(level: nat, bn: nat, ghost free: set<Block>) returns (all: bool)
      requires Shape() && level < g.nLevels && bn < g.Count(level) && BitsAre(free)
      ensures all <==> level > 0 && Quad(level, bn / 4) <= free
    {
      if level == 0 {
        return false;
      }
      QuadInRange(g, level, bn);
      PartnersSetIff(level, bn, free);
      all := PartnersSet(level, bn);
    }

    /** The locked section of `free_block`. */
    method FreeBlockStep(level: nat, bn: nat, lsz: nat) returns (merged: bool)
      requires Valid() && level < g.nLevels && lsz == g.LevelSize(level) && Block(level, bn) in st.held
      modifies this`st, this`mem, inlineBits, area
      ensures Valid() && st == FreeStep(old(st), level, bn) && merged == Merges(old(st), level, bn)
      ensures mem == ApplyMem(g, heads, old(st), Free(level, bn), old(mem))
    {
      ghost var after := FreeStep(st, level, bn);
      StepOn(g, heads, st, mem, Free(level, bn));
      assert Real(Grid(g), Block(level, bn));
      merged := FreeInPlace(level, bn, lsz);
      st := after;
    }

    /** Its work on the bitmaps and lists. */
    method FreeInPlace(level: nat, bn: nat, lsz: nat) returns (merged: bool)
      requires Shape() && BitsAre(st.free)
      requires level < g.nLevels == |st.lists| && bn < g.Count(level) && lsz == g.LevelSize(level) && Block(level, bn) in st.held
      modifies this`mem, inlineBits, area
      ensures BitsAre(FreeStep(st, level, bn).free) && mem == ApplyMem(g, heads, st, Free(level, bn), old(mem))
      ensures merged == Merges(st, level, bn)
    {
      WriteBit(level, bn, true, st.free);
      ghost var free := st.free + {Block(level, bn)};
      merged := CompletesQuad(level, bn, free);
      if merged {
        QuadInRange(g, level, bn);
        TakeQuad(level, bn, lsz, free);
      } else {
        SizeSteps(g, level);
        AppendFree(level, BlockPtr(level, bn, lsz), lsz);
      }
    }

    /** `block_ptr`. */
    function BlockPtr(level: nat, bn: nat, lsz: nat): (block: nat)
      requires lsz == g.LevelSize(level)
      ensures block == Address(g, Block(level, bn))
    {
      bn * lsz
    }

    /** One turn of the merging loop of `free_block`: clear the bit, unlink the block unless it is the freed one. */
    method TakeOne(level: nat, bn: nat, i: nat, lsz: nat, ghost now: set<Block>)
      requires Shape() && level < g.nLevels && lsz == g.LevelSize(level) && i < 4
      requires 4 * (bn / 4) + 3 < g.Count(level) && BitsAre(now)
      modifies this`mem, inlineBits, area
      ensures BitsAre(now - {Block(level, 4 * (bn / 4) + i)})
      ensures mem == UnlinkedNext(g, level, bn, i, old(mem))
    {
      var b := 4 * (bn / 4) + i;
      WriteBit(level, b, false, now);
      SizeSteps(g, level);
      if b != bn && BlockFits(BlockPtr(level, b, lsz), lsz) {
        mem := Remove(mem, BlockPtr(level, b, lsz));
      }
    }

    /** The merging loop of `free_block`. */
    method TakeQuad(level: nat, bn: nat, lsz: nat, ghost free: set<Block>)
      requires Shape() && level < g.nLevels && lsz == g.LevelSize(level)
      requires 4 * (bn / 4) + 3 < g.Count(level) && BitsAre(free)
      modifies this`mem, inlineBits, area
      ensures BitsAre(free - Quad(level, bn / 4))
      ensures mem == UnlinkedMem(g, level, bn, 4, old(mem))
    {
      ghost var q, now := bn / 4, free;
      for i := 0 to 4
        invariant BitsAre(now) && now == free - FirstOfQuad(level, q, i)
        invariant mem == UnlinkedMem(g, level, bn, i, old(mem))
      {
        TakeOne(level, bn, i, lsz, now);
        now := now - {Block(level, 4 * q + i)};
      }
      FirstFour(level, q);
    }

    /** `free_block`, with its recursion up the levels. */
    method FreeBlock(level: nat, lsizes: seq<nat>, bn: nat)
      requires Valid() && level < g.nLevels && level < |lsizes| && Block(level, bn) in st.held
      requires Sizes(g, lsizes, level + 1)
      modifies this`st, this`mem, inlineBits, area
      ensures Valid() && st == FreeAll(old(st), level, bn)
      ensures st.held == old(st).held - {Block(level, bn)}
      decreases level
    {
      GridExact(g);
      FreeAllKeepsInv(Grid(g), st, level, bn);
      var merged := FreeBlockStep(level, bn, lsizes[level]);
      if merged {
        FreeBlock(level - 1, lsizes, bn / 4);
      }
    }

    /** One turn of the loop in `break_block`: quarter `i` of the block becomes free. */
    method ReleaseQuarter(l: nat, bn: nat, i: nat, block: nat, lsz: nat, ghost free: set<Block>)
      requires Shape() && l < g.nLevels && lsz == g.LevelSize(l) && BitsAre(free)
      requires 4 * bn + 3 < g.Count(l) && i < 4
      modifies this`mem, inlineBits, area
      ensures BitsAre(free + {Block(l, 4 * bn + i)})
      ensures mem == ListedMem(g, heads[l], l, NthAt(g, l, block, i), old(mem))
    {
      var block2 := lsz * i + block;
      assert block2 == NthAt(g, l, block, i);
      WriteBit(l, 4 * bn + i, true, free);
      SizeSteps(g, l);
      AppendFree(l, block2, lsz);
    }

    /** The loop in `break_block`. */
    method ReleaseQuarters(l: nat, bn: nat, block: nat, lsz: nat)
      requires Shape() && l < g.nLevels && lsz == g.LevelSize(l) && BitsAre(st.free) && 4 * bn + 3 < g.Count(l)
      modifies this`mem, inlineBits, area
      ensures BitsAre(st.free + (Quad(l, bn) - {Block(l, 4 * bn)}))
      ensures mem == QuartersMem(g, heads[l], l, block, 3, old(mem))
    {
      FreeAfterNone(st, l, bn);
      for i := 1 to 4
        invariant BitsAre(FreeAfter(st, l, bn, i)) && mem == QuartersMem(g, heads[l], l, block, i - 1, old(mem))
      {
        ReleaseQuarter(l, bn, i, block, lsz, FreeAfter(st, l, bn, i));
        FreeAfterNext(st, l, bn, i);
      }
      FirstFour(l, bn);
    }

    /** `break_block`: the address stays the same, the block is now the first quarter. */
    method BreakBlock(block: nat, l: nat, lsizes: seq<nat>, ghost bn: nat) returns (same: nat, ghost first: nat)
      requires Valid() && l + 1 < g.nLevels && l + 1 < |lsizes| && Block(l, bn) in st.held
      requires lsizes[l] == g.LevelSize(l) && lsizes[l + 1] == g.LevelSize(l + 1) && block == Address(g, Block(l, bn))
      modifies this`st, this`mem, inlineBits, area
      ensures Valid() && st == BreakStep(old(st), l, bn) && mem == ApplyMem(g, heads, old(st), Break(l, bn), old(mem))
      ensures first == 4 * bn && same == block == first * g.LevelSize(l + 1) && Block(l + 1, first) in st.held
    {
      ghost var after := BreakStep(st, l, bn);
      StepOn(g, heads, st, mem, Break(l, bn));
      assert Real(Grid(g), Block(l, bn)) && bn < Limit(st.cap, l);
      QuarterAddress(g, l, bn);
      ReleaseQuarters(l + 1, block / lsizes[l], block, lsizes[l + 1]);
      st := after;
      same, first := block, 4 * bn;
    }

    /** The first loop of `pool_alloc`: the level to allocate from and the smallest level with a free block. */
    method ScanLevels(size: nat) returns (lsizes: seq<nat>, allocL: int, freeL: int)
      requires Valid()
      ensures allocL == FitLevel(g, size, g.nLevels) && Sizes(g, lsizes, allocL + 1)
      ensures LastFree(st.lists, allocL, freeL)
    {
      lsizes, allocL, freeL := [], -1, -1;
      for i := 0 to g.nLevels
        invariant allocL == i - 1 && |lsizes| == i && Sizes(g, lsizes, i)
        invariant forall k :: 0 <= k < i ==> g.LevelSize(k) >= size
        invariant LastFree(st.lists, allocL, freeL)
      {
        lsizes := lsizes + [if i == 0 then Align4(g.maxSz) else Align4(lsizes[i - 1] / 4)];
        if lsizes[i] < size {
          FitLevelIs(g, size, i - 1);
          return;
        }
        allocL := i;
        AllocOn(g, heads, st, mem, i);
        if !IsEmpty(mem, heads[i]) {
          freeL := i;
        }
      }
      FitLevelIs(g, size, g.nLevels - 1);
    }

    /** The second loop of `pool_alloc`: break the block down to level `allocL`. */
    method BreakToLevel(block: nat, freeL: nat, allocL: nat, lsizes: seq<nat>, ghost b: nat) returns (blk: nat)
      requires Valid() && freeL <= allocL < g.nLevels && Sizes(g, lsizes, allocL + 1)
      requires Block(freeL, b) in st.held && block == b * g.LevelSize(freeL)
      modifies this`st, this`mem, inlineBits, area
      ensures Valid() && st == BreakDown(old(st), freeL, b, allocL)
      ensures blk == FirstWithin(freeL, b, allocL) * g.LevelSize(allocL) && blk == block
      ensures Block(allocL, FirstWithin(freeL, b, allocL)) in st.held
    {
      blk := block;
      ghost var bn: nat := b;
      ghost var goal, first := BreakDown(st, freeL, b, allocL), FirstWithin(freeL, b, allocL);
      for l := freeL to allocL
        invariant Valid() && Block(l, bn) in st.held && blk == bn * g.LevelSize(l)
        invariant blk == block
        invariant Breaking(st, l, bn, allocL, goal, first)
      {
        BreakingOn(st, l, bn, 4 * bn, allocL, goal, first);
        blk, bn := BreakBlock(blk, l, lsizes, bn);
      }
    }

    /** The rest of `pool_alloc`: take a block of level `freeL` and break it down to `allocL`. */
    method TakeAndBreak(freeL: nat, allocL: nat, lsizes: seq<nat>) returns (r: AllocResult)
      requires Valid() && freeL <= allocL < g.nLevels && Sizes(g, lsizes, allocL + 1)
      modifies this`st, this`mem, inlineBits, area
      ensures Valid()
      ensures old(st).lists[freeL] == [] ==> r == TryAgain && st == old(st)
      ensures old(st).lists[freeL] != [] ==>
                TookFrom(g, old(st), st, freeL, allocL, r) && r.data == old(st).lists[freeL][0] * g.LevelSize(freeL)
    {
      ghost var s := st;
      var blk := AllocBlock(freeL, lsizes[freeL]);
      if blk == -1 {
        return TryAgain;
      }
      assert s.lists[freeL] != [] && Block(freeL, s.lists[freeL][0]) in st.held;
      r := BreakTaken(blk, freeL, allocL, lsizes, s);
    }

    /** The block that was taken from level `freeL` in state `s` is broken down to `allocL`. */
    method BreakTaken(block: nat, freeL: nat, allocL: nat, lsizes: seq<nat>, ghost s: State) returns (r: AllocResult)
      requires Valid() && freeL <= allocL < g.nLevels && Sizes(g, lsizes, allocL + 1)
      requires freeL < |s.lists| == g.nLevels && s.lists[freeL] != [] && st == AllocStep(s, freeL)
      requires Block(freeL, s.lists[freeL][0]) in st.held && block == s.lists[freeL][0] * g.LevelSize(freeL)
      modifies this`st, this`mem, inlineBits, area
      ensures Valid() && TookFrom(g, s, st, freeL, allocL, r) && r.data == block
    {
      var blk := BreakToLevel(block, freeL, allocL, lsizes, s.lists[freeL][0]);
      ghost var first := FirstWithin(freeL, s.lists[freeL][0], allocL);
      TookFromIs(g, s, st, freeL, allocL, first, blk);
      HeldId(g, st, Block(allocL, first));
      r := Allocated(allocL, BlockId(blk / lsizes[allocL]), blk);
    }

    /**
      `pool_alloc`, run without interruption. It fails exactly if no list of a level with blocks of that size has a
      block. Otherwise the first block of the smallest such level that has one is broken down to the smallest level
      that fits, and the caller holds the block at the same address, and nothing else besides what was held before.
     */
    method PoolAlloc(size: nat) returns (r: AllocResult, ghost from: int)
      requires Valid()
      modifies this`st, this`mem, inlineBits, area
      ensures Valid() && r != TryAgain
      ensures r.NoMemory? ==> st == old(st)
      ensures r.NoMemory? <==> forall l :: 0 <= l < g.nLevels && g.LevelSize(l) >= size ==> old(st).lists[l] == []
      ensures r.NoMemory? <==> g.LevelSize(0) < size || Unavailable(g, old(st), FitLevel(g, size, g.nLevels))
      ensures r.Allocated? ==>
                && r.level < g.nLevels && g.LevelSize(r.level) >= size
                && (forall l :: r.level < l < g.nLevels ==> g.LevelSize(l) < size)
                && 0 <= from <= r.level && old(st).lists[from] != []
                && (forall l :: from < l <= r.level ==> old(st).lists[l] == [])
                && r.data == old(st).lists[from][0] * g.LevelSize(from) == r.block * g.LevelSize(r.level)
                && st.held == old(st).held + {Block(r.level, r.block)}
                && TookFrom(g, old(st), st, from, r.level, r)
    {
      var lsizes, allocL, freeL := ScanLevels(size);
      from := freeL;
      FitLevelIff(g, size);
      if allocL >= 0 {
        NoMemoryIff(g, st, allocL);
        assert freeL < 0 <==> Exhausted(st, allocL);
      }
      if allocL < 0 || freeL < 0 {
        return NoMemory, from;
      }
      TookHeld(g, st, freeL, allocL);
      r := TakeAndBreak(freeL, allocL, lsizes);
    }

    /** `k_mem_pool_free`, up to waking the waiters. */
    method Release(level: nat, block: nat)
      requires Valid() && level < g.nLevels && Block(level, block) in st.held
      modifies this`st, this`mem, inlineBits, area
      ensures Valid() && st == FreeAll(old(st), level, block)
      ensures st.held == old(st).held - {Block(level, block)}
    {
      var lsizes := SizesTo(level);
      FreeBlock(level, lsizes, block);
    }

    /** The table of level sizes. */
    method SizesTo(level: nat) returns (lsizes: seq<nat>)
      ensures |lsizes| == level + 1 && Sizes(g, lsizes, level + 1)
    {
      lsizes := [Align4(g.maxSz)];
      for i := 1 to level + 1
        invariant |lsizes| == i && Sizes(g, lsizes, i)
      {
        lsizes := lsizes + [Align4(lsizes[i - 1] / 4)];
      }
    }
  }

  /** What an allocation returns: the block id and address, or the two error codes. */
  datatype AllocResult = Allocated(level: nat, block: nat, data: nat) | NoMemory | TryAgain

  /** A successful allocation: the head of list `from` was taken and broken down to level `level`. */
  ghost predicate TookFrom(g: Geometry, s: State, t: State, from: nat, level: nat, r: AllocResult) {
    && from <= level < |s.lists| && s.lists[from] != []
    && (t, r) == Took(g, s, from, level) && r.Allocated? && Block(r.level, r.block) in t.held
  }

  /** The state and the result after the first block of level `from` was taken and broken down to `level`. */
  ghost function Took(g: Geometry, s: State, from: nat, level: nat): (State, AllocResult)
    requires from <= level < |s.lists| && s.lists[from] != []
  {
    var b := s.lists[from][0];
    var first := FirstWithin(from, b, level);
    (BreakDown(AllocStep(s, from), from, b, level), Allocated(level, first, first * g.LevelSize(level)))
  }

  /** The caller holds the block that it got, and the other blocks are held as before. */
  lemma TookHeld(g: Geometry, s: State, from: nat, level: nat)
    requires Sound(g) && Inv(Grid(g), s) && from <= level < g.nLevels && s.lists[from] != []
    ensures var (t, r) := Took(g, s, from, level); t.held == s.held + {Block(level, r.block)}
  {
    var b, t := s.lists[from][0], AllocStep(s, from);
    GridExact(g);
    AllocKeepsInv(Grid(g), s, from);
    BreakDownHeld(Grid(g), t, from, b, level);
    assert ListAgrees(s, from) && b in s.lists[from];
    assert t.held - {Block(from, b)} == s.held;
  }

  lemma TookFromIs(g: Geometry, s: State, t: State, from: nat, level: nat, first: nat, blk: nat)
    requires Defined(g) && from <= level < |s.lists| && level < g.nLevels && s.lists[from] != []
    requires first == FirstWithin(from, s.lists[from][0], level) && Block(level, first) in t.held
    requires t == BreakDown(AllocStep(s, from), from, s.lists[from][0], level) && blk == first * g.LevelSize(level)
    ensures g.LevelSize(level) > 0 && blk / g.LevelSize(level) == first
    ensures TookFrom(g, s, t, from, level, Allocated(level, first, blk))
  {
    NumberOf(g, level, first);
  }

  /** Breaking down from here leads to the state `goal`, with block `first` for the caller. */
  ghost predicate Breaking(s: State, l: nat, b: nat, dest: nat, goal: State, first: nat) {
    l <= dest < |s.lists| && BreakDown(s, l, b, dest) == goal && FirstWithin(l, b, dest) == first
  }

  lemma BreakingOn(s: State, l: nat, b: nat, next: nat, dest: nat, goal: State, first: nat)
    requires l < dest && next == 4 * b && Breaking(s, l, b, dest, goal, first)
    ensures Breaking(BreakStep(s, l, b), l + 1, next, dest, goal, first)
  {
  }

  predicate Sizes(g: Geometry, lsizes: seq<nat>, n: int) {
    n <= |lsizes| && forall i :: 0 <= i < n ==> lsizes[i] == g.LevelSize(i)
  }

  /** The last level, down to `allocL`, whose list is not empty; -1 if there is none. */
  predicate LastFree(lists: seq<seq<nat>>, allocL: int, freeL: int) {
    && -1 <= freeL <= allocL < |lists|
    && (freeL >= 0 ==> lists[freeL] != [])
    && forall k :: freeL < k <= allocL ==> lists[k] == []
  }

  /** The last of the levels below `n` whose blocks hold `size` bytes; -1 if there is none. */
  function FitLevel(g: Geometry, size: nat, n: nat): int {
    if n == 0 then -1 else if g.LevelSize(n - 1) >= size then n - 1 else FitLevel(g, size, n - 1)
  }

  lemma {:induction false} FitLevelDown(g: Geometry, size: nat, n: nat)
    requires Defined(g) && n <= g.nLevels
    ensures -1 <= FitLevel(g, size, n) < n
    ensures forall l: nat :: l < n ==> (g.LevelSize(l) >= size <==> l <= FitLevel(g, size, n))
  {
    if n > 0 {
      FitLevelDown(g, size, n - 1);
      forall l: nat | l < n ensures g.LevelSize(l) >= size <==> l <= FitLevel(g, size, n) {
        SizesShrink(g, l, n - 1);
      }
    }
  }

  /** The chosen level is the smallest that fits: exactly the levels up to it hold `size` bytes. */
  lemma FitLevelIff(g: Geometry, size: nat)
    requires Defined(g)
    ensures -1 <= FitLevel(g, size, g.nLevels) < g.nLevels
    ensures forall l: nat :: l < g.nLevels ==> (g.LevelSize(l) >= size <==> l <= FitLevel(g, size, g.nLevels))
  {
    FitLevelDown(g, size, g.nLevels);
  }

  lemma FitLevelIs(g: Geometry, size: nat, l: int)
    requires Defined(g) && -1 <= l < g.nLevels
    requires forall k :: 0 <= k <= l ==> g.LevelSize(k) >= size
    requires l + 1 < g.nLevels ==> g.LevelSize(l + 1) < size
    ensures FitLevel(g, size, g.nLevels) == l
  {
    FitLevelIff(g, size);
    var fit := FitLevel(g, size, g.nLevels);
    assert 0 <= l ==> g.LevelSize(l) >= size;
    assert l + 1 < g.nLevels ==> !(g.LevelSize(l + 1) >= size);
  }

  /** Every block of that level that the pool can have overlaps a held block. */
  ghost predicate Unavailable(g: Geometry, s: State, l: int) {
    0 <= l && forall a: nat :: IsBlock(g, l, a) ==> OverlapsHeld(g, s, l, a)
  }

  /** `block_num` of `block_ptr`. */
  lemma NumberOf(g: Geometry, l: nat, b: nat)
    requires Defined(g) && l < g.nLevels
    ensures g.LevelSize(l) > 0 && b * g.LevelSize(l) / g.LevelSize(l) == b
  {
    SizeSteps(g, l);
    DivUnique(b * g.LevelSize(l), g.LevelSize(l), b, 0);
  }

  lemma QuarterAddress(g: Geometry, l: nat, bn: nat)
    requires Sound(g) && l + 1 < g.nLevels && bn < g.Count(l) && bn < Limit(Caps(g), l)
    ensures g.LevelSize(l) > 0 && bn * g.LevelSize(l) / g.LevelSize(l) == bn
    ensures bn * g.LevelSize(l) == 4 * bn * g.LevelSize(l + 1) && 4 * bn + 3 < g.Count(l + 1)
  {
    NumberOf(g, l, bn);
    QuarterStart(g, l, bn);
    CountDown(g, l, bn);
  }

  /** The free blocks when the quarters 1 to `i - 1` of a block of the level above are free. */
  ghost function FreeAfter(s: State, l: nat, bn: nat, i: nat): set<Block> {
    s.free + (FirstOfQuad(l, bn, i) - {Block(l, 4 * bn)})
  }

  lemma FreeAfterNone(s: State, l: nat, bn: nat)
    ensures FreeAfter(s, l, bn, 1) == s.free
  {
    assert FirstOfQuad(l, bn, 1) == {Block(l, 4 * bn)};
  }

  lemma FreeAfterNext(s: State, l: nat, bn: nat, i: nat)
    requires 0 < i < 4
    ensures FreeAfter(s, l, bn, i + 1) == FreeAfter(s, l, bn, i) + {Block(l, 4 * bn + i)}
  {
  }

  function GroupBit(bn: nat, i: nat): (bit: nat)
    requires i < 4
    ensures bit < 32
  {
    4 * (bn % 32 / 4) + i
  }

  function FirstOfQuad(l: nat, q: nat, n: nat): set<Block> {
    if n == 0 then {} else FirstOfQuad(l, q, n - 1) + {Block(l, 4 * q + (n - 1))}
  }

  lemma FirstFour(l: nat, q: nat)
    ensures FirstOfQuad(l, q, 4) == Quad(l, q)
  {
    assert FirstOfQuad(l, q, 1) == {Block(l, 4 * q)};
    assert FirstOfQuad(l, q, 2) == {Block(l, 4 * q), Block(l, 4 * q + 1)};
    assert FirstOfQuad(l, q, 3) == {Block(l, 4 * q), Block(l, 4 * q + 1), Block(l, 4 * q + 2)};
  }

  /** A group of four bits never crosses a word. */
  lemma GroupInWord(bn: nat, i: nat)
    requires i < 4
    ensures (4 * (bn / 4) + i) / 32 == bn / 32 && (4 * (bn / 4) + i) % 32 == GroupBit(bn, i)
  {
  }

  lemma QuadInRange(g: Geometry, l: nat, bn: nat)
    requires 0 < l && bn < g.Count(l)
    ensures 4 * (bn / 4) + 3 < g.Count(l)
  {
    CountQuadruples(g, l - 1);
  }
}
