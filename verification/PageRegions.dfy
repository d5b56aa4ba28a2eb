/**
  Memory regions for the x86 page-table generator: how a region is cut into pieces of the
  4 MB slots of the page directory, and exactly which addresses the pieces cover.
 */
module PageRegions {

  const PAGE: int := 4096
  const SLOT: int := 4194304
  const TOP: int := 0x1_0000_0000

  type Word32 = w: int | 0 <= w < 0x1_0000_0000

  datatype Region = Region(start: Word32, size: Word32, perm: Word32)

  /** `get_pde_number` and `get_pte_number`; shifts of negative numbers round down. */
  function PdeNumber(v: int): nat { v / SLOT % 1024 }

  function PteNumber(v: int): nat { v / PAGE % 1024 }

  /** `valid_pages_inside_pde`: part of a region, as the entries `first` to `last` of one page table. */
  datatype Pages = Pages(start: nat, size: nat, first: nat, last: nat, perm: nat) {
    predicate Has(pte: nat) {
      first <= pte <= last
    }
  }

  datatype Chunk = Chunk(slot: nat, pages: Pages)

  /** The part of a region in the slot that it starts in. */
  function FirstChunk(r: Region): Chunk {
    var a := PteNumber(r.start);
    if r.size + a * PAGE >= SLOT
    then Chunk(PdeNumber(r.start), Pages(r.start, (1024 - a) * PAGE, a, 1023, r.perm))
    else Chunk(PdeNumber(r.start), Pages(r.start, r.size, a, PteNumber(r.start + r.size - 1), r.perm))
  }

  /** The part of `overflow` remaining bytes that goes into a further slot. */
  function ExtraChunk(slot: nat, overflow: nat, perm: nat): Chunk
    requires overflow > 0
  {
    if overflow >= SLOT then Chunk(slot, Pages(slot * SLOT, SLOT, 0, 1023, perm))
    else Chunk(slot, Pages(slot * SLOT, overflow, 0, PteNumber(slot * SLOT + overflow - 1), perm))
  }

  /** The loop over the further slots, up to and including `last`. */
  function ExtraChunks(slot: nat, last: nat, overflow: nat, perm: nat): seq<Chunk>
    decreases last + 1 - slot
  {
    if overflow == 0 || slot > last then []
    else
      var c := ExtraChunk(slot, overflow, perm);
      [c] + ExtraChunks(slot + 1, last, overflow - c.pages.size, perm)
  }

  function Overflow(r: Region): (n: nat)
    ensures n <= r.size
  {
    r.size - FirstChunk(r).pages.size
  }

  /** All pieces of a region, in the order in which they are recorded. */
  function Chunks(r: Region): seq<Chunk> {
    [FirstChunk(r)] + ExtraChunks(PdeNumber(r.start) + 1, PdeNumber(r.start + r.size), Overflow(r), r.perm)
  }

  predicate Aligned(n: int) { n % PAGE == 0 }

  ghost predicate InChunks(cs: seq<Chunk>, slot: nat, pte: nat) {
    exists i :: 0 <= i < |cs| && cs[i].slot == slot && cs[i].pages.Has(pte)
  }

  /** The addresses that a region asks for. */
  predicate Covers(r: Region, addr: int) {
    r.start <= addr < r.start + r.size
  }

  /**
    The addresses that a region gets. Two kinds of regions differ from what they ask for: an
    empty region at the start of a slot gets the whole slot, and a region that reaches the
    end of the address space only gets its part of the slot that it starts in.
   */
  predicate Maps(r: Region, addr: int) {
    if r.size == 0 then r.start % SLOT == 0 && addr / SLOT == r.start / SLOT
    else Covers(r, addr) && (r.start + r.size < TOP || addr / SLOT == r.start / SLOT)
  }

  // ---------- the pieces cover exactly that ----------

  lemma PageNumbers(p: nat, addr: nat)
    requires addr == p * PAGE
    ensures PteNumber(addr) == p % 1024 && addr / SLOT == p / 1024
  {
  }

  /** The first piece, in pages: the region starts at page `p` and has `m` pages. */
  lemma FirstChunkHas(r: Region, p: nat, m: nat, pte: nat)
    requires r.start == p * PAGE && r.size == m * PAGE && pte < 1024
    ensures var c := FirstChunk(r);
            && c.slot == p / 1024
            && (c.pages.Has(pte) <==>
                if m == 0 then p % 1024 == 0 else p <= p / 1024 * 1024 + pte < p + m)
  {
    PageNumbers(p, r.start);
    var a := p % 1024;
    assert p == p / 1024 * 1024 + a;
    if m + a < 1024 {
      assert (r.start + r.size - 1) / PAGE == p + m - 1;
    }
  }

  lemma ExtraChunkHas(slot: nat, o: nat, perm: nat, pte: nat)
    requires o > 0 && pte < 1024
    ensures ExtraChunk(slot, o * PAGE, perm).pages.Has(pte) <==> pte < o
    ensures ExtraChunk(slot, o * PAGE, perm).pages.size == if o >= 1024 then SLOT else o * PAGE
  {
    if o < 1024 {
      assert (slot * SLOT + o * PAGE - 1) / PAGE == slot * 1024 + o - 1;
    }
  }

  lemma {:induction false} InChunksConcat(cs: seq<Chunk>, ds: seq<Chunk>, slot: nat, pte: nat)
    ensures InChunks(cs + ds, slot, pte) <==> InChunks(cs, slot, pte) || InChunks(ds, slot, pte)
  {
    if i :| 0 <= i < |cs| && cs[i].slot == slot && cs[i].pages.Has(pte) {
      assert (cs + ds)[i] == cs[i];
    }
    if i :| 0 <= i < |ds| && ds[i].slot == slot && ds[i].pages.Has(pte) {
      assert (cs + ds)[|cs| + i] == ds[i];
    }
  }

  /** The further pieces cover the overflow, as far as the loop goes. */
  lemma {:induction false} ExtraChunksHas(slot: nat, last: nat, o: nat, perm: nat, s: nat, pte: nat)
    requires pte < 1024
    ensures InChunks(ExtraChunks(slot, last, o * PAGE, perm), s, pte)
       <==> slot <= s <= last && 1024 * (s - slot) + pte < o
    decreases last + 1 - slot
  {
    if o > 0 && slot <= last {
      var c := ExtraChunk(slot, o * PAGE, perm);
      var more := if o >= 1024 then o - 1024 else 0;
      ExtraChunkHas(slot, o, perm, pte);
      assert o * PAGE - c.pages.size == more * PAGE;
      ExtraChunksHas(slot + 1, last, more, perm, s, pte);
      InChunksConcat([c], ExtraChunks(slot + 1, last, more * PAGE, perm), s, pte);
      assert InChunks([c], s, pte) <==> c.slot == s && c.pages.Has(pte) by {
        if c.slot == s && c.pages.Has(pte) {
          assert [c][0].slot == s;
        }
      }
    }
  }

  lemma OneChunk(c: Chunk, s: nat, pte: nat)
    ensures InChunks([c], s, pte) <==> c.slot == s && c.pages.Has(pte)
  {
    if c.slot == s && c.pages.Has(pte) {
      assert [c][0].slot == s;
    }
  }

  /** The pieces of a page-aligned region cover exactly the addresses that `Maps` says. */
  lemma ChunksCover(r: Region, s: nat, pte: nat)
    requires Aligned(r.start) && Aligned(r.size) && s < 1024 && pte < 1024
    ensures InChunks(Chunks(r), s, pte) <==> Maps(r, s * SLOT + pte * PAGE)
  {
    var p, m := r.start / PAGE, r.size / PAGE;
    var slot, a := p / 1024, p % 1024;
    PageNumbers(p, r.start);
    FirstChunkHas(r, p, m, pte);
    OneChunk(FirstChunk(r), s, pte);
    var o := if m + a >= 1024 then m - (1024 - a) else 0;
    var last := PdeNumber(r.start + r.size);
    assert Overflow(r) == o * PAGE;
    ExtraChunksHas(slot + 1, last, o, r.perm, s, pte);
    InChunksConcat([FirstChunk(r)], ExtraChunks(slot + 1, last, Overflow(r), r.perm), s, pte);
    LastSlot(p, m);
    MapsInPages(r, p, m, s, pte);
  }

  lemma LastSlot(p: nat, m: nat)
    requires p < 1024 * 1024 && m < 1024 * 1024
    ensures var last := PdeNumber(p * PAGE + m * PAGE);
            if p + m < 1024 * 1024 then last == (p + m) / 1024 else last <= p / 1024
  {
    assert (p * PAGE + m * PAGE) / SLOT == (p + m) / 1024;
  }

  lemma MapsInPages(r: Region, p: nat, m: nat, s: nat, pte: nat)
    requires r.start == p * PAGE && r.size == m * PAGE && s < 1024 && pte < 1024
    ensures Maps(r, s * SLOT + pte * PAGE) <==>
              if m == 0 then p % 1024 == 0 && s == p / 1024
              else p <= 1024 * s + pte < p + m && (p + m < 1024 * 1024 || s == p / 1024)
  {
    var addr := s * SLOT + pte * PAGE;
    assert addr / SLOT == s;
    assert addr == (1024 * s + pte) * PAGE;
  }

  /** A region that reaches the end of the address space is cut off behind its first slot, whatever its size. */
  lemma CutOffCover(r: Region, s: nat, pte: nat)
    requires Aligned(r.start) && r.start + r.size >= TOP && s < 1024 && pte < 1024
    ensures Chunks(r) == [FirstChunk(r)] && Aligned(FirstChunk(r).pages.size)
    ensures InChunks(Chunks(r), s, pte) <==> Maps(r, s * SLOT + pte * PAGE)
  {
    var p := r.start / PAGE;
    var slot, a := p / 1024, p % 1024;
    PageNumbers(p, r.start);
    assert r.size + a * PAGE >= SLOT;
    assert PdeNumber(r.start + r.size) <= slot;
    assert Chunks(r) == [FirstChunk(r)];
    OneChunk(FirstChunk(r), s, pte);
    var addr := s * SLOT + pte * PAGE;
    assert addr / SLOT == s && addr < TOP;
    assert s == slot ==> (r.start <= addr <==> a <= pte);
  }

  // ---------- what validation lets through ----------

  /** `validate_pde_regions` accepts the pieces of a region. */
  ghost predicate Accepted(cs: seq<Chunk>) {
    forall i :: 0 <= i < |cs| ==> Aligned(cs[i].pages.start) && Aligned(cs[i].pages.size)
  }

  lemma AcceptedCons(c: Chunk, rest: seq<Chunk>)
    ensures Accepted([c] + rest) <==> Aligned(c.pages.start) && Aligned(c.pages.size) && Accepted(rest)
  {
    var cs := [c] + rest;
    if Accepted(cs) {
      assert cs[0] == c;
      assert forall i :: 0 <= i < |rest| ==> rest[i] == cs[i + 1];
    }
  }

  lemma SlotAligned(slot: nat, n: int)
    ensures Aligned(slot * SLOT) && (Aligned(n) <==> Aligned(n - SLOT))
  {
    WholePages(slot * 1024);
    assert slot * SLOT == slot * 1024 * PAGE;
    var q, r := n / PAGE, n % PAGE;
    assert n - SLOT == (q - 1024) * PAGE + r;
  }

  lemma WholePages(q: int)
    ensures Aligned(q * PAGE)
  {
  }

  lemma {:induction false} ExtraChunksAccepted(slot: nat, last: nat, overflow: nat, perm: nat)
    requires slot <= last + 1 && overflow <= (last + 1 - slot) * SLOT
    ensures Accepted(ExtraChunks(slot, last, overflow, perm)) <==> Aligned(overflow)
    decreases last + 1 - slot
  {
    if overflow > 0 {
      var c := ExtraChunk(slot, overflow, perm);
      ExtraChunksAccepted(slot + 1, last, overflow - c.pages.size, perm);
      AcceptedCons(c, ExtraChunks(slot + 1, last, overflow - c.pages.size, perm));
      SlotAligned(slot, overflow);
    }
  }

  /**
    Validation refuses a region exactly when its start is not page-aligned, or its size is
    not and the region ends before the end of the address space.
   */
  lemma AcceptedIff(r: Region)
    ensures Accepted(Chunks(r)) <==> Aligned(r.start) && (Aligned(r.size) || r.start + r.size >= TOP)
  {
    var first, cs := FirstChunk(r), Chunks(r);
    assert cs[0] == first;
    if Aligned(r.start) {
      if r.start + r.size >= TOP {
        CutOffCover(r, 0, 0);
      } else {
        EnoughSlots(r);
        var slot, last := PdeNumber(r.start) + 1, PdeNumber(r.start + r.size);
        ExtraChunksAccepted(slot, last, Overflow(r), r.perm);
        AcceptedCons(first, ExtraChunks(slot, last, Overflow(r), r.perm));
      }
    }
  }

  lemma EnoughSlots(r: Region)
    requires Aligned(r.start) && r.start + r.size < TOP
    ensures var slot, last := PdeNumber(r.start) + 1, PdeNumber(r.start + r.size);
            slot <= last + 1 && Overflow(r) <= (last + 1 - slot) * SLOT
    ensures Aligned(FirstChunk(r).pages.size) && Aligned(Overflow(r)) <==> Aligned(r.size)
  {
    var p := r.start / PAGE;
    var a := p % 1024;
    PageNumbers(p, r.start);
    var end := r.start + r.size;
    assert PdeNumber(r.start) == r.start / SLOT && PdeNumber(end) == end / SLOT;
    assert r.start == r.start / SLOT * SLOT + a * PAGE;
    if r.size + a * PAGE >= SLOT {
      assert Overflow(r) == end - (r.start / SLOT + 1) * SLOT;
    }
  }
}
