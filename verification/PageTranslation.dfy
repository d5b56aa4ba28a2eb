/**
  What the generated tables mean for the listed regions: which addresses translate, to
  what, and with which rights.
 */
module PageTranslation {
  import opened PageRegions
  import opened PageTables

  /** The regions that the alignment check lets through. */
  predicate Sound(r: Region) {
    Aligned(r.start) && (Aligned(r.size) || r.start + r.size >= TOP)
  }

  predicate AllSound(regions: seq<Region>) {
    forall i :: 0 <= i < |regions| ==> Sound(regions[i])
  }

  predicate SomeMaps(regions: seq<Region>, addr: int) {
    exists i :: 0 <= i < |regions| && Maps(regions[i], addr)
  }

  /** The rights that the last region which maps an address gives it. */
  function Granted(regions: seq<Region>, addr: int): nat
    requires SomeMaps(regions, addr)
  {
    var n := |regions| - 1;
    if Maps(regions[n], addr) then regions[n].perm
    else assert regions[..n] + [regions[n]] == regions; Granted(regions[..n], addr)
  }

  /** A region has something recorded for a slot. */
  predicate Opens(r: Region, slot: nat) {
    slot == r.start / SLOT || Maps(r, slot * SLOT)
  }

  predicate SomeOpens(regions: seq<Region>, slot: nat) {
    exists i :: 0 <= i < |regions| && Opens(regions[i], slot)
  }

  /** The rights of the first region that has something recorded for a slot. */
  function Opener(regions: seq<Region>, slot: nat): nat
    requires SomeOpens(regions, slot)
  {
    var n := |regions| - 1;
    if SomeOpens(regions[..n], slot) then Opener(regions[..n], slot) else regions[n].perm
  }

  // ---------- pieces of one region ----------

  ghost predicate HasSlot(cs: seq<Chunk>, slot: nat) {
    exists i :: 0 <= i < |cs| && cs[i].slot == slot
  }

  ghost predicate AllPerm(cs: seq<Chunk>, perm: nat) {
    forall i :: 0 <= i < |cs| ==> cs[i].pages.perm == perm
  }

  lemma HasSlotFirst(c: Chunk, cs: seq<Chunk>, slot: nat)
    ensures HasSlot([c] + cs, slot) <==> c.slot == slot || HasSlot(cs, slot)
  {
    var ds := [c] + cs;
    assert ds[0] == c;
    if i :| 0 <= i < |cs| && cs[i].slot == slot {
      assert ds[i + 1] == cs[i];
    }
  }

  lemma {:induction false} ExtraChunksShape(slot: nat, last: nat, overflow: nat, perm: nat, s: nat)
    ensures AllPerm(ExtraChunks(slot, last, overflow, perm), perm)
    ensures HasSlot(ExtraChunks(slot, last, overflow, perm), s)
       <==> InChunks(ExtraChunks(slot, last, overflow, perm), s, 0)
    ensures HasSlot(ExtraChunks(slot, last, overflow, perm), s) ==> s <= last
    decreases last + 1 - slot
  {
    var cs := ExtraChunks(slot, last, overflow, perm);
    if overflow > 0 && slot <= last {
      var c := ExtraChunk(slot, overflow, perm);
      var rest := ExtraChunks(slot + 1, last, overflow - c.pages.size, perm);
      ExtraChunksShape(slot + 1, last, overflow - c.pages.size, perm, s);
      assert cs == [c] + rest;
      InChunksConcat([c], rest, s, 0);
      OneChunk(c, s, 0);
      HasSlotFirst(c, rest, s);
    }
  }

  lemma ChunksShape(r: Region, s: nat)
    requires Sound(r) && s < 1024
    ensures AllPerm(Chunks(r), r.perm)
    ensures HasSlot(Chunks(r), s) <==> Opens(r, s)
  {
    var slot, last := PdeNumber(r.start) + 1, PdeNumber(r.start + r.size);
    var first, extra := FirstChunk(r), ExtraChunks(slot, last, Overflow(r), r.perm);
    ExtraChunksShape(slot, last, Overflow(r), r.perm, s);
    ChunksMap(r, s, 0);
    InChunksConcat([first], extra, s, 0);
    OneChunk(first, s, 0);
    HasSlotFirst(first, extra, s);
    assert PdeNumber(r.start) == r.start / SLOT;
  }

  lemma ChunksMap(r: Region, s: nat, pte: nat)
    requires Sound(r) && s < 1024 && pte < 1024
    ensures InChunks(Chunks(r), s, pte) <==> Maps(r, s * SLOT + pte * PAGE)
  {
    if Aligned(r.size) {
      ChunksCover(r, s, pte);
    } else {
      CutOffCover(r, s, pte);
    }
  }

  /** A region maps whole pages. */
  lemma MapsWholePages(r: Region, addr: nat)
    requires Sound(r) && addr < TOP
    ensures Maps(r, addr) <==> Maps(r, addr / SLOT * SLOT + PteNumber(addr) * PAGE)
  {
    var page := addr / SLOT * SLOT + PteNumber(addr) * PAGE;
    assert page == addr / PAGE * PAGE;
    assert page / SLOT == addr / SLOT;
  }

  // ---------- the first and the last record of a slot ----------

  lemma {:induction false} LastPermAppend(ps: seq<Pages>, p: Pages, pte: nat)
    requires AnyHas(ps + [p], pte)
    ensures !p.Has(pte) ==> AnyHas(ps, pte)
    ensures LastPerm(ps + [p], pte) == if p.Has(pte) then p.perm else LastPerm(ps, pte)
  {
    assert (ps + [p])[..|ps|] == ps;
  }

  ghost predicate Extends(t: Directory, u: Directory, cs: seq<Chunk>, perm: nat, slot: nat, pte: nat) {
    && (slot in u <==> slot in t || HasSlot(cs, slot))
    && (slot in t ==> t[slot] != [])
    && (slot in u ==> u[slot] != [])
    && (slot in u ==> u[slot][0].perm == if slot in t then t[slot][0].perm else perm)
    && (InTable(u, slot, pte) <==> InTable(t, slot, pte) || InChunks(cs, slot, pte))
    && (InTable(u, slot, pte) ==>
          LastPerm(u[slot], pte) == if InChunks(cs, slot, pte) then perm else LastPerm(t[slot], pte))
  }

  lemma AddChunkExtends(t: Directory, u: Directory, cs: seq<Chunk>, c: Chunk, perm: nat, slot: nat, pte: nat)
    requires Extends(t, u, cs, perm, slot, pte) && c.pages.perm == perm
    ensures Extends(t, AddChunk(u, c), cs + [c], perm, slot, pte)
  {
    var v := AddChunk(u, c);
    AddChunkHas(u, c, slot, pte);
    OneChunk(c, slot, pte);
    InChunksConcat(cs, [c], slot, pte);
    HasSlotAppend(cs, c, slot);
    if c.slot == slot && InTable(v, slot, pte) {
      if slot in u {
        LastPermAppend(u[slot], c.pages, pte);
      } else {
        assert v[slot] == [] + [c.pages];
        LastPermAppend([], c.pages, pte);
      }
    }
  }

  lemma HasSlotAppend(cs: seq<Chunk>, c: Chunk, slot: nat)
    ensures HasSlot(cs + [c], slot) <==> HasSlot(cs, slot) || c.slot == slot
  {
    var ds := cs + [c];
    assert ds[|cs|] == c;
    if i :| 0 <= i < |cs| && cs[i].slot == slot {
      assert ds[i] == cs[i];
    }
  }

  lemma {:induction false} AddChunksExtends(t: Directory, cs: seq<Chunk>, perm: nat, slot: nat, pte: nat)
    requires AllPerm(cs, perm) && (slot in t ==> t[slot] != [])
    ensures Extends(t, AddChunks(t, cs), cs, perm, slot, pte)
  {
    if cs != [] {
      var init, c := cs[..|cs| - 1], cs[|cs| - 1];
      assert init + [c] == cs;
      AddChunksExtends(t, init, perm, slot, pte);
      AddChunkExtends(t, AddChunks(t, init), init, c, perm, slot, pte);
    }
  }

  // ---------- all regions ----------

  lemma SomeMapsLast(regions: seq<Region>, r: Region, addr: int)
    ensures SomeMaps(regions + [r], addr) <==> SomeMaps(regions, addr) || Maps(r, addr)
  {
    var all := regions + [r];
    assert all[|regions|] == r;
    if i :| 0 <= i < |regions| && Maps(regions[i], addr) {
      assert all[i] == regions[i];
    }
  }

  lemma SomeOpensLast(regions: seq<Region>, r: Region, slot: nat)
    ensures SomeOpens(regions + [r], slot) <==> SomeOpens(regions, slot) || Opens(r, slot)
  {
    var all := regions + [r];
    assert all[|regions|] == r;
    if i :| 0 <= i < |regions| && Opens(regions[i], slot) {
      assert all[i] == regions[i];
    }
  }

  /** What the directory holds for the page of an address. */
  ghost predicate Records(t: Directory, regions: seq<Region>, addr: nat) {
    var slot, pte := addr / SLOT, PteNumber(addr);
    && (slot in t <==> SomeOpens(regions, slot))
    && (slot in t ==> t[slot] != [] && t[slot][0].perm == Opener(regions, slot))
    && (InTable(t, slot, pte) <==> SomeMaps(regions, addr))
    && (InTable(t, slot, pte) ==> LastPerm(t[slot], pte) == Granted(regions, addr))
  }

  lemma {:induction false} BuildRecords(regions: seq<Region>, addr: nat)
    requires AllSound(regions) && addr < TOP
    ensures Records(Build(regions), regions, addr)
  {
    if regions != [] {
      var n := |regions| - 1;
      var init, r := regions[..n], regions[n];
      assert init + [r] == regions;
      BuildRecords(init, addr);
      AddRecords(Build(init), init, r, addr);
    }
  }

  lemma AddRecords(t: Directory, init: seq<Region>, r: Region, addr: nat)
    requires Sound(r) && addr < TOP && Records(t, init, addr)
    ensures Records(AddChunks(t, Chunks(r)), init + [r], addr)
  {
    var slot, pte := addr / SLOT, PteNumber(addr);
    var regions := init + [r];
    assert regions[..|init|] == init;
    assert slot < 1024;
    ChunksShape(r, slot);
    ChunksMap(r, slot, pte);
    MapsWholePages(r, addr);
    AddChunksExtends(t, Chunks(r), r.perm, slot, pte);
    SomeMapsLast(init, r, addr);
    SomeOpensLast(init, r, slot);
  }

  // ---------- every directory is well formed ----------

  lemma {:induction false} AddChunksWellFormed(t: Directory, cs: seq<Chunk>)
    requires WellFormed(t) && forall i :: 0 <= i < |cs| ==> cs[i].slot < 1024
    ensures WellFormed(AddChunks(t, cs))
  {
    if cs != [] {
      AddChunksWellFormed(t, cs[..|cs| - 1]);
    }
  }

  lemma ChunksInRange(r: Region)
    ensures forall i :: 0 <= i < |Chunks(r)| ==> Chunks(r)[i].slot < 1024
  {
    var cs := Chunks(r);
    var slot, last := PdeNumber(r.start) + 1, PdeNumber(r.start + r.size);
    var extra := ExtraChunks(slot, last, Overflow(r), r.perm);
    forall i | 0 <= i < |cs|
      ensures cs[i].slot < 1024
    {
      if i > 0 {
        assert cs[i] == extra[i - 1];
        ExtraChunksShape(slot, last, Overflow(r), r.perm, cs[i].slot);
      }
    }
  }

  lemma {:induction false} BuildWellFormed(regions: seq<Region>)
    ensures WellFormed(Build(regions))
  {
    if regions != [] {
      var n := |regions| - 1;
      BuildWellFormed(regions[..n]);
      ChunksInRange(regions[n]);
      AddChunksWellFormed(Build(regions[..n]), Chunks(regions[n]));
    }
  }

  // ---------- the translation ----------

  /** The last region that maps an address. */
  ghost predicate LastMaps(regions: seq<Region>, addr: nat, g: nat) {
    g < |regions| && Maps(regions[g], addr) && forall i :: g < i < |regions| ==> !Maps(regions[i], addr)
  }

  /** The first region that has something recorded for a slot. */
  ghost predicate FirstOpens(regions: seq<Region>, slot: nat, f: nat) {
    f < |regions| && Opens(regions[f], slot) && forall i :: 0 <= i < f ==> !Opens(regions[i], slot)
  }

  /**
    The walk through a file translates the addresses of a list of regions to themselves, and no others. A page may be
    written if bit 1 of its last region's permissions and bit 1 or 29 of those of the first region of its slot
    are set, and used by users if bit 2, and bit 2 or 28, are.
   */
  ghost predicate Translates(file: seq<nat>, pdStart: nat, regions: seq<Region>, addr: nat)
    requires |file| >= 1024
  {
    if exists i :: 0 <= i < |regions| && Maps(regions[i], addr) then
      exists f: nat, g: nat :: FirstOpens(regions, addr / SLOT, f) && LastMaps(regions, addr, g) &&
        var first, last := regions[f].perm, regions[g].perm;
        Walk(file, pdStart, addr)
        == Frame(addr, (first / 2 % 2 == 1 || first / 0x2000_0000 % 2 == 1) && last / 2 % 2 == 1,
                 (first / 4 % 2 == 1 || first / 0x1000_0000 % 2 == 1) && last / 4 % 2 == 1)
    else Walk(file, pdStart, addr) == Absent
  }

  lemma {:induction false} GrantedIs(regions: seq<Region>, addr: nat) returns (g: nat)
    requires SomeMaps(regions, addr)
    ensures LastMaps(regions, addr, g) && Granted(regions, addr) == regions[g].perm
  {
    var n := |regions| - 1;
    if Maps(regions[n], addr) {
      g := n;
    } else {
      assert regions[..n] + [regions[n]] == regions;
      SomeMapsLast(regions[..n], regions[n], addr);
      g := GrantedIs(regions[..n], addr);
    }
  }

  lemma {:induction false} OpenerIs(regions: seq<Region>, slot: nat) returns (f: nat)
    requires SomeOpens(regions, slot)
    ensures FirstOpens(regions, slot, f) && Opener(regions, slot) == regions[f].perm
  {
    var n := |regions| - 1;
    var init := regions[..n];
    assert init + [regions[n]] == regions;
    SomeOpensLast(init, regions[n], slot);
    if SomeOpens(init, slot) {
      f := OpenerIs(init, slot);
    } else {
      f := n;
      assert forall i :: 0 <= i < n ==> init[i] == regions[i];
    }
  }

  /** The walk, by the rights that the regions of an address give. */
  lemma WalkOf(file: seq<nat>, pdStart: nat, regions: seq<Region>, addr: nat)
    requires Emitted(file, Build(regions), pdStart) && Aligned(pdStart) && AllSound(regions) && addr < TOP
    ensures if SomeMaps(regions, addr) then
              && SomeOpens(regions, addr / SLOT)
              && var first, last := Opener(regions, addr / SLOT), Granted(regions, addr);
                 Walk(file, pdStart, addr) == Frame(addr, Writable(first, last), ForUser(first, last))
            else Walk(file, pdStart, addr) == Absent
  {
    BuildRecords(regions, addr);
    WalkFinds(file, Build(regions), pdStart, addr);
  }

  lemma EmittedTranslates(file: seq<nat>, pdStart: nat, regions: seq<Region>, addr: nat)
    requires Emitted(file, Build(regions), pdStart) && Aligned(pdStart) && AllSound(regions) && addr < TOP
    ensures Translates(file, pdStart, regions, addr)
  {
    WalkOf(file, pdStart, regions, addr);
    if SomeMaps(regions, addr) {
      var f := OpenerIs(regions, addr / SLOT);
      var g := GrantedIs(regions, addr);
      assert FirstOpens(regions, addr / SLOT, f) && LastMaps(regions, addr, g);
    }
  }

  /** Where the addresses that a region gets end. */
  function EndOf(r: Region): int {
    if r.size == 0 then (if r.start % SLOT == 0 then r.start + SLOT else r.start)
    else if r.start + r.size < TOP then r.start + r.size
    else (r.start / SLOT + 1) * SLOT
  }

  /** What a region gets is one interval, and the slots that it opens are those which the interval meets. */
  lemma MapsInterval(r: Region, addr: nat)
    ensures Maps(r, addr) <==> r.start <= addr < EndOf(r)
  {
    if r.size == 0 && r.start % SLOT == 0 {
      assert addr / SLOT == r.start / SLOT <==> r.start <= addr < r.start + SLOT;
    } else if r.size > 0 && r.start <= addr {
      assert addr / SLOT == r.start / SLOT <==> addr < (r.start / SLOT + 1) * SLOT;
    }
  }

  /** An ordinary region gets the addresses that it asks for. */
  lemma OrdinaryMapsIff(r: Region)
    requires Sound(r)
    ensures (forall addr: nat :: addr < TOP ==> (Maps(r, addr) <==> Covers(r, addr)))
       <==> if r.size == 0 then r.start % SLOT != 0
            else r.start + r.size < TOP || r.start / SLOT == 1023
  {
    if r.size == 0 {
      if r.start % SLOT == 0 {
        assert Maps(r, r.start) && !Covers(r, r.start);
      }
    } else if r.start + r.size >= TOP {
      if r.start / SLOT == 1023 {
        forall addr: nat | addr < TOP && Covers(r, addr)
          ensures addr / SLOT == 1023
        {
        }
      } else {
        var next: nat := (r.start / SLOT + 1) * SLOT;
        assert next < TOP && next / SLOT == r.start / SLOT + 1;
        assert !Maps(r, next) && Covers(r, next);
      }
    }
  }

  /** An empty region at the start of a slot: every page of the slot is present. */
  lemma EmptyRegionOpensSlot(file: seq<nat>, pdStart: nat, r: Region, addr: nat)
    requires r == Region(SLOT, 0, 0) && Emitted(file, Build([r]), pdStart) && Aligned(pdStart)
    requires SLOT <= addr < 2 * SLOT
    ensures Sound(r) && !Covers(r, addr) && Walk(file, pdStart, addr) == Frame(addr, false, false)
  {
    EmptyRegionMaps(r, addr);
    OneRegionTranslates(file, pdStart, r, addr);
    NoRights();
  }

  lemma NoRights()
    ensures !Writable(0, 0) && !ForUser(0, 0) && !Writable(0, 2) && !ForUser(0, 2)
  {
  }

  lemma EmptyRegionMaps(r: Region, addr: nat)
    requires r == Region(SLOT, 0, 0) && SLOT <= addr < 2 * SLOT
    ensures Sound(r) && !Covers(r, addr) && Maps(r, addr) && addr < TOP
  {
    assert addr / SLOT == 1;
  }

  lemma OneRegionTranslates(file: seq<nat>, pdStart: nat, r: Region, addr: nat)
    requires Emitted(file, Build([r]), pdStart) && Aligned(pdStart) && Sound(r) && Maps(r, addr) && addr < TOP
    ensures Walk(file, pdStart, addr) == Frame(addr, Writable(r.perm, r.perm), ForUser(r.perm, r.perm))
  {
    OneRegion(r, addr);
    WalkOf(file, pdStart, [r], addr);
  }

  /** A region of the upper 2 GB: nothing behind its first slot is present. */
  lemma UpperHalfCutOff(file: seq<nat>, pdStart: nat, r: Region, addr: nat)
    requires r == Region(0x8000_0000, 0x8000_0000, 0) && Emitted(file, Build([r]), pdStart) && Aligned(pdStart)
    requires 0x8000_0000 + SLOT <= addr < TOP
    ensures Sound(r) && Covers(r, addr) && Walk(file, pdStart, addr) == Absent
  {
    assert !SomeMaps([r], addr);
    WalkOf(file, pdStart, [r], addr);
  }

  lemma OneRegion(r: Region, addr: nat)
    requires Maps(r, addr)
    ensures SomeMaps([r], addr) && Granted([r], addr) == r.perm
    ensures SomeOpens([r], addr / SLOT) ==> Opener([r], addr / SLOT) == r.perm
  {
    assert Maps([r][0], addr);
    assert [r][..0] == [];
  }

  /** A page has the write access of its own region unless the first region in its slot takes it away. */
  lemma WriteAccessIff(file: seq<nat>, pdStart: nat, regions: seq<Region>, addr: nat)
    requires Emitted(file, Build(regions), pdStart) && Aligned(pdStart) && AllSound(regions) && addr < TOP
    requires SomeMaps(regions, addr)
    ensures SomeOpens(regions, addr / SLOT) && Walk(file, pdStart, addr).Frame?
    ensures var first, last := Opener(regions, addr / SLOT), Granted(regions, addr);
              (Walk(file, pdStart, addr).writable <==> last / 2 % 2 == 1)
              <==> (last / 2 % 2 == 1 ==> first / 2 % 2 == 1 || first / 0x2000_0000 % 2 == 1)
  {
    WalkOf(file, pdStart, regions, addr);
  }

  /** Regions that share a slot; only the second is writable. */
  const NEIGHBOURS: seq<Region> := [Region(0, PAGE, 0), Region(PAGE, PAGE, 2)]

  lemma NeighbourRights()
    ensures AllSound(NEIGHBOURS) && SomeMaps(NEIGHBOURS, PAGE) && Granted(NEIGHBOURS, PAGE) == 2
    ensures SomeOpens(NEIGHBOURS, 0) && Opener(NEIGHBOURS, 0) == 0
  {
    assert Maps(NEIGHBOURS[1], PAGE);
    assert Opens(NEIGHBOURS[0], 0) && Opens(NEIGHBOURS[..1][0], 0);
  }

  /** A writable region behind a read-only one in the same slot is not writable. */
  lemma ReadOnlyNeighbour(file: seq<nat>)
    requires Emitted(file, Build(NEIGHBOURS), SLOT)
    ensures SomeMaps(NEIGHBOURS, PAGE) && Granted(NEIGHBOURS, PAGE) / 2 % 2 == 1
    ensures Walk(file, SLOT, PAGE) == Frame(PAGE, false, false)
  {
    NeighbourRights();
    assert PAGE / SLOT == 0;
    WalkFrom(file, SLOT, NEIGHBOURS, PAGE, 0, 0, 2);
    NoRights();
  }

  lemma WalkFrom(file: seq<nat>, pdStart: nat, regions: seq<Region>, addr: nat, slot: nat, first: nat, last: nat)
    requires Emitted(file, Build(regions), pdStart) && Aligned(pdStart) && AllSound(regions) && addr < TOP
    requires slot == addr / SLOT && SomeMaps(regions, addr) && SomeOpens(regions, slot)
    requires Opener(regions, slot) == first && Granted(regions, addr) == last
    ensures Walk(file, pdStart, addr) == Frame(addr, Writable(first, last), ForUser(first, last))
  {
    WalkOf(file, pdStart, regions, addr);
  }
}
