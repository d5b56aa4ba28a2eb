/**
  The page-table generator itself: its global tables and output buffer, and the passes over them.
 */
module MmuGenerator {
  import opened PageRegions
  import opened PageTables
  import opened PageTranslation

  /** The overlap test: both ends of `a` lie between the ends of `b`, ends included. */
  predicate Inside(a: Region, b: Region) {
    var start, end := a.start, a.start + a.size;
    (start >= b.start && start <= b.start + b.size) && (end >= b.start && end <= b.start + b.size)
  }

  predicate Overlapping(regions: seq<Region>) {
    exists j, i :: 0 <= i < j < |regions| && Inside(regions[j], regions[i])
  }

  /**
    The test finds a non-empty region that is contained in an earlier one, and an empty one at or between the ends
    of an earlier one, but no other overlap.
   */
  lemma InsideIff(a: Region, b: Region)
    ensures Inside(a, b) <==> if a.size == 0 then b.start <= a.start <= b.start + b.size
                              else forall addr: nat :: Covers(a, addr) ==> Covers(b, addr)
  {
    if Inside(a, b) || a.size == 0 {
    } else if a.start < b.start {
      assert Covers(a, a.start) && !Covers(b, a.start);
    } else {
      var last: nat := a.start + a.size - 1;
      assert Covers(a, last) && !Covers(b, last);
    }
  }

  /** Two regions that share a page without one containing the other are not reported. */
  lemma PartialOverlapPasses(a: Region, b: Region)
    requires a == Region(0, 2 * PAGE, 0) && b == Region(PAGE, 2 * PAGE, 0)
    ensures Covers(a, PAGE) && Covers(b, PAGE) && !Overlapping([a, b]) && !Overlapping([b, a])
  {
    assert !Inside(a, b) && !Inside(b, a);
  }

  datatype Outcome = Written | Overlap | Misaligned | TooHigh

  // ---------- what the passes establish ----------

  /** Every recorded piece starts and ends at a page boundary. */
  ghost predicate AlignedDirectory(t: Directory) {
    forall k :: k in t ==> AlignedPages(t[k])
  }

  predicate AlignedPages(ps: seq<Pages>) {
    forall i :: 0 <= i < |ps| ==> Aligned(ps[i].start) && Aligned(ps[i].size)
  }

  lemma AddChunkAligned(t: Directory, c: Chunk)
    ensures AlignedDirectory(AddChunk(t, c)) <==> AlignedDirectory(t) && Aligned(c.pages.start) && Aligned(c.pages.size)
  {
    var u: Directory := AddChunk(t, c);
    var ps: seq<Pages> := if c.slot in t then t[c.slot] else [];
    assert u[c.slot] == ps + [c.pages];
    assert u[c.slot][|ps|] == c.pages;
    if AlignedDirectory(u) {
      forall k | k in t
        ensures AlignedPages(t[k])
      {
        assert AlignedPages(u[k]);
        assert forall i :: 0 <= i < |t[k]| ==> t[k][i] == u[k][i];
      }
    }
  }

  lemma {:induction false} AddChunksAligned(t: Directory, cs: seq<Chunk>)
    ensures AlignedDirectory(AddChunks(t, cs)) <==> AlignedDirectory(t) && Accepted(cs)
  {
    if cs != [] {
      var n := |cs| - 1;
      AddChunksAligned(t, cs[..n]);
      AddChunkAligned(AddChunks(t, cs[..n]), cs[n]);
    }
  }

  lemma {:induction false} BuildAligned(regions: seq<Region>)
    ensures AlignedDirectory(Build(regions)) <==> AllSound(regions)
  {
    if regions != [] {
      var n := |regions| - 1;
      BuildAligned(regions[..n]);
      AddChunksAligned(Build(regions[..n]), Chunks(regions[n]));
      AcceptedIff(regions[n]);
    }
  }

  function Below(keys: set<nat>, n: nat): set<nat> {
    set k | k in keys && k < n
  }

  lemma BelowNext(keys: set<nat>, n: nat)
    ensures |Below(keys, n + 1)| == |Below(keys, n)| + if n in keys then 1 else 0
  {
    if n in keys {
      assert Below(keys, n + 1) == Below(keys, n) + {n};
    } else {
      assert Below(keys, n + 1) == Below(keys, n);
    }
  }

  lemma {:induction false} AscendingCount(keys: set<nat>, n: nat)
    ensures |Ascending(keys, n)| == |Below(keys, n)|
  {
    if n == 0 {
      assert Below(keys, 0) == {};
    } else {
      AscendingCount(keys, n - 1);
      BelowNext(keys, n - 1);
    }
  }

  /** The output buffer has one page for the directory and one for each table. */
  lemma SlotCount(t: Directory)
    requires WellFormed(t)
    ensures |Slots(t)| == |t|
  {
    AscendingCount(t.Keys, 1024);
    assert Below(t.Keys, 1024) == t.Keys;
    assert |t.Keys| == |t|;
  }

  /** The directory entries fit into 32 bits exactly when the last table starts below 4 GB. */
  ghost predicate Fits(t: Directory, pdStart: nat) {
    t == map[] || pdStart + PAGE * |t| < TOP
  }

  lemma EntryBounds(t: Directory, slots: seq<nat>, pdStart: nat, slot: nat)
    requires slots == Slots(t) && WellFormed(t) && slot in t && slot < 1024
    ensures DirectoryEntry(t, slots, pdStart, slot) < TOP
       <==> pdStart + PAGE + IndexOf(slots, slot) * PAGE < TOP
  {
    var perm, page := t[slot][0].perm, TablePage(slots, slot, pdStart);
    var flags := 1 + 2 * EitherBit(perm, 1, 29) + 4 * EitherBit(perm, 2, 28);
    assert flags < PAGE;
    BelowTop(pdStart + PAGE + IndexOf(slots, slot) * PAGE, flags);
  }

  lemma BelowTop(addr: nat, flags: nat)
    requires flags < PAGE
    ensures flags + addr / PAGE * PAGE < TOP <==> addr < TOP
  {
  }

  lemma TableWordFits(ps: seq<Pages>, slot: nat, pte: nat)
    requires slot < 1024 && pte < 1024
    ensures TableWord(ps, slot, pte) < TOP
  {
  }

  /** The entries below `n` fit into 32 bits. */
  ghost predicate EntriesFit(t: Directory, pdStart: nat, n: nat)
    requires WellFormed(t)
  {
    forall slot :: slot in t && slot < n ==> DirectoryEntry(t, Slots(t), pdStart, slot) < TOP
  }

  lemma NextEntryFits(t: Directory, pdStart: nat, n: nat)
    requires WellFormed(t) && n < 1024 && EntriesFit(t, pdStart, n)
    ensures DirectoryEntry(t, Slots(t), pdStart, n) < TOP ==> EntriesFit(t, pdStart, n + 1)
    ensures DirectoryEntry(t, Slots(t), pdStart, n) >= TOP ==> !EntriesFit(t, pdStart, 1024)
  {
  }

  lemma EntriesFitIff(t: Directory, pdStart: nat)
    requires WellFormed(t)
    ensures Fits(t, pdStart) <==> EntriesFit(t, pdStart, 1024)
  {
    var slots := Slots(t);
    SlotCount(t);
    if t != map[] {
      var n := |slots| - 1;
      var last := slots[n];
      assert last in slots;
      assert IndexOf(slots, last) == n;
      EntryBounds(t, slots, pdStart, last);
    }
    forall slot | slot in t
      ensures Fits(t, pdStart) ==> DirectoryEntry(t, slots, pdStart, slot) < TOP
    {
      EntryBounds(t, slots, pdStart, slot);
    }
  }

  lemma NoOverlapYet(regions: seq<Region>, j: nat)
    requires j < |regions| && !Overlapping(regions[..j])
    requires forall k :: 0 <= k < j ==> !Inside(regions[j], regions[k])
    ensures !Overlapping(regions[..j + 1])
  {
    var more := regions[..j + 1];
    forall m, i | 0 <= i < m < |more|
      ensures !Inside(more[m], more[i])
    {
      if m < j {
        assert more[m] == regions[..j][m] && more[i] == regions[..j][i];
      }
    }
  }

  lemma AnyHasAppend(ps: seq<Pages>, p: Pages, pte: nat)
    ensures AnyHas(ps + [p], pte) <==> AnyHas(ps, pte) || p.Has(pte)
    ensures AnyHas(ps + [p], pte) ==>
              LastPerm(ps + [p], pte) == if p.Has(pte) then p.perm else LastPerm(ps, pte)
  {
    assert (ps + [p])[|ps|] == p;
    if i :| 0 <= i < |ps| && ps[i].Has(pte) {
      assert (ps + [p])[i] == ps[i];
    }
    if AnyHas(ps + [p], pte) {
      LastPermAppend(ps, p, pte);
    }
  }

  /** A directory entry is 0 or has bit 0 and no flag above bit 2; a table entry is 0 or has bits 0 and 9 and no other above bit 2. */
  ghost predicate FlagsClean(file: seq<nat>) {
    forall i :: 0 <= i < |file| ==> Clean(file[i], i < 1024)
  }

  predicate Clean(word: nat, directory: bool) {
    word == 0 || word % PAGE in (if directory then {1, 3, 5, 7} else {513, 515, 517, 519})
  }

  lemma EmittedClean(file: seq<nat>, t: Directory, pdStart: nat)
    requires Emitted(file, t, pdStart)
    ensures FlagsClean(file)
  {
    forall i: nat | i < |file|
      ensures Clean(file[i], i < 1024)
    {
      WordFlags(file, t, pdStart, i);
    }
  }

  class Generator {
    /** `list_of_pde` and `page_tables_list`. */
    var listOfPde: Directory
    var pageTablesList: seq<nat>
    /** The output buffer, in words, and the number of words written. */
    var output: array<nat>
    var offset: nat

    constructor ()
      ensures listOfPde == map[] && pageTablesList == [] && offset == 0 && output.Length == 0
      ensures fresh(output)
    {
      listOfPde, pageTablesList, offset := map[], [], 0;
      output := new nat[0];
    }

    /** The list names each used slot once. */
    ghost predicate Listed()
      reads this
    {
      && (forall k :: k in pageTablesList <==> k in listOfPde)
      && forall i, j :: 0 <= i < j < |pageTablesList| ==> pageTablesList[i] != pageTablesList[j]
    }

    /** `set_pde_pte_values`, and the slot's place in the list of tables. */
    method Record(slot: nat, pages: Pages)
      requires Listed()
      modifies this`listOfPde, this`pageTablesList
      ensures Listed() && listOfPde == AddChunk(old(listOfPde), Chunk(slot, pages))
    {
      if slot in listOfPde {
        listOfPde := listOfPde[slot := listOfPde[slot] + [pages]];
      } else {
        listOfPde := listOfPde[slot := [pages]];
      }
      if slot !in pageTablesList {
        pageTablesList := pageTablesList + [slot];
      }
    }

    /** The body of the loop over the regions. */
    method MarshalRegion(r: Region)
      requires Listed()
      modifies this`listOfPde, this`pageTablesList
      ensures Listed() && listOfPde == AddChunks(old(listOfPde), Chunks(r))
    {
      var pde, first := PdeNumber(r.start), PteNumber(r.start);
      var last, size := PteNumber(r.start + r.size - 1), r.size;
      if r.size + first * PAGE >= SLOT {
        last := 1023;
        size := (1024 - first) * PAGE;
      }
      Record(pde, Pages(r.start, size, first, last, r.perm));
      ghost var done := [FirstChunk(r)];
      assert listOfPde == AddChunks(old(listOfPde), done) by {
        assert done[..0] == [];
      }
      var overflow := r.size - size;
      var extra, end := pde + 1, PdeNumber(r.start + r.size);
      while extra <= end && overflow != 0
        invariant pde < extra && overflow >= 0 && Listed()
        invariant listOfPde == AddChunks(old(listOfPde), done)
        invariant done + ExtraChunks(extra, end, overflow, r.perm) == Chunks(r)
        decreases end + 1 - extra
      {
        var extraLast, extraSize := PteNumber(extra * SLOT + overflow - 1), overflow;
        if overflow >= SLOT {
          extraSize := SLOT;
          extraLast := 1023;
        }
        ghost var c := ExtraChunk(extra, overflow, r.perm);
        Record(extra, Pages(extra * SLOT, extraSize, 0, extraLast, r.perm));
        assert (done + [c])[..|done|] == done;
        overflow := overflow - extraSize;
        extra := extra + 1;
        assert done + [c] + ExtraChunks(extra, end, overflow, r.perm) == Chunks(r);
        done := done + [c];
      }
      assert done == Chunks(r);
    }

    /** `read_mmu_list_marshal_param` on the unpacked regions. */
    method ReadRegions(regions: seq<Region>) returns (overlap: bool)
      requires listOfPde == map[] && pageTablesList == []
      modifies this`listOfPde, this`pageTablesList
      ensures overlap <==> Overlapping(regions)
      ensures !overlap ==> listOfPde == Build(regions) && pageTablesList == Slots(listOfPde)
    {
      overlap := FindOverlap(regions);
      if overlap {
        return;
      }
      MarshalAll(regions);
      // sort() of distinct numbers below 1024
      var keys := set k | k in pageTablesList;
      assert keys == listOfPde.Keys;
      pageTablesList := Ascending(keys, 1024);
    }

    method MarshalAll(regions: seq<Region>)
      requires listOfPde == map[] && pageTablesList == []
      modifies this`listOfPde, this`pageTablesList
      ensures Listed() && listOfPde == Build(regions)
    {
      for i := 0 to |regions|
        invariant Listed() && listOfPde == Build(regions[..i])
      {
        MarshalRegion(regions[i]);
        assert regions[..i + 1][..i] == regions[..i];
      }
      assert regions[..|regions|] == regions;
    }

    static method FindOverlap(regions: seq<Region>) returns (overlap: bool)
      ensures overlap <==> Overlapping(regions)
    {
      for j := 0 to |regions|
        invariant !Overlapping(regions[..j])
      {
        for i := 0 to j
          invariant forall k :: 0 <= k < i ==> !Inside(regions[j], regions[k])
        {
          if Inside(regions[j], regions[i]) {
            return true;
          }
        }
        NoOverlapYet(regions, j);
      }
      assert regions[..|regions|] == regions;
      return false;
    }

    /** `validate_pde_regions`: the alignment check. */
    method ValidateAlignment() returns (ok: bool)
      requires forall k :: k in pageTablesList <==> k in listOfPde
      ensures ok <==> AlignedDirectory(listOfPde)
    {
      for n := 0 to |pageTablesList|
        invariant forall m :: 0 <= m < n ==> AlignedPages(listOfPde[pageTablesList[m]])
      {
        var ps := listOfPde[pageTablesList[n]];
        for i := 0 to |ps|
          invariant forall j :: 0 <= j < i ==> Aligned(ps[j].start) && Aligned(ps[j].size)
        {
          if !Aligned(ps[i].start) || !Aligned(ps[i].size) {
            assert !AlignedPages(ps);
            return false;
          }
        }
      }
      return true;
    }

    ghost predicate Sized()
      reads this
    {
      WellFormed(listOfPde) && pageTablesList == Slots(listOfPde) && output.Length == 1024 * (1 + |pageTablesList|)
    }

    /** The first `n` words of the output are those of the file. */
    ghost predicate Filled(n: nat, pdStart: nat)
      requires Sized() && n <= output.Length
      reads this, output
    {
      forall i :: 0 <= i < n ==> output[i] == FileWord(listOfPde, pdStart, i)
    }

    method DirectoryEntryOf(pde: nat, pdStart: nat) returns (value: nat)
      requires Sized() && pde < 1024
      ensures value == DirectoryEntry(listOfPde, pageTablesList, pdStart, pde)
    {
      value := 0;
      if pde in listOfPde {
        var perms := listOfPde[pde][0].perm;
        var table := (pdStart + PAGE + IndexOf(pageTablesList, pde) * PAGE) / PAGE;
        value := 1 + 2 * EitherBit(perms, 1, 29) + 4 * EitherBit(perms, 2, 28) + table * PAGE;
      }
    }

    /** `page_directory_create_binary_file`; packing a word of more than 32 bits fails. */
    method CreateDirectory(pdStart: nat) returns (ok: bool)
      requires Sized() && offset == 0
      modifies this`offset, output
      ensures ok <==> Fits(listOfPde, pdStart)
      ensures ok ==> offset == 1024 && Filled(1024, pdStart)
    {
      ghost var t := listOfPde;
      for pde := 0 to 1024
        invariant offset == pde && Filled(pde, pdStart) && EntriesFit(t, pdStart, pde)
      {
        var value := DirectoryEntryOf(pde, pdStart);
        NextEntryFits(t, pdStart, pde);
        if value >= TOP {
          EntriesFitIff(t, pdStart);
          return false;
        }
        Put(value, pdStart);
      }
      EntriesFitIff(t, pdStart);
      return true;
    }

    method Put(value: nat, ghost pdStart: nat)
      requires Sized() && offset < output.Length && Filled(offset, pdStart)
      requires value == FileWord(listOfPde, pdStart, offset)
      modifies this`offset, output
      ensures offset == old(offset) + 1 && Filled(offset, pdStart)
    {
      output[offset] := value;
      offset := offset + 1;
    }

    /** The scan over the pieces recorded for a slot. */
    static method EntryOf(ps: seq<Pages>, slot: nat, pte: nat) returns (value: nat)
      ensures value == TableWord(ps, slot, pte)
    {
      var valid, perm := false, 0;
      for i := 0 to |ps|
        invariant valid <==> AnyHas(ps[..i], pte)
        invariant valid ==> perm == LastPerm(ps[..i], pte)
      {
        AnyHasAppend(ps[..i], ps[i], pte);
        assert ps[..i + 1] == ps[..i] + [ps[i]];
        if ps[i].Has(pte) {
          valid, perm := true, ps[i].perm;
        }
      }
      assert ps[..|ps|] == ps;
      value := if valid then 1 + 2 * Bit(perm, 1) + 4 * Bit(perm, 2) + 512 + (slot * 1024 + pte) * PAGE else 0;
    }

    /** One page table. */
    method CreateTable(index: nat, pdStart: nat)
      requires Sized() && index < |pageTablesList| && offset == 1024 * (1 + index) && Filled(offset, pdStart)
      modifies this`offset, output
      ensures offset == 1024 * (2 + index) && Filled(offset, pdStart)
    {
      var slot := pageTablesList[index];
      assert slot in pageTablesList;
      ghost var base := offset;
      for pte := 0 to 1024
        invariant offset == base + pte && Filled(offset, pdStart)
      {
        var value := EntryOf(listOfPde[slot], slot, pte);
        TableWordFits(listOfPde[slot], slot, pte);
        TableIndex(index, pte);
        Put(value, pdStart);
      }
    }

    /** `page_table_create_binary_file`. */
    method CreateTables(pdStart: nat)
      requires Sized() && offset == 1024 && Filled(1024, pdStart)
      modifies this`offset, output
      ensures offset == output.Length && Filled(offset, pdStart)
    {
      for index := 0 to |pageTablesList|
        invariant offset == 1024 * (1 + index) && Filled(offset, pdStart)
      {
        CreateTable(index, pdStart);
      }
    }

    /** The output buffer, filled. */
    method Emit(pdStart: nat) returns (ok: bool)
      requires WellFormed(listOfPde) && pageTablesList == Slots(listOfPde) && offset == 0
      modifies this`offset, this`output
      ensures ok <==> Fits(listOfPde, pdStart)
      ensures ok ==> Emitted(output[..], listOfPde, pdStart)
    {
      SlotCount(listOfPde);
      output := new nat[1024 * (1 + |listOfPde|)];
      ok := CreateDirectory(pdStart);
      if ok {
        CreateTables(pdStart);
      }
    }

    /**
      `main`, from the unpacked input to the output file. Each way of ending happens exactly
      in the stated case, and a written file makes the hardware translate exactly the
      addresses that the regions map.
     */
    method Generate(regions: seq<Region>, pdStart: Word32) returns (outcome: Outcome)
      requires listOfPde == map[] && pageTablesList == [] && offset == 0
      modifies this, output
      ensures outcome == Overlap <==> Overlapping(regions)
      ensures outcome == Misaligned <==> !Overlapping(regions) && !AllSound(regions)
      ensures outcome == TooHigh <==> !Overlapping(regions) && AllSound(regions) && !Fits(Build(regions), pdStart)
      ensures outcome == Written ==> Emitted(output[..], Build(regions), pdStart)
      ensures outcome == Written && Aligned(pdStart) ==>
                output.Length >= 1024 && forall addr: Word32 :: Translates(output[..], pdStart, regions, addr)
      ensures outcome == Written ==> FlagsClean(output[..])
    {
      var overlap := ReadRegions(regions);
      if overlap {
        return Overlap;
      }
      BuildWellFormed(regions);
      BuildAligned(regions);
      var ok := ValidateAlignment();
      if !ok {
        return Misaligned;
      }
      var packed := Emit(pdStart);
      if !packed {
        return TooHigh;
      }
      if Aligned(pdStart) {
        forall addr: Word32
          ensures Translates(output[..], pdStart, regions, addr)
        {
          EmittedTranslates(output[..], pdStart, regions, addr);
        }
      }
      EmittedClean(output[..], Build(regions), pdStart);
      return Written;
    }
  }
}
