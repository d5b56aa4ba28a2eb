/**
  The emitted page directory and page tables, the two-level walk that the hardware makes
  through them (section 4.3 of the Intel SDM, Volume 3A), and what the walk finds.
 */
module PageTables {
  import opened Arithmetic
  import opened PageRegions

  /** `list_of_pde`: the pieces recorded for each directory slot. */
  type Directory = map<nat, seq<Pages>>

  function AddChunk(t: Directory, c: Chunk): Directory {
    if c.slot in t then t[c.slot := t[c.slot] + [c.pages]] else t[c.slot := [c.pages]]
  }

  function AddChunks(t: Directory, cs: seq<Chunk>): Directory {
    if cs == [] then t else AddChunk(AddChunks(t, cs[..|cs| - 1]), cs[|cs| - 1])
  }

  /** The directory for a list of regions. */
  function Build(regions: seq<Region>): Directory {
    if regions == [] then map[]
    else AddChunks(Build(regions[..|regions| - 1]), Chunks(regions[|regions| - 1]))
  }

  predicate AnyHas(ps: seq<Pages>, pte: nat) {
    exists i :: 0 <= i < |ps| && ps[i].Has(pte)
  }

  predicate InTable(t: Directory, slot: nat, pte: nat) {
    slot in t && AnyHas(t[slot], pte)
  }

  lemma AddChunkHas(t: Directory, c: Chunk, slot: nat, pte: nat)
    ensures InTable(AddChunk(t, c), slot, pte) <==> InTable(t, slot, pte) || (c.slot == slot && c.pages.Has(pte))
  {
    var u: Directory := AddChunk(t, c);
    if c.slot == slot {
      var n := |u[slot]| - 1;
      if c.pages.Has(pte) {
        assert u[slot][n].Has(pte);
      }
      if slot in t {
        if i :| 0 <= i < |t[slot]| && t[slot][i].Has(pte) {
          assert u[slot][i].Has(pte);
        }
      }
    }
  }

  // ---------- the emitted words ----------

  /** The keys of a directory in ascending order. */
  function Ascending(keys: set<nat>, n: nat): (r: seq<nat>)
    ensures forall k :: k in r <==> k in keys && k < n
    ensures forall i :: 0 <= i < |r| ==> r[i] < n
    ensures forall i, j :: 0 <= i < j < |r| ==> r[i] < r[j]
  {
    if n == 0 then [] else if n - 1 in keys then Ascending(keys, n - 1) + [n - 1] else Ascending(keys, n - 1)
  }

  function Slots(t: Directory): seq<nat> {
    Ascending(t.Keys, 1024)
  }

  /** `page_tables_list.index`. */
  function IndexOf(slots: seq<nat>, slot: nat): (i: nat)
    requires slot in slots
    ensures i < |slots| && slots[i] == slot
  {
    if slots[0] == slot then 0 else 1 + IndexOf(slots[1..], slot)
  }

  /** Bit `k` of a number. */
  function Bit(n: nat, k: nat): (b: nat)
    ensures b < 2
  {
    if k == 0 then n % 2 else Bit(n / 2, k - 1)
  }

  lemma HalfThen(n: nat, p: nat)
    requires p > 0
    ensures n / (2 * p) == n / 2 / p
  {
    var m := n / 2;
    DivMod(m, p);
    assert m / p * (2 * p) == 2 * (m / p * p);
    DivUnique(n, 2 * p, m / p, 2 * (m % p) + n % 2);
  }

  lemma {:induction false} BitIs(n: nat, k: nat)
    ensures Bit(n, k) == n / Pow2(k) % 2
  {
    if k > 0 {
      BitIs(n / 2, k - 1);
      HalfThen(n, Pow2(k - 1));
    }
  }

  lemma {:induction false} Pow2Sum(j: nat, k: nat)
    ensures Pow2(j + k) == Pow2(j) * Pow2(k)
  {
    if k > 0 {
      Pow2Sum(j, k - 1);
      TwiceProduct(Pow2(j), Pow2(k - 1));
    }
  }

  lemma TwiceProduct(a: nat, b: nat)
    ensures a * (2 * b) == 2 * (a * b)
  {
  }

  /** The four bits of the permissions that the generator looks at. */
  lemma RightsBits(perm: nat)
    ensures Bit(perm, 1) == perm / 2 % 2 && Bit(perm, 2) == perm / 4 % 2
    ensures Bit(perm, 28) == perm / 0x1000_0000 % 2 && Bit(perm, 29) == perm / 0x2000_0000 % 2
  {
    BitIs(perm, 1);
    BitIs(perm, 2);
    BitIs(perm, 28);
    BitIs(perm, 29);
    assert Pow2(1) == 2 && Pow2(2) == 4;
    assert Pow2(7) == 128 by { assert Pow2(3) == 8; assert Pow2(5) == 32; }
    Pow2Sum(7, 7);
    Pow2Sum(14, 14);
    assert Pow2(29) == 2 * Pow2(28);
  }

  /** `check_bits`: one of the two bits is set. */
  function EitherBit(n: nat, j: nat, k: nat): nat {
    if Bit(n, j) == 1 || Bit(n, k) == 1 then 1 else 0
  }

  /** A directory entry: present, the flags of the first region in the slot, the table's page. */
  function DirectoryWord(ps: seq<Pages>, table: nat): nat
    requires ps != []
  {
    1 + 2 * EitherBit(ps[0].perm, 1, 29) + 4 * EitherBit(ps[0].perm, 2, 28) + table * PAGE
  }

  /** `address_of_page_table`: tables follow the directory in slot order. */
  function TablePage(slots: seq<nat>, slot: nat, pdStart: nat): nat
    requires slot in slots
  {
    (pdStart + PAGE + IndexOf(slots, slot) * PAGE) / PAGE
  }

  /** The permissions of an entry are those of the last region that has it. */
  function LastPerm(ps: seq<Pages>, pte: nat): nat
    requires AnyHas(ps, pte)
  {
    var last := ps[|ps| - 1];
    if last.Has(pte) then last.perm else LastPerm(ps[..|ps| - 1], pte)
  }

  /** A table entry: absent, or present and allocated, with the entry's own page as its frame. */
  function TableWord(ps: seq<Pages>, slot: nat, pte: nat): nat {
    if !AnyHas(ps, pte) then 0
    else
      var perm := LastPerm(ps, pte);
      1 + 2 * Bit(perm, 1) + 4 * Bit(perm, 2) + 512 + (slot * 1024 + pte) * PAGE
  }

  function DirectoryEntry(t: Directory, slots: seq<nat>, pdStart: nat, slot: nat): nat
    requires slots == Slots(t) && (forall k :: k in t ==> t[k] != []) && slot < 1024
  {
    if slot in t then DirectoryWord(t[slot], TablePage(slots, slot, pdStart)) else 0
  }

  /** A directory as the generator makes them: slots below 1024, each with something in it. */
  predicate WellFormed(t: Directory) {
    forall k :: k in t ==> k < 1024 && t[k] != []
  }

  /** The word at an index of the output file: first the directory, then one table per used slot. */
  function FileWord(t: Directory, pdStart: nat, i: nat): nat
    requires WellFormed(t) && i < 1024 * (1 + |Slots(t)|)
  {
    var slots := Slots(t);
    if i < 1024 then DirectoryEntry(t, slots, pdStart, i)
    else TableWord(t[slots[i / 1024 - 1]], slots[i / 1024 - 1], i % 1024)
  }

  // ---------- the hardware walk ----------

  datatype Found = Absent | LargePage | Frame(addr: nat, writable: bool, user: bool)

  /**
    32-bit paging: bits 31-22 select the directory entry, bits 21-12 the table entry; a
    clear bit 0 means not present; a directory entry with bit 7 has no table but maps 4 MB;
    writing and user access need bits 1 and 2 of both entries. The file is loaded at `pdStart`.
   */
  function Walk(file: seq<nat>, pdStart: nat, addr: nat): Found
    requires |file| >= 1024
  {
    var entry := file[addr / SLOT % 1024];
    if entry % 2 == 0 then Absent
    else if entry / 128 % 2 == 1 then LargePage
    else
      var at := (entry / PAGE * PAGE - pdStart) / 4 + addr / PAGE % 1024;
      if !(0 <= at < |file|) || file[at] % 2 == 0 then Absent
      else Frame(file[at] / PAGE * PAGE + addr % PAGE,
                 entry / 2 % 2 == 1 && file[at] / 2 % 2 == 1,
                 entry / 4 % 2 == 1 && file[at] / 4 % 2 == 1)
  }

  /** The file holds the words of the directory. */
  ghost predicate Emitted(file: seq<nat>, t: Directory, pdStart: nat) {
    && WellFormed(t) && |file| == 1024 * (1 + |Slots(t)|)
    && forall i :: 0 <= i < |file| ==> file[i] == FileWord(t, pdStart, i)
  }

  /** A page is writable if its own region and the first region recorded in its slot let it be. */
  predicate Writable(first: nat, last: nat) {
    (first / 2 % 2 == 1 || first / 0x2000_0000 % 2 == 1) && last / 2 % 2 == 1
  }

  predicate ForUser(first: nat, last: nat) {
    (first / 4 % 2 == 1 || first / 0x1000_0000 % 2 == 1) && last / 4 % 2 == 1
  }

  lemma RightsAre(first: nat, last: nat)
    ensures Writable(first, last) <==> EitherBit(first, 1, 29) == 1 && Bit(last, 1) == 1
    ensures ForUser(first, last) <==> EitherBit(first, 2, 28) == 1 && Bit(last, 2) == 1
  {
    RightsBits(first);
    RightsBits(last);
  }

  lemma DirectoryWordFields(ps: seq<Pages>, table: nat)
    requires ps != []
    ensures var w, perm := DirectoryWord(ps, table), ps[0].perm;
            && w % 2 == 1 && w / PAGE == table && w / 128 % 2 == 0
            && w / 2 % 2 == EitherBit(perm, 1, 29) && w / 4 % 2 == EitherBit(perm, 2, 28)
            && w % PAGE == 1 + 2 * EitherBit(perm, 1, 29) + 4 * EitherBit(perm, 2, 28)
  {
    WordFields(EitherBit(ps[0].perm, 1, 29), EitherBit(ps[0].perm, 2, 28), 0, table);
  }

  /** The fields of an entry do not disturb each other. */
  lemma WordFields(rw: nat, us: nat, alloc: nat, page: nat)
    requires rw < 2 && us < 2 && alloc < 2
    ensures var w := 1 + 2 * rw + 4 * us + 512 * alloc + page * PAGE;
            && w % 2 == 1 && w / 2 % 2 == rw && w / 4 % 2 == us && w / PAGE == page
            && w / 128 % 2 == 0 && w / 512 % 2 == alloc && w % PAGE == 1 + 2 * rw + 4 * us + 512 * alloc
  {
    var half := rw + 2 * us + 256 * alloc + 2048 * page;
    var quarter := us + 128 * alloc + 1024 * page;
    var w := 1 + 2 * half;
    DivUnique(w, 2, half, 1);
    DivUnique(half, 2, quarter, rw);
    DivUnique(w, 4, quarter, 1 + 2 * rw);
    DivUnique(quarter, 2, 64 * alloc + 512 * page, us);
    DivUnique(w, PAGE, page, w - page * PAGE);
    HighFields(1 + 2 * rw + 4 * us, alloc, page);
  }

  lemma HighFields(flags: nat, alloc: nat, page: nat)
    requires flags < 8 && alloc < 2
    ensures var w := flags + 512 * alloc + page * PAGE; w / 128 % 2 == 0 && w / 512 % 2 == alloc
  {
    var w := flags + 512 * alloc + page * PAGE;
    DivUnique(w, 128, 2 * (2 * alloc + 16 * page), flags);
    DivUnique(2 * (2 * alloc + 16 * page), 2, 2 * alloc + 16 * page, 0);
    DivUnique(w, 512, alloc + 8 * page, flags);
    DivUnique(alloc + 8 * page, 2, 4 * page, alloc);
  }

  lemma TablePosition(pdStart: nat, i: nat)
    requires Aligned(pdStart)
    ensures (pdStart + PAGE + i * PAGE) / PAGE == pdStart / PAGE + 1 + i
    ensures (pdStart / PAGE + 1 + i) * PAGE - pdStart == PAGE * (1 + i)
    ensures PAGE * (1 + i) / 4 == 1024 * (1 + i)
  {
  }

  /** A present directory entry leads to the words where its own table was written. */
  lemma DirectoryLeadsToTable(file: seq<nat>, t: Directory, pdStart: nat, slot: nat)
    requires Emitted(file, t, pdStart) && Aligned(pdStart) && slot < 1024
    ensures file[slot] % 2 == 1 <==> slot in t
    ensures slot in t ==>
              var base := file[slot] / PAGE * PAGE - pdStart;
              && base == PAGE * (1 + IndexOf(Slots(t), slot))
              && base / 4 == 1024 * (1 + IndexOf(Slots(t), slot))
    ensures slot in t ==>
              var perm := t[slot][0].perm;
              && file[slot] / 2 % 2 == EitherBit(perm, 1, 29)
              && file[slot] / 4 % 2 == EitherBit(perm, 2, 28) && file[slot] / 128 % 2 == 0
  {
    assert file[slot] == FileWord(t, pdStart, slot);
    if slot in t {
      var i := IndexOf(Slots(t), slot);
      TablePosition(pdStart, i);
      DirectoryWordFields(t[slot], TablePage(Slots(t), slot, pdStart));
    }
  }

  lemma TableIndex(i: nat, pte: nat)
    requires pte < 1024
    ensures (1024 * (1 + i) + pte) / 1024 - 1 == i && (1024 * (1 + i) + pte) % 1024 == pte
  {
  }

  lemma EntryWritten(file: seq<nat>, t: Directory, pdStart: nat, i: nat, pte: nat, at: nat)
    requires Emitted(file, t, pdStart) && i < |Slots(t)| && pte < 1024 && at == 1024 * (1 + i) + pte
    ensures at < |file| && file[at] == TableWord(t[Slots(t)[i]], Slots(t)[i], pte)
  {
    TableIndex(i, pte);
    assert file[at] == FileWord(t, pdStart, at);
  }

  /** The walk through a present directory entry. */
  lemma WalkThrough(file: seq<nat>, pdStart: nat, addr: nat, slot: nat, at: nat)
    requires slot == addr / SLOT % 1024 < |file| && |file| >= 1024 && file[slot] % 2 == 1 && file[slot] / 128 % 2 == 0
    requires at == (file[slot] / PAGE * PAGE - pdStart) / 4 + PteNumber(addr) && at < |file|
    ensures Walk(file, pdStart, addr)
         == if file[at] % 2 == 0 then Absent
            else Frame(file[at] / PAGE * PAGE + addr % PAGE, file[slot] / 2 % 2 == 1 && file[at] / 2 % 2 == 1,
                       file[slot] / 4 % 2 == 1 && file[at] / 4 % 2 == 1)
  {
  }

  /** What the walk finds in the words of both levels. */
  lemma FrameFound(entry: nat, word: nat, ps: seq<Pages>, slot: nat, addr: nat)
    requires slot == addr / SLOT && AnyHas(ps, PteNumber(addr)) && word == TableWord(ps, slot, PteNumber(addr))
    requires entry / 2 % 2 == EitherBit(ps[0].perm, 1, 29) && entry / 4 % 2 == EitherBit(ps[0].perm, 2, 28)
    ensures word % 2 == 1 && word / PAGE * PAGE + addr % PAGE == addr
    ensures var first, last := ps[0].perm, LastPerm(ps, PteNumber(addr));
            && (Writable(first, last) <==> entry / 2 % 2 == 1 && word / 2 % 2 == 1)
            && (ForUser(first, last) <==> entry / 4 % 2 == 1 && word / 4 % 2 == 1)
  {
    TableWordFields(ps, slot, PteNumber(addr));
    AddressParts(addr);
    RightsAre(ps[0].perm, LastPerm(ps, PteNumber(addr)));
  }

  lemma SlotOf(addr: nat)
    requires addr < TOP
    ensures addr / SLOT < 1024 && addr / SLOT % 1024 == addr / SLOT
  {
  }

  /** The walk finds an entry exactly for the pages that are in the directory, and it maps the page to itself. */
  lemma WalkFinds(file: seq<nat>, t: Directory, pdStart: nat, addr: nat)
    requires Emitted(file, t, pdStart) && Aligned(pdStart) && addr < TOP
    ensures var slot, pte := addr / SLOT, PteNumber(addr);
            if InTable(t, slot, pte) then
              var first, last := t[slot][0].perm, LastPerm(t[slot], pte);
              Walk(file, pdStart, addr) == Frame(addr, Writable(first, last), ForUser(first, last))
            else Walk(file, pdStart, addr) == Absent
  {
    var slot := addr / SLOT;
    SlotOf(addr);
    if slot in t {
      var word := WalkReaches(file, t, pdStart, addr, slot);
      if AnyHas(t[slot], PteNumber(addr)) {
        FrameFound(file[slot], word, t[slot], slot, addr);
      }
    } else {
      DirectoryLeadsToTable(file, t, pdStart, slot);
    }
  }

  /** Through the entry of a used slot the walk comes to the word of the page in the slot's own table. */
  lemma WalkReaches(file: seq<nat>, t: Directory, pdStart: nat, addr: nat, slot: nat) returns (word: nat)
    requires Emitted(file, t, pdStart) && Aligned(pdStart) && slot == addr / SLOT < 1024 && slot in t
    ensures word == TableWord(t[slot], slot, PteNumber(addr))
    ensures Walk(file, pdStart, addr)
         == if word % 2 == 0 then Absent
            else Frame(word / PAGE * PAGE + addr % PAGE, file[slot] / 2 % 2 == 1 && word / 2 % 2 == 1,
                       file[slot] / 4 % 2 == 1 && word / 4 % 2 == 1)
    ensures var perm := t[slot][0].perm;
            file[slot] / 2 % 2 == EitherBit(perm, 1, 29) && file[slot] / 4 % 2 == EitherBit(perm, 2, 28)
  {
    var i := IndexOf(Slots(t), slot);
    var at := 1024 * (1 + i) + PteNumber(addr);
    DirectoryLeadsToTable(file, t, pdStart, slot);
    EntryWritten(file, t, pdStart, i, PteNumber(addr), at);
    WalkThrough(file, pdStart, addr, slot, at);
    word := file[at];
  }

  lemma TableWordFields(ps: seq<Pages>, slot: nat, pte: nat)
    requires AnyHas(ps, pte)
    ensures var w, perm := TableWord(ps, slot, pte), LastPerm(ps, pte);
            && w % 2 == 1 && w / PAGE == slot * 1024 + pte && w / 2 % 2 == Bit(perm, 1) && w / 4 % 2 == Bit(perm, 2)
            && w % PAGE == 513 + 2 * Bit(perm, 1) + 4 * Bit(perm, 2)
  {
    var perm := LastPerm(ps, pte);
    WordFields(Bit(perm, 1), Bit(perm, 2), 1, slot * 1024 + pte);
  }

  /**
    The flags of every word: a directory entry has no flags besides bits 0 to 2, a table entry has bit 9 as well,
    and an entry that is not present is 0.
   */
  lemma WordFlags(file: seq<nat>, t: Directory, pdStart: nat, i: nat)
    requires Emitted(file, t, pdStart) && i < |file|
    ensures i < 1024 ==>
              if i in t then
                var perm := t[i][0].perm;
                file[i] % PAGE == 1 + (if perm / 2 % 2 == 1 || perm / 0x2000_0000 % 2 == 1 then 2 else 0)
                                    + (if perm / 4 % 2 == 1 || perm / 0x1000_0000 % 2 == 1 then 4 else 0)
              else file[i] == 0
    ensures i >= 1024 ==>
              var slot := Slots(t)[i / 1024 - 1];
              if slot in t && AnyHas(t[slot], i % 1024) then
                var perm := LastPerm(t[slot], i % 1024);
                file[i] % PAGE == 1 + perm / 2 % 2 * 2 + perm / 4 % 2 * 4 + 512
              else file[i] == 0
  {
    assert file[i] == FileWord(t, pdStart, i);
    if i < 1024 {
      if i in t {
        DirectoryWordFields(t[i], TablePage(Slots(t), i, pdStart));
        RightsBits(t[i][0].perm);
      }
    } else {
      var slot := Slots(t)[i / 1024 - 1];
      assert slot in Slots(t);
      if AnyHas(t[slot], i % 1024) {
        TableWordFields(t[slot], slot, i % 1024);
        RightsBits(LastPerm(t[slot], i % 1024));
      }
    }
  }

  lemma AddressParts(addr: nat)
    ensures (addr / SLOT * 1024 + PteNumber(addr)) * PAGE + addr % PAGE == addr
  {
  }
}
