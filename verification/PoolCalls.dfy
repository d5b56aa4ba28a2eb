/**
  Whole calls on the memory pool as sequences of protocol steps: a successful allocation,
  the recursive free, and what they do to each other.
 */
module PoolCalls {
  import opened PoolGeometry
  import opened PoolProtocol

  /** `pool_alloc` below the level it took a block from: break down to level `dest`. */
  function BreakDown(s: State, l: nat, b: nat, dest: nat): (r: State)
    requires l <= dest < |s.lists|
    ensures |r.lists| == |s.lists|
    decreases dest - l
  {
    if l == dest then s else BreakDown(BreakStep(s, l, b), l + 1, 4 * b, dest)
  }

  /** `free_block` with its tail recursion. */
  function FreeAll(s: State, l: nat, b: nat): State
    requires l < |s.lists|
    decreases l
  {
    if Merges(s, l, b) then FreeAll(FreeStep(s, l, b), l - 1, b / 4) else FreeStep(s, l, b)
  }

  lemma {:induction false} BreakDownKeepsInv(g: Geometry, s: State, l: nat, b: nat, dest: nat)
    requires g.Exact() && Inv(g, s) && l <= dest < g.nLevels && Block(l, b) in s.held
    ensures Inv(g, BreakDown(s, l, b, dest))
    ensures Block(dest, FirstWithin(l, b, dest)) in BreakDown(s, l, b, dest).held
    decreases dest - l
  {
    if l < dest {
      BreakKeepsInv(g, s, l, b);
      BreakDownKeepsInv(g, BreakStep(s, l, b), l + 1, 4 * b, dest);
    }
  }

  /** Of the blocks held, only the one that is broken down changes. */
  lemma {:induction false} BreakDownHeld(g: Geometry, s: State, l: nat, b: nat, dest: nat)
    requires g.Exact() && Inv(g, s) && l <= dest < g.nLevels && Block(l, b) in s.held
    ensures BreakDown(s, l, b, dest).held == s.held - {Block(l, b)} + {Block(dest, FirstWithin(l, b, dest))}
    decreases dest - l
  {
    if l < dest {
      BreakKeepsInv(g, s, l, b);
      SplitTiles(g, s.free + s.held, l, b);
      var t := BreakStep(s, l, b);
      assert t.held - {Block(l + 1, 4 * b)} == s.held - {Block(l, b)};
      BreakDownHeld(g, t, l + 1, 4 * b, dest);
    }
  }

  lemma {:induction false} FreeAllKeepsInv(g: Geometry, s: State, l: nat, b: nat)
    requires g.Exact() && Inv(g, s) && l < g.nLevels && Block(l, b) in s.held
    ensures Inv(g, FreeAll(s, l, b))
    ensures FreeAll(s, l, b).held == s.held - {Block(l, b)}
    decreases l
  {
    FreeKeepsInv(g, s, l, b);
    if Merges(s, l, b) {
      var t := FreeStep(s, l, b);
      QuadMembers(l, b / 4, b);
      MergeTiles(g, s.free + s.held, l - 1, b / 4);
      FreeAllKeepsInv(g, t, l - 1, b / 4);
    }
  }

  lemma {:induction false} WithoutQuadConcat(list: seq<nat>, more: seq<nat>, q: nat)
    ensures WithoutQuad(list + more, q) == WithoutQuad(list, q) + WithoutQuad(more, q)
  {
    if list == [] {
      assert list + more == more;
    } else {
      var rest := list[1..];
      WithoutQuadConcat(rest, more, q);
      assert (list + more)[1..] == rest + more && (list + more)[0] == list[0];
    }
  }

  lemma {:induction false} WithoutQuadSame(list: seq<nat>, q: nat)
    requires forall i :: 0 <= i < |list| ==> list[i] / 4 != q
    ensures WithoutQuad(list, q) == list
  {
    if list != [] {
      WithoutQuadSame(list[1..], q);
    }
  }

  lemma {:induction false} WithoutQuadUndoes(list: seq<nat>, b: nat, n: nat, limit: nat)
    requires n < 4 && forall i :: 0 <= i < |list| ==> list[i] / 4 != b
    ensures WithoutQuad(ListedQuarters(list, b, n, limit), b) == list
  {
    if n == 0 {
      WithoutQuadSame(list, b);
    } else {
      WithoutQuadUndoes(list, b, n - 1, limit);
      WithoutQuadConcat(ListedQuarters(list, b, n - 1, limit), [4 * b + n], b);
      assert [4 * b + n][1..] == [];
    }
  }

  /** Freeing the quarter that a break kept undoes the break, lists included. */
  lemma FreeUndoesBreak(g: Geometry, s: State, l: nat, b: nat)
    requires g.Exact() && Inv(g, s) && Enabled(g, s, Break(l, b))
    ensures Merges(BreakStep(s, l, b), l + 1, 4 * b)
    ensures FreeStep(BreakStep(s, l, b), l + 1, 4 * b) == s
  {
    var t := BreakStep(s, l, b);
    SplitTiles(g, s.free + s.held, l, b);
    assert Quad(l + 1, b) <= t.free + {Block(l + 1, 4 * b)};
    assert ListAgrees(s, l + 1);
    ListRestored(s, l + 1, b);
    var r := FreeStep(t, l + 1, 4 * b);
    assert r.free == s.free;
    assert r.held == s.held;
    assert r.lists == s.lists;
  }

  lemma ListRestored(s: State, l: nat, b: nat)
    requires l < |s.lists| && ListAgrees(s, l) && s.free !! Quad(l, b)
    ensures WithoutQuad(ListedQuarters(s.lists[l], b, 3, Limit(s.cap, l)), b) == s.lists[l]
  {
    var list := s.lists[l];
    forall i | 0 <= i < |list| ensures list[i] / 4 != b {
      assert list[i] in list && Block(l, list[i]) in s.free;
      QuadMembers(l, b, list[i]);
    }
    WithoutQuadUndoes(list, b, 3, Limit(s.cap, l));
  }

  lemma {:induction false} FreeUndoesBreakDown(g: Geometry, s: State, l: nat, b: nat, dest: nat)
    requires g.Exact() && Inv(g, s) && l <= dest < g.nLevels && Block(l, b) in s.held
    ensures FreeAll(BreakDown(s, l, b, dest), dest, FirstWithin(l, b, dest)) == FreeAll(s, l, b)
    decreases dest - l
  {
    if l < dest {
      var t := BreakStep(s, l, b);
      BreakKeepsInv(g, s, l, b);
      FreeUndoesBreakDown(g, t, l + 1, 4 * b, dest);
      FreeUndoesBreak(g, s, l, b);
    }
  }

  /**
    Allocating and freeing again: the same blocks are free and held as before, and the
    only trace is that the block taken has moved to the end of its list.
   */
  lemma AllocFreeIdentity(g: Geometry, s: State, from: nat, dest: nat)
    requires g.Exact() && Inv(g, s) && from <= dest < g.nLevels && s.lists[from] != []
    ensures var b := s.lists[from][0];
            FreeAll(BreakDown(AllocStep(s, from), from, b, dest), dest, FirstWithin(from, b, dest))
            == s.(lists := s.lists[from := s.lists[from][1..] + [b]])
  {
    AllocKeepsInv(g, s, from);
    FreeUndoesBreakDown(g, AllocStep(s, from), from, s.lists[from][0], dest);
    FreeUndoesAlloc(g, s, from);
  }

  lemma FreeUndoesAlloc(g: Geometry, s: State, from: nat)
    requires Inv(g, s) && from < g.nLevels && s.lists[from] != []
    ensures var b := s.lists[from][0];
            FreeAll(AllocStep(s, from), from, b) == s.(lists := s.lists[from := s.lists[from][1..] + [b]])
  {
    var b, t := s.lists[from][0], AllocStep(s, from);
    assert ListAgrees(s, from) && b in s.lists[from];
    assert t.free + {Block(from, b)} == s.free;
    if from > 0 {
      assert !(Quad(from, b / 4) <= s.free);
    }
    assert !Merges(t, from, b);
    assert t.held - {Block(from, b)} == s.held;
  }
}
