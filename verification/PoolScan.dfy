/**
  `pool_alloc` looks for a block without holding the lock, so other threads may take steps
  while it goes through the levels. Exactly which kinds of steps can make it miss a block.
 */
module PoolScan {
  import opened PoolGeometry
  import opened PoolProtocol

  /** Level `i` is read in state `seen[i]`; the steps `between[i]` of other threads follow. */
  datatype Scan = Scan(seen: seq<State>, between: seq<seq<Step>>)

  datatype Kind = Allocs | Breaks | Frees

  function KindOf(step: Step): Kind {
    match step
    case Alloc(_) => Allocs
    case Break(_, _) => Breaks
    case Free(_, _) => Frees
  }

  predicate AllOf(steps: seq<Step>, kinds: set<Kind>) {
    forall i :: 0 <= i < |steps| ==> KindOf(steps[i]) in kinds
  }

  /** A scan of the levels 0 to `l`, interrupted only by steps of the given kinds. */
  ghost predicate Scans(g: Geometry, sc: Scan, l: nat, kinds: set<Kind>) {
    && l < g.nLevels && |sc.seen| == l + 1 && |sc.between| == l
    && (forall i :: 0 <= i <= l ==> |sc.seen[i].lists| == g.nLevels)
    && (forall i :: 0 <= i < l ==> AllOf(sc.between[i], kinds))
    && forall i :: 0 <= i < l ==> RunsTo(g, sc.seen[i], sc.between[i], sc.seen[i + 1])
  }

  /** It reports that there is no memory when each list was empty at its own moment. */
  ghost predicate GivesUp(sc: Scan, l: nat)
    requires l < |sc.seen| && forall i :: 0 <= i <= l ==> l < |sc.seen[i].lists|
  {
    forall i :: 0 <= i <= l ==> sc.seen[i].lists[i] == []
  }

  /** At some moment of a run there is no block of level `l`, nor one to make it from. */
  ghost predicate ExhaustedWithin(g: Geometry, s: State, steps: seq<Step>, l: nat)
    decreases |steps|
  {
    || (l < |s.lists| && Exhausted(s, l))
    || (steps != [] && Enabled(g, s, steps[0]) && ExhaustedWithin(g, Apply(g, s, steps[0]), steps[1..], l))
  }

  /** The report is true of some moment of the scan. */
  ghost predicate TrueSometime(g: Geometry, sc: Scan, l: nat)
    requires |sc.seen| == l + 1 && |sc.between| == l
  {
    || (l < |sc.seen[l].lists| && Exhausted(sc.seen[l], l))
    || exists i :: 0 <= i < l && ExhaustedWithin(g, sc.seen[i], sc.between[i], l)
  }

  /** The scan starts in a state that threads can reach. */
  ghost predicate Possible(g: Geometry, before: seq<Step>, sc: Scan, l: nat, kinds: set<Kind>) {
    && g.Exact() && Scans(g, sc, l, kinds) && Roomy(g, sc.seen[0].cap)
    && RunsTo(g, Init(g, sc.seen[0].cap), before, sc.seen[0])
  }

  ghost predicate Reliable(kinds: set<Kind>) {
    forall g, before, sc, l :: Possible(g, before, sc, l, kinds) && GivesUp(sc, l) ==> TrueSometime(g, sc, l)
  }

  // ---------- steps that do no harm ----------

  lemma {:induction false} AllocsKeepEmpty(g: Geometry, s: State, steps: seq<Step>, t: State, k: nat)
    requires RunsTo(g, s, steps, t) && AllOf(steps, {Allocs}) && k < |s.lists| == g.nLevels && s.lists[k] == []
    ensures |t.lists| == g.nLevels && t.lists[k] == []
    decreases |steps|
  {
    if steps != [] {
      assert KindOf(steps[0]) in {Allocs};
      AllocsKeepEmpty(g, Apply(g, s, steps[0]), steps[1..], t, k);
    }
  }

  lemma {:induction false} QuartersGrow(list: seq<nat>, b: nat, n: nat, limit: nat)
    ensures |ListedQuarters(list, b, n, limit)| >= |list|
  {
    if n > 0 {
      QuartersGrow(list, b, n - 1, limit);
    }
  }

  lemma {:induction false} BreaksOnlyGrow(g: Geometry, s: State, steps: seq<Step>, t: State, k: nat)
    requires RunsTo(g, s, steps, t) && AllOf(steps, {Breaks}) && k < |s.lists| == |t.lists| == g.nLevels
    requires t.lists[k] == []
    ensures s.lists[k] == []
    decreases |steps|
  {
    if steps != [] {
      assert KindOf(steps[0]) in {Breaks};
      QuartersGrow(s.lists[steps[0].l + 1], steps[0].b, 3, Limit(s.cap, steps[0].l + 1));
      BreaksOnlyGrow(g, Apply(g, s, steps[0]), steps[1..], t, k);
    }
  }

  lemma {:induction false} StaysEmpty(g: Geometry, sc: Scan, l: nat, i: nat, k: nat)
    requires Scans(g, sc, l, {Allocs}) && k <= i <= l && sc.seen[k].lists[k] == []
    ensures sc.seen[i].lists[k] == []
    decreases i - k
  {
    if k < i {
      StaysEmpty(g, sc, l, i - 1, k);
      AllocsKeepEmpty(g, sc.seen[i - 1], sc.between[i - 1], sc.seen[i], k);
    }
  }

  lemma {:induction false} WasEmpty(g: Geometry, sc: Scan, l: nat, i: nat, k: nat)
    requires Scans(g, sc, l, {Breaks}) && i <= k <= l && sc.seen[k].lists[k] == []
    ensures sc.seen[i].lists[k] == []
    decreases k - i
  {
    if i < k {
      WasEmpty(g, sc, l, i + 1, k);
      BreaksOnlyGrow(g, sc.seen[i], sc.between[i], sc.seen[i + 1], k);
    }
  }

  /** Interrupted only by allocations, the report is true at the end ... */
  lemma AllocsAreHarmless(g: Geometry, sc: Scan, l: nat)
    requires Scans(g, sc, l, {Allocs}) && GivesUp(sc, l)
    ensures Exhausted(sc.seen[l], l)
  {
    forall k | 0 <= k <= l
      ensures sc.seen[l].lists[k] == []
    {
      StaysEmpty(g, sc, l, l, k);
    }
  }

  /** ... and interrupted only by breaks, it was true at the start. */
  lemma BreaksAreHarmless(g: Geometry, sc: Scan, l: nat)
    requires Scans(g, sc, l, {Breaks}) && GivesUp(sc, l)
    ensures Exhausted(sc.seen[0], l)
  {
    forall k | 0 <= k <= l
      ensures sc.seen[0].lists[k] == []
    {
      WasEmpty(g, sc, l, 0, k);
    }
  }

  // ---------- steps that make it miss a block ----------

  /** A run can be put together from its first step and the rest. */
  lemma RunsFirst(g: Geometry, s: State, step: Step, t: State, steps: seq<Step>, u: State)
    requires Enabled(g, s, step) && Apply(g, s, step) == t && RunsTo(g, t, steps, u)
    ensures RunsTo(g, s, [step] + steps, u)
  {
    assert ([step] + steps)[1..] == steps;
  }

  lemma NotWithinFirst(g: Geometry, s: State, step: Step, t: State, steps: seq<Step>, l: nat)
    requires Enabled(g, s, step) && Apply(g, s, step) == t && l < |s.lists|
    requires !Exhausted(s, l) && !ExhaustedWithin(g, t, steps, l)
    ensures !ExhaustedWithin(g, s, [step] + steps, l)
  {
    assert ([step] + steps)[1..] == steps;
  }

  lemma FirstQuarters(b: nat, limit: nat)
    requires 4 * b + 3 < limit
    ensures ListedQuarters([], b, 3, limit) == [4 * b + 1, 4 * b + 2, 4 * b + 3]
  {
    assert ListedQuarters([], b, 1, limit) == [4 * b + 1];
    assert ListedQuarters([], b, 2, limit) == [4 * b + 1, 4 * b + 2];
  }

  /** Two top-level blocks of 64 bytes, each with four quarters: one is held, of the other only a quarter. */
  const SMALL: Geometry := Geometry(2, 64, 2)

  const ONE_QUARTER: State :=
    State({Block(1, 5), Block(1, 6), Block(1, 7)}, [[], [5, 6, 7]], {Block(0, 0), Block(1, 4)}, [2, 8])

  lemma OneQuarterReachable()
    ensures RunsTo(SMALL, Init(SMALL, [2, 8]), [Alloc(0)] + ([Alloc(0)] + ([Break(0, 1)] + [])), ONE_QUARTER)
  {
    var s0 := Init(SMALL, [2, 8]);
    assert s0.free == {Block(0, 0), Block(0, 1)};
    assert s0.lists[0] == [0, 1] && s0.lists[1] == [];
    assert s0.lists == [[0, 1], []];
    assert [0, 1][1..] == [1] && [1][1..] == [];
    FirstQuarters(1, 8);
    var s1 := State({Block(0, 1)}, [[1], []], {Block(0, 0)}, [2, 8]);
    assert AllocStep(s0, 0) == s1;
    var s2 := State({}, [[], []], {Block(0, 0), Block(0, 1)}, [2, 8]);
    assert AllocStep(s1, 0).free == s2.free && AllocStep(s1, 0).held == s2.held && AllocStep(s1, 0).lists == s2.lists;
    var s3 := ONE_QUARTER;
    assert BreakStep(s2, 0, 1).free == s3.free && BreakStep(s2, 0, 1).held == s3.held;
    assert BreakStep(s2, 0, 1).lists == s3.lists;
    RunsFirst(SMALL, s2, Break(0, 1), s3, [], s3);
    RunsFirst(SMALL, s1, Alloc(0), s2, [Break(0, 1)] + [], s3);
    RunsFirst(SMALL, s0, Alloc(0), s1, [Alloc(0)] + ([Break(0, 1)] + []), s3);
  }

  /** The other top-level block freed as well, and then the quarter. */
  const ONE_FREED: State := State(ONE_QUARTER.free + {Block(0, 0)}, [[0], [5, 6, 7]], {Block(1, 4)}, [2, 8])

  const MERGED: State := State({Block(0, 0)}, [[0], []], {Block(0, 1)}, [2, 8])

  lemma FreeingMerges()
    ensures FreeStep(ONE_QUARTER, 0, 0) == ONE_FREED && FreeStep(ONE_FREED, 1, 4) == MERGED
  {
    var t, u := FreeStep(ONE_QUARTER, 0, 0), FreeStep(ONE_FREED, 1, 4);
    assert ONE_QUARTER.lists[0] + [0] == [0];
    assert t.lists == ONE_FREED.lists && t.held == ONE_FREED.held;
    assert Merges(ONE_FREED, 1, 4);
    assert WithoutQuad([5, 6, 7], 1) == [];
    assert u.lists == MERGED.lists && u.held == MERGED.held && u.free == MERGED.free;
  }

  /**
    Frees alone can make a scan miss a block that is there all the time: after level 0 is
    read, a top-level block is freed, and then the quarters merge before level 1 is read.
   */
  lemma FreesCauseMiss()
    ensures !Reliable({Frees})
  {
    FreeingMerges();
    RunsFirst(SMALL, ONE_FREED, Free(1, 4), MERGED, [], MERGED);
    RunsFirst(SMALL, ONE_QUARTER, Free(0, 0), ONE_FREED, [Free(1, 4)] + [], MERGED);
    assert ONE_QUARTER.lists[1] != [] && ONE_FREED.lists[0] != [] && MERGED.lists[0] != [];
    NotWithinFirst(SMALL, ONE_FREED, Free(1, 4), MERGED, [], 1);
    NotWithinFirst(SMALL, ONE_QUARTER, Free(0, 0), ONE_FREED, [Free(1, 4)] + [], 1);
    var sc := Scan([ONE_QUARTER, MERGED], [[Free(0, 0)] + ([Free(1, 4)] + [])]);
    OneQuarterReachable();
    var before := [Alloc(0)] + ([Alloc(0)] + ([Break(0, 1)] + []));
    assert Pow4(2) == 16;
    Unreliable(SMALL, before, sc, 1, {Frees});
  }

  /** Three levels: one top-level block and all of the other but three of the smallest blocks are held. */
  const DEEP: Geometry := Geometry(2, 128, 3)

  function Held(): set<Block> {
    {Block(1, 5), Block(1, 6), Block(1, 7), Block(2, 16)}
  }

  const THREE_LEFT: State :=
    State({Block(2, 17), Block(2, 18), Block(2, 19)}, [[], [], [17, 18, 19]], Held() + {Block(0, 0)}, [2, 8, 32])

  /** The steps that lead there. */
  function Before(): seq<Step> {
    [Alloc(0)] + ([Alloc(0)] + ([Break(0, 1)] + ([Break(1, 4)] + Quarters())))
  }

  function Quarters(): seq<Step> {
    [Alloc(1)] + ([Alloc(1)] + ([Alloc(1)] + []))
  }

  const BROKEN: State :=
    State(THREE_LEFT.free + {Block(1, 5), Block(1, 6), Block(1, 7)}, [[], [5, 6, 7], [17, 18, 19]],
          {Block(0, 0), Block(2, 16)}, [2, 8, 32])

  lemma QuartersTaken()
    ensures RunsTo(DEEP, BROKEN, Quarters(), THREE_LEFT)
  {
    var s1 := State(THREE_LEFT.free + {Block(1, 6), Block(1, 7)}, [[], [6, 7], [17, 18, 19]],
                    {Block(0, 0), Block(2, 16), Block(1, 5)}, [2, 8, 32]);
    var s2 := State(THREE_LEFT.free + {Block(1, 7)}, [[], [7], [17, 18, 19]],
                    {Block(0, 0), Block(2, 16), Block(1, 5), Block(1, 6)}, [2, 8, 32]);
    assert [5, 6, 7][1..] == [6, 7] && [6, 7][1..] == [7] && [7][1..] == [];
    assert AllocStep(BROKEN, 1) == s1 by {
      assert AllocStep(BROKEN, 1).free == s1.free && AllocStep(BROKEN, 1).lists == s1.lists;
    }
    assert AllocStep(s1, 1) == s2 by {
      assert AllocStep(s1, 1).free == s2.free && AllocStep(s1, 1).lists == s2.lists;
    }
    assert AllocStep(s2, 1) == THREE_LEFT by {
      assert AllocStep(s2, 1).free == THREE_LEFT.free && AllocStep(s2, 1).held == THREE_LEFT.held;
      assert AllocStep(s2, 1).lists == THREE_LEFT.lists;
    }
    RunsFirst(DEEP, s2, Alloc(1), THREE_LEFT, [], THREE_LEFT);
    RunsFirst(DEEP, s1, Alloc(1), s2, [Alloc(1)] + [], THREE_LEFT);
    RunsFirst(DEEP, BROKEN, Alloc(1), s1, [Alloc(1)] + ([Alloc(1)] + []), THREE_LEFT);
  }

  lemma ThreeLeftReachable()
    ensures RunsTo(DEEP, Init(DEEP, [2, 8, 32]), Before(), THREE_LEFT)
  {
    var s0 := Init(DEEP, [2, 8, 32]);
    assert s0.free == {Block(0, 0), Block(0, 1)};
    assert s0.lists[0] == [0, 1] && s0.lists[1] == [] && s0.lists[2] == [];
    assert s0.lists == [[0, 1], [], []];
    assert [0, 1][1..] == [1] && [1][1..] == [];
    var s1 := State({Block(0, 1)}, [[1], [], []], {Block(0, 0)}, [2, 8, 32]);
    var s2 := State({}, [[], [], []], {Block(0, 0), Block(0, 1)}, [2, 8, 32]);
    var s3 := State({Block(1, 5), Block(1, 6), Block(1, 7)}, [[], [5, 6, 7], []], {Block(0, 0), Block(1, 4)}, [2, 8, 32]);
    assert AllocStep(s0, 0) == s1;
    assert AllocStep(s1, 0) == s2 by {
      assert AllocStep(s1, 0).free == s2.free && AllocStep(s1, 0).held == s2.held && AllocStep(s1, 0).lists == s2.lists;
    }
    assert BreakStep(s2, 0, 1) == s3 by {
      FirstQuarters(1, 8);
      var t := BreakStep(s2, 0, 1);
      assert t.free == s3.free && t.held == s3.held && t.lists == s3.lists;
    }
    assert BreakStep(s3, 1, 4) == BROKEN by {
      FirstQuarters(4, 32);
      var t := BreakStep(s3, 1, 4);
      assert t.free == BROKEN.free && t.held == BROKEN.held && t.lists == BROKEN.lists;
    }
    QuartersTaken();
    RunsFirst(DEEP, s3, Break(1, 4), BROKEN, Quarters(), THREE_LEFT);
    RunsFirst(DEEP, s2, Break(0, 1), s3, [Break(1, 4)] + Quarters(), THREE_LEFT);
    RunsFirst(DEEP, s1, Alloc(0), s2, [Break(0, 1)] + ([Break(1, 4)] + Quarters()), THREE_LEFT);
    RunsFirst(DEEP, s0, Alloc(0), s1, [Alloc(0)] + ([Break(0, 1)] + ([Break(1, 4)] + Quarters())), THREE_LEFT);
  }

  /** The first top-level block broken, and the smallest blocks taken one by one. */
  function Taken(smallest: seq<nat>, free: set<Block>, held: set<Block>): State {
    State(free + {Block(1, 1), Block(1, 2), Block(1, 3)}, [[], [1, 2, 3], smallest], Held() + {Block(1, 0)} + held,
          [2, 8, 32])
  }

  function Interruption(): seq<Step> {
    [Break(0, 0)] + ([Alloc(2)] + ([Alloc(2)] + ([Alloc(2)] + [])))
  }

  lemma SmallestTaken()
    ensures var t1, t4 := Taken([17, 18, 19], THREE_LEFT.free, {}),
                          Taken([], {}, {Block(2, 17), Block(2, 18), Block(2, 19)});
            var steps := [Alloc(2)] + ([Alloc(2)] + ([Alloc(2)] + []));
            RunsTo(DEEP, t1, steps, t4) && !ExhaustedWithin(DEEP, t1, steps, 2) && !Exhausted(t4, 2)
  {
    var t1 := Taken([17, 18, 19], THREE_LEFT.free, {});
    var t2 := Taken([18, 19], {Block(2, 18), Block(2, 19)}, {Block(2, 17)});
    var t3 := Taken([19], {Block(2, 19)}, {Block(2, 17), Block(2, 18)});
    var t4 := Taken([], {}, {Block(2, 17), Block(2, 18), Block(2, 19)});
    assert [17, 18, 19][1..] == [18, 19] && [18, 19][1..] == [19] && [19][1..] == [];
    assert AllocStep(t1, 2) == t2 by {
      var t := AllocStep(t1, 2);
      assert t.free == t2.free && t.held == t2.held && t.lists == t2.lists;
    }
    assert AllocStep(t2, 2) == t3 by {
      var t := AllocStep(t2, 2);
      assert t.free == t3.free && t.held == t3.held && t.lists == t3.lists;
    }
    assert AllocStep(t3, 2) == t4 by {
      var t := AllocStep(t3, 2);
      assert t.free == t4.free && t.held == t4.held && t.lists == t4.lists;
    }
    assert t1.lists[1] != [] && t2.lists[1] != [] && t3.lists[1] != [] && t4.lists[1] != [];
    RunsFirst(DEEP, t3, Alloc(2), t4, [], t4);
    RunsFirst(DEEP, t2, Alloc(2), t3, [Alloc(2)] + [], t4);
    RunsFirst(DEEP, t1, Alloc(2), t2, [Alloc(2)] + ([Alloc(2)] + []), t4);
    NotWithinFirst(DEEP, t3, Alloc(2), t4, [], 2);
    NotWithinFirst(DEEP, t2, Alloc(2), t3, [Alloc(2)] + [], 2);
    NotWithinFirst(DEEP, t1, Alloc(2), t2, [Alloc(2)] + ([Alloc(2)] + []), 2);
  }

  const LAST_TAKEN: State := Taken([], {}, {Block(2, 17), Block(2, 18), Block(2, 19)})

  lemma FirstBroken()
    ensures BreakStep(THREE_LEFT, 0, 0) == Taken([17, 18, 19], THREE_LEFT.free, {})
  {
    var t, t1 := BreakStep(THREE_LEFT, 0, 0), Taken([17, 18, 19], THREE_LEFT.free, {});
    FirstQuarters(0, 8);
    assert t.free == t1.free && t.held == t1.held && t.lists == t1.lists;
  }

  lemma InterruptionRuns()
    ensures RunsTo(DEEP, THREE_LEFT, Interruption(), LAST_TAKEN)
    ensures !ExhaustedWithin(DEEP, THREE_LEFT, Interruption(), 2) && !ExhaustedWithin(DEEP, THREE_LEFT, [], 2)
    ensures |LAST_TAKEN.lists| == 3 && LAST_TAKEN.lists[2] == [] && !Exhausted(LAST_TAKEN, 2)
    ensures AllOf(Interruption(), {Breaks, Allocs})
  {
    var s, t1 := THREE_LEFT, Taken([17, 18, 19], THREE_LEFT.free, {});
    SmallestTaken();
    FirstBroken();
    var rest := [Alloc(2)] + ([Alloc(2)] + ([Alloc(2)] + []));
    assert Enabled(DEEP, s, Break(0, 0));
    RunsFirst(DEEP, s, Break(0, 0), t1, rest, LAST_TAKEN);
    assert s.lists[2] != [];
    NotWithinFirst(DEEP, s, Break(0, 0), t1, rest, 2);
  }

  lemma MissedScan(sc: Scan)
    requires sc == Scan([THREE_LEFT, THREE_LEFT, LAST_TAKEN], [[], Interruption()])
    ensures Scans(DEEP, sc, 2, {Breaks, Allocs}) && GivesUp(sc, 2) && !TrueSometime(DEEP, sc, 2)
  {
    InterruptionRuns();
    assert RunsTo(DEEP, THREE_LEFT, [], THREE_LEFT);
  }

  lemma DeepIsRoomy()
    ensures DEEP.Exact() && Roomy(DEEP, [2, 8, 32])
  {
    assert Pow4(3) == 64;
  }

  /** One scan that gives up wrongly is enough. */
  lemma Unreliable(g: Geometry, before: seq<Step>, sc: Scan, l: nat, kinds: set<Kind>)
    requires g.Exact() && Scans(g, sc, l, kinds) && GivesUp(sc, l) && !TrueSometime(g, sc, l)
    requires Roomy(g, sc.seen[0].cap) && RunsTo(g, Init(g, sc.seen[0].cap), before, sc.seen[0])
    ensures !Reliable(kinds)
  {
    assert Possible(g, before, sc, l, kinds);
  }

  /**
    Breaks and allocations together can, without any free: after level 1 is read, a held
    top-level block is broken into it, and then the last blocks of level 2 are taken.
   */
  lemma BreaksAndAllocsCauseMiss()
    ensures !Reliable({Breaks, Allocs})
  {
    var sc := Scan([THREE_LEFT, THREE_LEFT, LAST_TAKEN], [[], Interruption()]);
    MissedScan(sc);
    ThreeLeftReachable();
    DeepIsRoomy();
    Unreliable(DEEP, Before(), sc, 2, {Breaks, Allocs});
  }

  // ---------- exactly when ----------

  lemma MoreKinds(kinds: set<Kind>, more: set<Kind>)
    requires kinds <= more && Reliable(more)
    ensures Reliable(kinds)
  {
    forall g, before, sc, l | Possible(g, before, sc, l, kinds) && GivesUp(sc, l)
      ensures TrueSometime(g, sc, l)
    {
      assert Possible(g, before, sc, l, more);
    }
  }

  lemma {:induction false} WithinFirst(g: Geometry, s: State, steps: seq<Step>, l: nat)
    requires l < |s.lists| && Exhausted(s, l)
    ensures ExhaustedWithin(g, s, steps, l)
  {
  }

  lemma OnlyAllocs()
    ensures Reliable({Allocs})
  {
    forall g, before, sc, l | Possible(g, before, sc, l, {Allocs}) && GivesUp(sc, l)
      ensures TrueSometime(g, sc, l)
    {
      AllocsAreHarmless(g, sc, l);
    }
  }

  lemma OnlyBreaks()
    ensures Reliable({Breaks})
  {
    forall g, before, sc, l | Possible(g, before, sc, l, {Breaks}) && GivesUp(sc, l)
      ensures TrueSometime(g, sc, l)
    {
      BreaksAreHarmless(g, sc, l);
      if l > 0 {
        WithinFirst(g, sc.seen[0], sc.between[0], l);
      }
    }
  }

  /**
    What a scan that gives up reports was true at some moment, for every reachable start and
    every interruption by steps of the given kinds, exactly when nothing is freed meanwhile and
    blocks are not both broken and allocated.
   */
  lemma ReliableIff(kinds: set<Kind>)
    ensures Reliable(kinds) <==> Frees !in kinds && !(Breaks in kinds && Allocs in kinds)
  {
    if Frees in kinds {
      FreesCauseMiss();
      if Reliable(kinds) { MoreKinds({Frees}, kinds); }
    } else if Breaks in kinds && Allocs in kinds {
      BreaksAndAllocsCauseMiss();
      if Reliable(kinds) { MoreKinds({Breaks, Allocs}, kinds); }
    } else if Breaks in kinds {
      OnlyBreaks();
      assert forall k :: k in kinds ==> k == Breaks;
      MoreKinds(kinds, {Breaks});
    } else {
      OnlyAllocs();
      assert forall k :: k in kinds ==> k == Allocs;
      MoreKinds(kinds, {Allocs});
    }
  }
}
