/**
  The whole table optimisation as a function: counts are recomputed from the names at
  every step, so a program that keeps them incrementally is proved against this.
 */
module TokenChoice {
  import opened PairCoding

  /** A pair as an index into the 64K-entry profit table. */
  type PairKey = k: int | 0 <= k < 0x10000

  function Key(left: Code, right: Code): PairKey {
    left + 256 * right
  }

  function KeyLeft(k: PairKey): Code { k % 256 }

  function KeyRight(k: PairKey): Code { k / 256 }

  lemma KeyParts(k: PairKey)
    ensures Key(KeyLeft(k), KeyRight(k)) == k
  {
  }

  function Profit(names: seq<seq<Code>>, k: PairKey): nat {
    TotalCount(names, KeyLeft(k), KeyRight(k))
  }

  /** The first of the pairs below `n` with the greatest count. */
  function BestBelow(names: seq<seq<Code>>, n: nat): (best: PairKey)
    requires 0 < n <= 0x10000
    ensures best < n
    ensures forall k: PairKey :: k < n ==> Profit(names, k) <= Profit(names, best)
    ensures forall k: PairKey :: k < best ==> Profit(names, k) < Profit(names, best)
  {
    if n == 1 then 0
    else
      var best := BestBelow(names, n - 1);
      if Profit(names, n - 1) > Profit(names, best) then n - 1 else best
  }

  function Best(names: seq<seq<Code>>): PairKey {
    BestBelow(names, 0x10000)
  }

  /**
    `k` is the pair that occurs most often in the names, and the one with the smallest key
    among those that occur equally often.
   */
  ghost predicate MostFrequent(names: seq<seq<Code>>, k: PairKey) {
    forall left: Code, right: Code ::
      var here, there := |Occurrences(names, k % 256, k / 256)|, |Occurrences(names, left, right)|;
      there < here || (there == here && k <= left + 256 * right)
  }

  lemma BestIsMostFrequent(names: seq<seq<Code>>)
    ensures MostFrequent(names, Best(names))
    ensures Profit(names, Best(names)) == |Occurrences(names, Best(names) % 256, Best(names) / 256)|
  {
    var best := Best(names);
    TotalCountIs(names, best % 256, best / 256);
    forall left: Code, right: Code
      ensures var here, there := |Occurrences(names, best % 256, best / 256)|, |Occurrences(names, left, right)|;
              there < here || (there == here && best <= left + 256 * right)
    {
      TotalCountIs(names, left, right);
      var k := Key(left, right);
      assert KeyLeft(k) == left && KeyRight(k) == right;
      assert Profit(names, k) <= Profit(names, best) && (k < best ==> Profit(names, k) < Profit(names, best));
    }
  }

  lemma MostFrequentUnique(names: seq<seq<Code>>, j: PairKey, k: PairKey)
    requires MostFrequent(names, j) && MostFrequent(names, k)
    ensures j == k
  {
    var here, there := |Occurrences(names, k % 256, k / 256)|, |Occurrences(names, j % 256, j / 256)|;
    assert there < here || (there == here && k <= j % 256 + 256 * (j / 256));
    assert here < there || (here == there && j <= k % 256 + 256 * (k / 256));
  }

  /** An unprofitable best pair means that there is nothing left to compress. */
  lemma NoProfitNoPair(names: seq<seq<Code>>)
    requires Profit(names, Best(names)) == 0
    ensures Incompressible(names)
  {
    forall left: Code, right: Code ensures TotalCount(names, left, right) == 0 {
      assert Profit(names, Key(left, right)) <= Profit(names, Best(names));
    }
    NothingLeftToPair(names);
  }

  /** Both codes of a profitable pair occur in the names. */
  lemma BestPairOccurs(names: seq<seq<Code>>, k: PairKey)
    requires Profit(names, k) > 0
    ensures exists i, j :: 0 <= i < |names| && PairAt(names[i], KeyLeft(k), KeyRight(k), j)
  {
    TotalCountPositive(names, KeyLeft(k), KeyRight(k));
    var i :| 0 <= i < |names| && PairCount(names[i], KeyLeft(k), KeyRight(k)) > 0;
    PairCountPositive(names[i], KeyLeft(k), KeyRight(k));
    var j :| PairAt(names[i], KeyLeft(k), KeyRight(k), j);
  }

  function ReplaceAll(names: seq<seq<Code>>, left: Code, right: Code, code: Code): (r: seq<seq<Code>>)
    ensures |r| == |names|
    ensures forall i :: 0 <= i < |names| ==> r[i] == Replace(names[i], left, right, code)
  {
    seq(|names|, i requires 0 <= i < |names| => Replace(names[i], left, right, code))
  }

  datatype Coding = Coding(table: TokenTable, names: seq<seq<Code>>)

  /** Fill the free slots from `i` down to 0, each with the best pair of the names at that point. */
  function Optimize(c: Coding, i: int): (r: Coding)
    requires i < 256
    decreases i + 1
  {
    if i < 0 then c
    else if !c.table[i].Unused? then Optimize(c, i - 1)
    else
      var best := Best(c.names);
      if Profit(c.names, best) == 0 then c
      else Optimize(UseSlot(c, i, best), i - 1)
  }

  function UseSlot(c: Coding, slot: Code, k: PairKey): Coding {
    Coding(c.table[slot := Token(KeyLeft(k), KeyRight(k))],
           ReplaceAll(c.names, KeyLeft(k), KeyRight(k), slot))
  }

  // ---------- what every step keeps ----------

  /** The names, decoded through the table, are the original ones, and no longer than these. */
  ghost predicate Represents(c: Coding, origin: seq<seq<Code>>) {
    && Layered(c.table)
    && |c.names| == |origin|
    && forall i :: 0 <= i < |origin| ==>
         Covered(c.table, c.names[i]) && Expand(c.table, c.names[i]) == origin[i] && |c.names[i]| <= |origin[i]|
  }

  ghost predicate FreeThrough(t: TokenTable, i: int) {
    forall c: Code :: t[c].Token? ==> i < c
  }

  /** The coding stands for `origin`, slots up to `i` hold no token yet, and NUL is not a character. */
  ghost predicate Ready(c: Coding, origin: seq<seq<Code>>, i: int) {
    Represents(c, origin) && FreeThrough(c.table, i) && !c.table[0].Literal?
  }

  lemma UseSlotRepresents(c: Coding, origin: seq<seq<Code>>, slot: Code, k: PairKey)
    requires Ready(c, origin, slot) && c.table[slot].Unused? && Profit(c.names, k) > 0
    ensures Ready(UseSlot(c, slot, k), origin, slot - 1)
  {
    var left, right, d := KeyLeft(k), KeyRight(k), UseSlot(c, slot, k);
    BestPairOccurs(c.names, k);
    var i, j :| 0 <= i < |c.names| && PairAt(c.names[i], left, right, j);
    assert Covered(c.table, c.names[i]);
    FillKeepsLayered(c.table, slot, left, right);
    forall i | 0 <= i < |origin|
      ensures Covered(d.table, d.names[i]) && Expand(d.table, d.names[i]) == origin[i] && |d.names[i]| <= |origin[i]|
    {
      FillKeepsMeaning(c.table, slot, left, right, c.names[i]);
      ReplaceKeepsMeaning(d.table, c.names[i], slot);
      ReplaceKeepsCovered(d.table, c.names[i], left, right, slot);
    }
  }

  /** Optimisation never changes what the names mean. */
  lemma {:induction false} OptimizeRepresents(c: Coding, origin: seq<seq<Code>>, i: int)
    requires i < 256
    requires Ready(c, origin, i)
    ensures Ready(Optimize(c, i), origin, -1)
    decreases i + 1
  {
    if 0 <= i {
      if !c.table[i].Unused? {
        assert FreeThrough(c.table, i - 1);
        OptimizeRepresents(c, origin, i - 1);
      } else {
        var best := Best(c.names);
        if Profit(c.names, best) > 0 {
          UseSlotRepresents(c, origin, i, best);
          OptimizeRepresents(UseSlot(c, i, best), origin, i - 1);
        }
      }
    }
  }

  ghost predicate UsedAbove(t: TokenTable, i: int) {
    forall c: Code :: i < c ==> !t[c].Unused?
  }

  ghost predicate Incompressible(names: seq<seq<Code>>) {
    forall j :: 0 <= j < |names| ==> |names[j]| <= 1
  }

  /** Optimisation ends with the table full or with no name longer than one code. */
  lemma {:induction false} OptimizeExhausts(c: Coding, i: int)
    requires i < 256
    requires UsedAbove(c.table, i)
    ensures UsedAbove(Optimize(c, i).table, -1) || Incompressible(Optimize(c, i).names)
    decreases i + 1
  {
    if 0 <= i {
      if !c.table[i].Unused? {
        assert UsedAbove(c.table, i - 1);
        OptimizeExhausts(c, i - 1);
      } else {
        var best := Best(c.names);
        if Profit(c.names, best) == 0 {
          NoProfitNoPair(c.names);
        } else {
          OptimizeExhausts(UseSlot(c, i, best), i - 1);
        }
      }
    }
  }

  // ---------- the choice is greedy ----------

  /**
    One filled slot: the highest free one up to `i` gets the pair that occurs most often in the names as they are
    then, and every name uses the new token as far as possible.
   */
  ghost predicate Fills(c: Coding, d: Coding, i: int, slot: Code, k: PairKey) {
    && slot <= i && c.table[slot].Unused? && (forall j: Code :: slot < j <= i ==> !c.table[j].Unused?)
    && MostFrequent(c.names, k) && Occurrences(c.names, k % 256, k / 256) != {}
    && d.table == c.table[slot := Token(k % 256, k / 256)]
    && |d.names| == |c.names|
    && forall n :: 0 <= n < |c.names| ==>
         && Restore(d.names[n], k % 256, k / 256, slot) == c.names[n]
         && NoPair(d.names[n], k % 256, k / 256)
         && (k % 256 == k / 256 ==> NoPair(d.names[n], k % 256, slot))
  }

  ghost predicate FillsSome(c: Coding, d: Coding, i: int) {
    exists slot, k :: Fills(c, d, i, slot, k)
  }

  ghost predicate Chain(trace: seq<Coding>, i: int) {
    forall n :: 1 <= n < |trace| ==> FillsSome(trace[n - 1], trace[n], i)
  }

  /** A history of filled slots that goes on until there is no free slot or no pair. */
  ghost predicate Greedy(trace: seq<Coding>, i: int) {
    && trace != [] && Chain(trace, i)
    && var end := trace[|trace| - 1];
       (forall j: Code :: j <= i ==> !end.table[j].Unused?) || Incompressible(end.names)
  }

  lemma UseSlotFills(c: Coding, origin: seq<seq<Code>>, i: int, slot: Code)
    requires Ready(c, origin, i) && slot <= i && c.table[slot].Unused?
    requires forall j: Code :: slot < j <= i ==> !c.table[j].Unused?
    requires Profit(c.names, Best(c.names)) > 0
    ensures Fills(c, UseSlot(c, slot, Best(c.names)), i, slot, Best(c.names))
  {
    var k, d := Best(c.names), UseSlot(c, slot, Best(c.names));
    BestIsMostFrequent(c.names);
    BestPairOccurs(c.names, k);
    var a, b :| 0 <= a < |c.names| && PairAt(c.names[a], KeyLeft(k), KeyRight(k), b);
    assert Covered(c.table, c.names[a]);
    forall n | 0 <= n < |c.names|
      ensures Restore(d.names[n], k % 256, k / 256, slot) == c.names[n]
      ensures NoPair(d.names[n], k % 256, k / 256) && (k % 256 == k / 256 ==> NoPair(d.names[n], k % 256, slot))
    {
      assert Covered(c.table, c.names[n]);
      ReplaceRestores(c.names[n], KeyLeft(k), KeyRight(k), slot);
      ReplaceLeavesNone(c.names[n], KeyLeft(k), KeyRight(k), slot);
    }
  }

  lemma FillsKeeps(c: Coding, d: Coding, i: int, j: Code)
    requires FillsSome(c, d, i) && !c.table[j].Unused?
    ensures !d.table[j].Unused?
    ensures j == i + 1 ==> FillsSome(c, d, j)
  {
    var slot, k :| Fills(c, d, i, slot, k);
    if j == i + 1 {
      assert Fills(c, d, j, slot, k);
    }
  }

  /** A slot in use stays in use, and so the history may start above it. */
  lemma {:induction false} ChainHigher(trace: seq<Coding>, i: Code, n: nat)
    requires n < |trace| && Chain(trace, i - 1) && !trace[0].table[i].Unused?
    ensures !trace[n].table[i].Unused? && Chain(trace[..n + 1], i)
  {
    if n > 0 {
      ChainHigher(trace, i, n - 1);
      assert FillsSome(trace[n - 1], trace[n], i - 1);
      FillsKeeps(trace[n - 1], trace[n], i - 1, i);
      var before, upTo := trace[..n], trace[..n + 1];
      forall m | 1 <= m < |upTo|
        ensures FillsSome(upTo[m - 1], upTo[m], i)
      {
        if m < n {
          assert FillsSome(before[m - 1], before[m], i);
        }
      }
    }
  }

  lemma GreedyHigher(trace: seq<Coding>, i: Code)
    requires Greedy(trace, i - 1) && !trace[0].table[i].Unused?
    ensures Greedy(trace, i)
  {
    ChainHigher(trace, i, |trace| - 1);
    assert trace[..|trace|] == trace;
  }

  lemma GreedyFirst(c: Coding, trace: seq<Coding>, i: int)
    requires Greedy(trace, i) && FillsSome(c, trace[0], i)
    ensures Greedy([c] + trace, i)
  {
    var all := [c] + trace;
    forall m | 1 <= m < |all|
      ensures FillsSome(all[m - 1], all[m], i)
    {
      if m > 1 {
        assert FillsSome(trace[m - 2], trace[m - 1], i);
      }
    }
    assert all[|all| - 1] == trace[|trace| - 1];
  }

  /** The optimisation is such a history. */
  lemma {:induction false} OptimizeGreedy(c: Coding, origin: seq<seq<Code>>, i: int) returns (trace: seq<Coding>)
    requires i < 256 && Ready(c, origin, i)
    ensures Greedy(trace, i) && trace[0] == c && trace[|trace| - 1] == Optimize(c, i)
    decreases i + 1
  {
    if i < 0 {
      trace := [c];
    } else if !c.table[i].Unused? {
      assert FreeThrough(c.table, i - 1);
      trace := OptimizeGreedy(c, origin, i - 1);
      GreedyHigher(trace, i);
    } else if Profit(c.names, Best(c.names)) == 0 {
      NoProfitNoPair(c.names);
      trace := [c];
    } else {
      trace := FillAndGoOn(c, origin, i);
    }
  }

  lemma {:induction false} FillAndGoOn(c: Coding, origin: seq<seq<Code>>, i: Code) returns (trace: seq<Coding>)
    requires Ready(c, origin, i) && c.table[i].Unused? && Profit(c.names, Best(c.names)) > 0
    ensures Greedy(trace, i) && trace[0] == c && trace[|trace| - 1] == Optimize(c, i)
    decreases i + 1, 0
  {
    var d := UseSlot(c, i, Best(c.names));
    UseSlotRepresents(c, origin, i, Best(c.names));
    var rest := OptimizeGreedy(d, origin, i - 1);
    GreedyHigher(rest, i);
    UseSlotFills(c, origin, i, i);
    assert Fills(c, d, i, i, Best(c.names));
    GreedyFirst(c, rest, i);
    trace := [c] + rest;
  }

  // ---------- the starting table ----------

  ghost predicate Occurs(names: seq<seq<Code>>, c: Code) {
    exists i :: 0 <= i < |names| && c in names[i]
  }

  /** Exactly the characters in use stand for themselves; every other slot is free. */
  ghost predicate RealSymbols(t: TokenTable, names: seq<seq<Code>>) {
    forall c: Code :: t[c] == if Occurs(names, c) then Literal else Unused
  }

  lemma RealSymbolsStart(t: TokenTable, seen: seq<seq<Code>>)
    requires RealSymbols(t, seen)
    ensures forall s: seq<Code> :: s == [] ==> RealSymbols(t, seen + [s])
  {
    forall c: Code ensures Occurs(seen, c) <==> Occurs(seen + [[]], c) {
      if i :| 0 <= i < |seen| && c in seen[i] {
        assert c in (seen + [[]])[i];
      }
    }
  }

  lemma RealSymbolsStep(t: TokenTable, seen: seq<seq<Code>>, name: seq<Code>, j: nat)
    requires j < |name| && RealSymbols(t, seen + [name[..j]])
    ensures RealSymbols(t[name[j] := Literal], seen + [name[..j + 1]])
  {
    var before, after := seen + [name[..j]], seen + [name[..j + 1]];
    forall c: Code ensures Occurs(after, c) <==> c == name[j] || Occurs(before, c) {
      assert forall i :: 0 <= i < |seen| ==> before[i] == after[i];
      assert c in after[|seen|] <==> c == name[j] || c in before[|seen|];
      if i :| 0 <= i < |before| && c in before[i] {
        assert c in after[i];
      }
      if i :| 0 <= i < |after| && c in after[i] && c != name[j] {
        assert c in before[i];
      }
    }
  }

  lemma RealSymbolsRepresent(t: TokenTable, names: seq<seq<Code>>)
    requires RealSymbols(t, names) && !Occurs(names, 0)
    ensures Ready(Coding(t, names), names, 255)
  {
    forall i | 0 <= i < |names| ensures Covered(t, names[i]) && Expand(t, names[i]) == names[i] {
      forall k | 0 <= k < |names[i]| ensures t[names[i][k]].Literal? {
        assert Occurs(names, names[i][k]);
      }
      LiteralsExpandToThemselves(t, names[i]);
    }
  }
}
