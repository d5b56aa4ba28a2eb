/**
  When the compressed tables fit their formats: a condition on the symbol list alone.
 */
module KallsymsLimits {
  import opened PairCoding
  import opened TokenChoice
  import opened KallsymsWriter

  /** Every name, with its type character, is shorter than the buffer that tokens are expanded in. */
  predicate AllShort(names: seq<seq<Code>>) {
    forall i :: 0 <= i < |names| ==> |names[i]| < KSYM_NAME_LEN
  }

  // ---------- tokens are parts of names ----------

  predicate Within(part: seq<Code>, s: seq<Code>, at: nat) {
    at + |part| <= |s| && s[at..at + |part|] == part
  }

  /** The codes occur together, in this order, in one of the names. */
  ghost predicate PartOf(part: seq<Code>, names: seq<seq<Code>>) {
    exists i: nat, at: nat :: i < |names| && Within(part, names[i], at)
  }

  /** What a slot in use stands for is part of a name. */
  ghost predicate TokensAreParts(t: TokenTable, names: seq<seq<Code>>)
    requires Layered(t)
  {
    forall c: Code :: !t[c].Unused? ==> PartOf(ExpandCode(t, c), names)
  }

  lemma Middle(a: seq<Code>, part: seq<Code>, b: seq<Code>)
    ensures Within(part, a + part + b, |a|)
  {
  }

  /** What a pair stands for is part of what the name stands for. */
  lemma PairWithin(t: TokenTable, s: seq<Code>, left: Code, right: Code, k: nat)
    requires Layered(t) && PairAt(s, left, right, k)
    ensures Within(ExpandCode(t, left) + ExpandCode(t, right), Expand(t, s), |Expand(t, s[..k])|)
  {
    assert s == s[..k] + [left, right] + s[k + 2..];
    ExpandConcat(t, s[..k] + [left, right], s[k + 2..]);
    ExpandConcat(t, s[..k], [left, right]);
    ExpandTwo(t, left, right);
    Middle(Expand(t, s[..k]), ExpandCode(t, left) + ExpandCode(t, right), Expand(t, s[k + 2..]));
  }

  /** So is a new token. */
  lemma UseSlotPart(c: Coding, origin: seq<seq<Code>>, slot: Code, k: PairKey)
    requires Ready(c, origin, slot) && c.table[slot].Unused? && Profit(c.names, k) > 0
    ensures Ready(UseSlot(c, slot, k), origin, slot - 1) && PartOf(ExpandCode(UseSlot(c, slot, k).table, slot), origin)
  {
    var left, right, d := KeyLeft(k), KeyRight(k), UseSlot(c, slot, k);
    UseSlotRepresents(c, origin, slot, k);
    BestPairOccurs(c.names, k);
    var i, j :| 0 <= i < |c.names| && PairAt(c.names[i], left, right, j);
    assert Covered(c.table, c.names[i]);
    FillKeepsCode(c.table, slot, left, right, left);
    FillKeepsCode(c.table, slot, left, right, right);
    PairWithin(c.table, c.names[i], left, right, j);
    assert Within(ExpandCode(d.table, slot), origin[i], |Expand(c.table, c.names[i][..j])|);
  }

  lemma UseSlotParts(c: Coding, origin: seq<seq<Code>>, slot: Code, k: PairKey)
    requires Ready(c, origin, slot) && c.table[slot].Unused? && Profit(c.names, k) > 0
    requires TokensAreParts(c.table, origin)
    ensures Ready(UseSlot(c, slot, k), origin, slot - 1) && TokensAreParts(UseSlot(c, slot, k).table, origin)
  {
    var left, right, d := KeyLeft(k), KeyRight(k), UseSlot(c, slot, k);
    UseSlotPart(c, origin, slot, k);
    forall code: Code | code != slot && !d.table[code].Unused?
      ensures PartOf(ExpandCode(d.table, code), origin)
    {
      FillKeepsCode(c.table, slot, left, right, code);
    }
  }

  lemma {:induction false} OptimizeParts(c: Coding, origin: seq<seq<Code>>, i: int)
    requires i < 256 && Ready(c, origin, i) && TokensAreParts(c.table, origin)
    ensures Ready(Optimize(c, i), origin, -1) && TokensAreParts(Optimize(c, i).table, origin)
    decreases i + 1
  {
    OptimizeRepresents(c, origin, i);
    if 0 <= i {
      if !c.table[i].Unused? {
        assert FreeThrough(c.table, i - 1);
        OptimizeParts(c, origin, i - 1);
      } else {
        var best := Best(c.names);
        if Profit(c.names, best) > 0 {
          UseSlotParts(c, origin, i, best);
          OptimizeParts(UseSlot(c, i, best), origin, i - 1);
        }
      }
    }
  }

  lemma LiteralsAreParts(t: TokenTable, names: seq<seq<Code>>)
    requires RealSymbols(t, names) && Layered(t)
    ensures TokensAreParts(t, names)
  {
    forall c: Code | !t[c].Unused?
      ensures PartOf(ExpandCode(t, c), names)
    {
      assert Occurs(names, c);
      var i :| 0 <= i < |names| && c in names[i];
      var at :| 0 <= at < |names[i]| && names[i][at] == c;
      assert Within([c], names[i], at);
    }
  }

  /** Every token that the compressor makes stands for a part of one of the names. */
  lemma CompressedParts(names: seq<seq<Code>>)
    requires !Occurs(names, 0)
    ensures TokensAreParts(Compressed(names).table, names)
  {
    var t := LiteralTable(names);
    RealSymbolsRepresent(t, names);
    LiteralsAreParts(t, names);
    OptimizeParts(Coding(t, names), names, 255);
  }

  // ---------- short names fit ----------

  /** A list of names under 64 codes always fits, whatever the compressor makes of it. */
  lemma ShortNamesFit(names: seq<seq<Code>>)
    requires !Occurs(names, 0) && AllShort(names)
    ensures Fits(Compressed(names))
  {
    var c := Compressed(names);
    CompressedParts(names);
    forall code: Code
      ensures |ExpandCode(c.table, code)| < KSYM_NAME_LEN
    {
      if !c.table[code].Unused? {
        var i: nat, at: nat :| i < |names| && Within(ExpandCode(c.table, code), names[i], at);
      }
    }
  }

  // ---------- long names do not, where there are slots enough ----------

  function Total(names: seq<seq<Code>>): nat {
    if names == [] then 0 else Total(names[..|names| - 1]) + |names[|names| - 1]|
  }

  /** The unused slots below `n`. */
  function FreeSlots(t: TokenTable, n: nat): nat
    requires n <= 256
  {
    if n == 0 then 0 else FreeSlots(t, n - 1) + if t[n - 1].Unused? then 1 else 0
  }

  lemma {:induction false} FreeSlotsSame(t: TokenTable, u: TokenTable, n: nat)
    requires n <= 256 && forall c: Code :: c < n ==> t[c] == u[c]
    ensures FreeSlots(t, n) == FreeSlots(u, n)
  {
    if n > 0 {
      FreeSlotsSame(t, u, n - 1);
    }
  }

  lemma {:induction false} TotalShrinks(names: seq<seq<Code>>, left: Code, right: Code, code: Code)
    ensures Total(ReplaceAll(names, left, right, code)) <= Total(names)
    ensures TotalCount(names, left, right) > 0 ==> Total(ReplaceAll(names, left, right, code)) < Total(names)
  {
    if names != [] {
      var n := |names| - 1;
      TotalShrinks(names[..n], left, right, code);
      var r := ReplaceAll(names, left, right, code);
      assert r[..n] == ReplaceAll(names[..n], left, right, code);
      if PairCount(names[n], left, right) > 0 {
        ReplaceShortens(names[n], left, right, code);
      }
    }
  }

  lemma {:induction false} ReplaceShortens(s: seq<Code>, left: Code, right: Code, code: Code)
    requires PairCount(s, left, right) > 0
    ensures |Replace(s, left, right, code)| < |s|
  {
    PairCountPositive(s, left, right);
    var j :| PairAt(s, left, right, j);
    Shortens(s, left, right, code, j);
  }

  lemma {:induction false} Shortens(s: seq<Code>, left: Code, right: Code, code: Code, j: nat)
    requires PairAt(s, left, right, j)
    ensures |Replace(s, left, right, code)| < |s|
  {
    if !(s[0] == left && s[1] == right) {
      assert PairAt(s[1..], left, right, j - 1);
      Shortens(s[1..], left, right, code, j - 1);
    }
  }

  lemma {:induction false} EmptyTotal(names: seq<seq<Code>>)
    requires Total(names) == 0
    ensures Incompressible(names)
  {
    if names != [] {
      EmptyTotal(names[..|names| - 1]);
      forall j | 0 <= j < |names|
        ensures |names[j]| <= 1
      {
        if j < |names| - 1 {
          assert names[j] == names[..|names| - 1][j];
        }
      }
    }
  }

  /** With a free slot for every code of the names, compression goes on until each name is one code. */
  lemma {:induction false} OptimizeFully(c: Coding, i: int)
    requires -1 <= i < 256 && Total(c.names) <= FreeSlots(c.table, i + 1)
    ensures Incompressible(Optimize(c, i).names)
    decreases i + 1
  {
    if i < 0 {
      EmptyTotal(c.names);
    } else if !c.table[i].Unused? {
      OptimizeFully(c, i - 1);
    } else {
      var best := Best(c.names);
      if Profit(c.names, best) == 0 {
        NoProfitNoPair(c.names);
      } else {
        var d := UseSlot(c, i, best);
        TotalShrinks(c.names, KeyLeft(best), KeyRight(best), i);
        FreeSlotsSame(c.table, d.table, i);
        OptimizeFully(d, i - 1);
      }
    }
  }

  /**
    For a list with no more codes than there are unused slots: the tables fit exactly when every name is under
    64 codes. Otherwise some token is as long as a whole name and overruns the buffer it is expanded in.
   */
  lemma FitsIff(names: seq<seq<Code>>)
    requires !Occurs(names, 0) && Total(names) <= FreeSlots(LiteralTable(names), 256)
    ensures Fits(Compressed(names)) <==> AllShort(names)
  {
    if AllShort(names) {
      ShortNamesFit(names);
    } else {
      var c := Compressed(names);
      OptimizeFully(Coding(LiteralTable(names), names), 255);
      var i :| 0 <= i < |names| && |names[i]| >= KSYM_NAME_LEN;
      assert Expand(c.table, c.names[i]) == names[i] && |c.names[i]| <= 1;
      assert c.names[i] != [];
      assert c.names[i] == [c.names[i][0]];
      ExpandOne(c.table, c.names[i][0]);
      assert |ExpandCode(c.table, c.names[i][0])| >= KSYM_NAME_LEN;
    }
  }

  lemma {:induction false} ManyFree(t: TokenTable, used: Code, n: nat)
    requires n <= 256 && forall c: Code :: c != used ==> t[c].Unused?
    ensures FreeSlots(t, n) >= n - 1 && (n <= used ==> FreeSlots(t, n) == n)
  {
    if n > 0 {
      ManyFree(t, used, n - 1);
    }
  }

  /** One symbol whose name repeats a character, 64 codes in all with the type: its token does not fit. */
  lemma LongNameOverruns(names: seq<seq<Code>>)
    requires names == [seq(64, _ => 116)]
    ensures !Occurs(names, 0) && !Fits(Compressed(names))
  {
    assert forall c: Code :: Occurs(names, c) ==> c == 116;
    ManyFree(LiteralTable(names), 116, 256);
    assert names[..0] == [];
    assert Total(names) == 64;
    FitsIff(names);
  }
}
