/**
  The table compressor of the kallsyms build tool: symbol buffers rewritten in place,
  pair counts kept up to date incrementally, and the token table filled from slot 255 down.
 */
module KallsymsCompressor {
  import opened PairCoding
  import opened TokenChoice

  /** `memmove` inside one buffer: the regions may overlap. */
  method MemMove(a: array<Code>, dst: nat, src: nat, n: nat)
    requires dst + n <= a.Length && src + n <= a.Length
    modifies a
    ensures a[..] == old(a[..dst]) + old(a[src..src + n]) + old(a[dst + n..])
  {
    forall k | dst <= k < dst + n {
      a[k] := a[src + (k - dst)];
    }
  }

  /** First position in `sym[from..from + len]` where the pair starts, or -1. */
  method FindToken(sym: array<Code>, from: nat, len: nat, left: Code, right: Code) returns (pos: int)
    requires from + len <= sym.Length
    ensures pos == -1 || from <= pos < from + len - 1
    ensures NextAt(sym[..], from, from + len, left, right, pos)
  {
    ghost var window := sym[..][from..from + len];
    var i := 0;
    while i < len - 1
      invariant 0 <= i && (i <= len - 1 || i == 0)
      invariant forall k :: 0 <= k < i ==> !PairAt(window, left, right, k)
    {
      if sym[from + i] == left && sym[from + i + 1] == right {
        return from + i;
      }
      i := i + 1;
    }
    pos := -1;
  }

  /** A buffer whose first `live` codes are in use and whose bytes from there through `len` are NUL. */
  ghost predicate LiveUpTo(buf: seq<Code>, live: int, len: int) {
    0 <= live <= len < |buf| && forall k :: live <= k <= len ==> buf[k] == 0
  }

  /** The name the loop is heading for: codes before `p1` are final, the rest is still to be replaced. */
  ghost function Target(buf: seq<Code>, p1: nat, live: nat, left: Code, right: Code, code: Code): seq<Code>
    requires p1 <= live <= |buf|
  {
    buf[..p1] + Replace(buf[p1..live], left, right, code)
  }

  /** `p2` is the next place to write the code, or -1 if the live codes hold the pair no more. */
  ghost predicate NextAt(buf: seq<Code>, p1: nat, live: nat, left: Code, right: Code, p2: int)
    requires p1 <= live <= |buf|
  {
    if p2 == -1 then NoPair(buf[p1..live], left, right)
    else p1 <= p2 && FirstPair(buf[p1..live], left, right, p2 - p1)
  }

  /** The buffer after the code is written at `p2` and everything up to the old end moved down by one. */
  function CloseGap(buf: seq<Code>, p2: nat, len: nat, code: Code): (r: seq<Code>)
    requires p2 + 1 < len < |buf|
    ensures |r| == |buf|
    ensures r[len + 1..] == buf[len + 1..]
  {
    buf[..p2] + [code] + buf[p2 + 2..len + 1] + buf[len..]
  }

  lemma CloseGapAt(buf: seq<Code>, p2: nat, len: nat, code: Code)
    requires p2 + 1 < len < |buf|
    ensures forall k :: 0 <= k < |buf| ==>
              CloseGap(buf, p2, len, code)[k]
              == if k == p2 then code else if p2 < k < len then buf[k + 1] else buf[k]
  {
    var r := CloseGap(buf, p2, len, code);
    forall k | 0 <= k < |buf|
      ensures r[k] == if k == p2 then code else if p2 < k < len then buf[k + 1] else buf[k]
    {
    }
  }

  lemma CloseGapKeepsDead(buf: seq<Code>, p2: nat, live: nat, len: nat, code: Code)
    requires LiveUpTo(buf, live, len) && p2 + 1 < live
    ensures LiveUpTo(CloseGap(buf, p2, len, code), live - 1, len)
  {
    CloseGapAt(buf, p2, len, code);
  }

  lemma CloseGapKeepsTarget(buf: seq<Code>, p1: nat, p2: nat, live: nat, len: nat, left: Code, right: Code, code: Code)
    requires p1 <= live <= len < |buf| && p2 + 1 < live
    requires NextAt(buf, p1, live, left, right, p2)
    ensures Target(CloseGap(buf, p2, len, code), p2 + 1, live - 1, left, right, code)
         == Target(buf, p1, live, left, right, code)
  {
    var r, s, i := CloseGap(buf, p2, len, code), buf[p1..live], p2 - p1;
    assert r[..p2 + 1] == buf[..p1] + (s[..i] + [code]) by { CloseGapAt(buf, p2, len, code); }
    assert r[p2 + 1..live - 1] == s[i + 2..] by { CloseGapAt(buf, p2, len, code); }
    ReplaceFirst(s, left, right, code, i);
    Assoc(buf[..p1], s[..i] + [code], Replace(s[i + 2..], left, right, code));
  }

  lemma Assoc(a: seq<Code>, b: seq<Code>, c: seq<Code>)
    ensures (a + b) + c == a + (b + c)
  {
  }

  lemma CloseGapTurn(buf: seq<Code>, p1: nat, p2: nat, live: nat, len: nat, left: Code, right: Code, code: Code)
    requires LiveUpTo(buf, live, len) && p1 <= live
    requires NextAt(buf, p1, live, left, right, p2)
    ensures p2 + 1 < live && LiveUpTo(CloseGap(buf, p2, len, code), live - 1, len)
    ensures Target(CloseGap(buf, p2, len, code), p2 + 1, live - 1, left, right, code)
         == Target(buf, p1, live, left, right, code)
  {
    CloseGapKeepsDead(buf, p2, live, len, code);
    CloseGapKeepsTarget(buf, p1, p2, live, len, left, right, code);
  }

  /** Pairs of non-NUL codes lie among the live codes of a buffer. */
  lemma SearchSkipsDead(buf: seq<Code>, p1: nat, live: nat, len: nat, left: Code, right: Code, p2: int)
    requires left != 0 && right != 0
    requires p1 <= live && LiveUpTo(buf, live, len)
    requires NextAt(buf, p1, len, left, right, p2)
    ensures NextAt(buf, p1, live, left, right, p2)
  {
    assert forall k :: PairAt(buf[p1..len], left, right, k) <==> PairAt(buf[p1..live], left, right, k);
  }

  lemma TwoParts(buf: seq<Code>, p1: nat, live: nat)
    requires p1 <= live <= |buf|
    ensures buf[..p1] + buf[p1..live] == buf[..live]
  {
  }

  /** One turn of the loop: write the code over the pair and close the gap. */
  method ReplaceOne(sym: array<Code>, p2: nat, size: nat, code: Code)
    requires p2 + 2 + size <= sym.Length && size > 0
    modifies sym
    ensures sym[..] == CloseGap(old(sym[..]), p2, p2 + 1 + size, code)
  {
    sym[p2] := code;
    MemMove(sym, p2 + 1, p2 + 2, size);
    CloseGapAt(old(sym[..]), p2, p2 + 1 + size, code);
  }

  /** What holds at the head of the `memmove` loop. */
  ghost predicate Replacing(buf: seq<Code>, p1: int, p2: int, live: int, len: int,
                            left: Code, right: Code, code: Code, goal: seq<Code>)
  {
    && LiveUpTo(buf, live, len) && 0 <= p1 <= live
    && Target(buf, p1, live, left, right, code) == goal
    && NextAt(buf, p1, live, left, right, p2)
  }

  lemma ReplacingStart(buf: seq<Code>, len: nat, first: nat, left: Code, right: Code, code: Code)
    requires LiveUpTo(buf, len, len) && NextAt(buf, 0, len, left, right, first)
    ensures Replacing(buf, 0, first, len, len, left, right, code, Replace(buf[..len], left, right, code))
  {
    assert buf[0..len] == buf[..len];
  }

  lemma ReplacingEnd(buf: seq<Code>, p1: nat, live: nat, len: nat, left: Code, right: Code, code: Code, goal: seq<Code>)
    requires Replacing(buf, p1, -1, live, len, left, right, code, goal)
    ensures LiveUpTo(buf, live, len) && buf[..live] == goal
  {
    ReplaceNothing(buf[p1..live], left, right, code);
    TwoParts(buf, p1, live);
  }

  lemma RoomForTurn(buf: seq<Code>, p1: nat, p2: nat, live: nat, len: nat,
                    left: Code, right: Code, code: Code, goal: seq<Code>)
    requires Replacing(buf, p1, p2, live, len, left, right, code, goal)
    ensures p1 <= p2 && p2 + 1 < live <= len < |buf|
  {
  }

  /** The turn at `p2`, followed by a search through the old end, leads back to the head of the loop. */
  lemma ReplacingTurn(buf: seq<Code>, p1: nat, p2: nat, live: nat, len: nat,
                      left: Code, right: Code, code: Code, goal: seq<Code>, next: int)
    requires left != 0 && right != 0 && p2 + 1 < live <= len < |buf|
    requires Replacing(buf, p1, p2, live, len, left, right, code, goal)
    requires NextAt(CloseGap(buf, p2, len, code), p2 + 1, len, left, right, next)
    ensures Replacing(CloseGap(buf, p2, len, code), p2 + 1, next, live - 1, len, left, right, code, goal)
  {
    CloseGapTurn(buf, p1, p2, live, len, left, right, code);
    SearchSkipsDead(CloseGap(buf, p2, len, code), p2 + 1, live - 1, len, left, right, next);
  }

  /** One turn and the search behind it; the search is skipped when fewer than two codes are left. */
  method ReplaceTurn(sym: array<Code>, p2: nat, size: nat, left: Code, right: Code, code: Code) returns (next: int)
    requires size > 0 && p2 + 1 + size < sym.Length
    modifies sym
    ensures sym[..] == CloseGap(old(sym[..]), p2, p2 + 1 + size, code)
    ensures NextAt(sym[..], p2 + 1, p2 + 1 + size, left, right, next)
  {
    ReplaceOne(sym, p2, size, code);
    if size < 2 {
      return -1;
    }
    next := FindToken(sym, p2 + 1, size, left, right);
  }

  method Advance(sym: array<Code>, p1: nat, p2: nat, size: nat, left: Code, right: Code, code: Code,
                 ghost buf: seq<Code>, ghost live: nat, ghost goal: seq<Code>)
    returns (next: int, rest: nat, ghost after: seq<Code>)
    requires left != 0 && right != 0 && sym[..] == buf
    requires Replacing(buf, p1, p2, live, p1 + size, left, right, code, goal)
    modifies sym
    ensures live > 0 && p2 + 1 + rest == p1 + size && sym[..] == after
    ensures Replacing(after, p2 + 1, next, live - 1, p1 + size, left, right, code, goal)
  {
    RoomForTurn(buf, p1, p2, live, p1 + size, left, right, code, goal);
    rest := size - (p2 + 1 - p1);
    next := ReplaceTurn(sym, p2, rest, left, right, code);
    after := CloseGap(buf, p2, p1 + size, code);
    ReplacingTurn(buf, p1, p2, live, p1 + size, left, right, code, goal, next);
  }

  /**
    The `memmove` loop. `size` counts from `p1` to the end of the original name, so it
    covers one more dead byte after each replacement; the dead bytes are NUL, and a pair
    never holds NUL, so the search never matches among them.
   */
  method ReplaceInPlace(sym: array<Code>, len: nat, left: Code, right: Code, code: Code, first: nat)
    returns (newLen: nat)
    requires LiveUpTo(sym[..], len, len)
    requires left != 0 && right != 0
    requires NextAt(sym[..], 0, len, left, right, first)
    modifies sym
    ensures LiveUpTo(sym[..], newLen, len)
    ensures sym[..][..newLen] == Replace(old(sym[..])[..len], left, right, code)
  {
    newLen := len;
    var p1, p2, size := 0, first as int, len;
    ghost var buf := sym[..];
    ghost var goal := Replace(buf[..len], left, right, code);
    ReplacingStart(buf, len, first, left, right, code);
    while p2 != -1
      invariant sym[..] == buf && p1 + size == len
      invariant Replacing(buf, p1, p2, newLen, len, left, right, code, goal)
      decreases newLen, p2
    {
      var next;
      next, size, buf := Advance(sym, p1, p2, size, left, right, code, buf, newLen, goal);
      p1, p2, newLen := p2 + 1, next, newLen - 1;
    }
    ReplacingEnd(buf, p1, newLen, len, left, right, code, goal);
  }

  /** One entry of the symbol table: `sym[0]` is the type character, `sym[..len]` the (coded) name. */
  class SymEntry {
    const addr: nat
    const sym: array<Code>
    var len: nat

    ghost predicate Holds(name: seq<Code>)
      reads this, sym
    {
      LiveUpTo(sym[..], len, len) && sym[..][..len] == name
    }

    /** `read_symbol`: a buffer of the name's length plus one for the NUL. */
    constructor (addr: nat, name: seq<Code>)
      ensures Holds(name) && this.addr == addr && fresh(sym)
    {
      this.addr := addr;
      len := |name|;
      sym := new Code[|name| + 1](i => if 0 <= i < |name| then name[i] else 0);
    }
  }

  ghost function EntryObjects(entries: seq<SymEntry>): (objs: set<object>)
    ensures forall i :: 0 <= i < |entries| ==> entries[i] in objs && entries[i].sym in objs
  {
    (set i | 0 <= i < |entries| :: entries[i] as object) + (set i | 0 <= i < |entries| :: entries[i].sym as object)
  }

  ghost predicate DistinctEntries(entries: seq<SymEntry>, names: seq<seq<Code>>)
    reads entries, set e: SymEntry | e in entries :: e.sym
  {
    && |names| == |entries|
    && (forall i, j :: 0 <= i < j < |entries| ==> entries[i] != entries[j] && entries[i].sym != entries[j].sym)
    && (forall i :: 0 <= i < |entries| ==> entries[i].Holds(names[i]))
  }

  class Compressor {
    const table: seq<SymEntry>
    const tokenProfit: array<int>
    const bestTable: array2<Code>
    const bestTableLen: array<Code>
    /** All the buffers. */
    ghost const repr: set<object>
    /** What the table entries currently hold. */
    ghost var names: seq<seq<Code>>

    /** Sizes of the tables, and every buffer is a separate object. */
    ghost predicate Shape()
      reads this
    {
      && tokenProfit.Length == 0x10000
      && bestTable.Length0 == 256 && bestTable.Length1 == 2
      && bestTableLen.Length == 256
      && |names| == |table|
      && (forall i, j :: 0 <= i < j < |table| ==> table[i] != table[j] && table[i].sym != table[j].sym)
      && (forall i :: 0 <= i < |table| ==>
            table[i].sym != bestTableLen && table[i].sym as object != tokenProfit && table[i].sym as object != bestTable)
      && bestTableLen as object != tokenProfit && bestTableLen as object != bestTable
      && tokenProfit as object != bestTable
      && {tokenProfit, bestTable, bestTableLen} <= repr && this !in repr
      && (forall i :: 0 <= i < |table| ==> table[i] in repr && table[i].sym in repr)
    }

    /** Fresh tables; `tokenProfit` is a zero-initialised global. */
    constructor (entries: seq<SymEntry>, ghost names: seq<seq<Code>>)
      requires DistinctEntries(entries, names)
      ensures Shape() && table == entries && this.names == names
      ensures forall k :: 0 <= k < 0x10000 ==> tokenProfit[k] == 0
      ensures fresh(repr - EntryObjects(entries))
    {
      var profit := new int[0x10000](_ => 0);
      var pairs := new Code[256, 2]((_, _) => 0);
      var lens := new Code[256](_ => 0);
      table, tokenProfit, bestTable, bestTableLen := entries, profit, pairs, lens;
      repr := {profit, pairs, lens} + EntryObjects(entries);
      this.names := names;
    }

    ghost predicate EntriesHold()
      reads this, repr
    {
      Shape() && |names| == |table| && forall i :: 0 <= i < |table| ==> table[i].Holds(names[i])
    }

    /** Every profit is the number of adjacent occurrences of its pair. */
    ghost predicate CountsExact()
      requires tokenProfit.Length == 0x10000
      reads this, tokenProfit
    {
      forall left: Code, right: Code {:trigger Key(left, right)} ::
        tokenProfit[Key(left, right)] == TotalCount(names, left, right)
    }

    function SlotAt(c: Code): Slot
      requires bestTable.Length0 == 256 && bestTable.Length1 == 2 && bestTableLen.Length == 256
      reads this, bestTable, bestTableLen
    {
      if bestTableLen[c] == 0 then Unused
      else if bestTableLen[c] == 1 then Literal
      else Token(bestTable[c, 0], bestTable[c, 1])
    }

    ghost predicate TableHolds(t: TokenTable)
      requires bestTable.Length0 == 256 && bestTable.Length1 == 2 && bestTableLen.Length == 256
      reads this, bestTable, bestTableLen
    {
      forall c: Code :: SlotAt(c) == t[c] && bestTableLen[c] <= 2 && (t[c].Literal? ==> bestTable[c, 0] == c)
    }

    method LearnSymbol(symbol: array<Code>, len: nat)
      requires Shape() && len <= symbol.Length && symbol as object != tokenProfit
      modifies tokenProfit
      ensures forall left: Code, right: Code ::
                tokenProfit[Key(left, right)] == old(tokenProfit[Key(left, right)]) + PairCount(symbol[..][..len], left, right)
      ensures forall left: Code, right: Code ::
                tokenProfit[Key(left, right)] == old(tokenProfit[Key(left, right)]) + |Places(symbol[..][..len], left, right)|
    {
      if len == 0 {
        CountsAre([]);
        return;
      }
      var i := 0;
      ghost var name := symbol[..][..len];
      assert forall left: Code, right: Code :: PairCount(name[..1], left, right) == 0;
      while i < len - 1
        invariant 0 <= i <= len - 1
        invariant forall left: Code, right: Code ::
                    tokenProfit[Key(left, right)] == old(tokenProfit[Key(left, right)]) + PairCount(name[..i + 1], left, right)
      {
        var key := Key(symbol[i], symbol[i + 1]);
        tokenProfit[key] := tokenProfit[key] + 1;
        PairCountNext(name, i);
        i := i + 1;
      }
      assert name[..i + 1] == name;
      CountsAre(name);
    }

    method ForgetSymbol(symbol: array<Code>, len: nat)
      requires Shape() && len <= symbol.Length && symbol as object != tokenProfit
      modifies tokenProfit
      ensures forall left: Code, right: Code ::
                tokenProfit[Key(left, right)] == old(tokenProfit[Key(left, right)]) - PairCount(symbol[..][..len], left, right)
      ensures forall left: Code, right: Code ::
                tokenProfit[Key(left, right)] == old(tokenProfit[Key(left, right)]) - |Places(symbol[..][..len], left, right)|
    {
      if len == 0 {
        CountsAre([]);
        return;
      }
      var i := 0;
      ghost var name := symbol[..][..len];
      assert forall left: Code, right: Code :: PairCount(name[..1], left, right) == 0;
      while i < len - 1
        invariant 0 <= i <= len - 1
        invariant forall left: Code, right: Code ::
                    tokenProfit[Key(left, right)] == old(tokenProfit[Key(left, right)]) - PairCount(name[..i + 1], left, right)
      {
        var key := Key(symbol[i], symbol[i + 1]);
        tokenProfit[key] := tokenProfit[key] - 1;
        PairCountNext(name, i);
        i := i + 1;
      }
      assert name[..i + 1] == name;
      CountsAre(name);
    }

    /** `compress_symbols`, for the entry at `i`. */
    method CompressEntry(i: nat, left: Code, right: Code, code: Code)
      requires Shape() && EntriesHold() && CountsExact()
      requires i < |table| && left != 0 && right != 0
      modifies this`names, table[i], table[i].sym, tokenProfit
      ensures Shape() && EntriesHold() && CountsExact()
      ensures names == old(names)[i := Replace(old(names)[i], left, right, code)]
    {
      var e := table[i];
      ghost var before := names[i];
      var first := FindToken(e.sym, 0, e.len, left, right);
      assert e.sym[..][0..e.len] == before;
      if first == -1 {
        ReplaceNothing(before, left, right, code);
        return;
      }
      ForgetSymbol(e.sym, e.len);
      e.len := ReplaceInPlace(e.sym, e.len, left, right, code, first);
      ghost var after := e.sym[..][..e.len];
      LearnSymbol(e.sym, e.len);
      names := names[i := after];
      forall l: Code, r: Code ensures tokenProfit[Key(l, r)] == TotalCount(names, l, r) {
        TotalCountUpdate(old(names), i, after, l, r);
      }
    }

    /** `compress_symbols`: replace a pair in every symbol, keeping the counts exact. */
    method CompressSymbols(left: Code, right: Code, code: Code)
      requires Shape() && EntriesHold() && CountsExact() && left != 0 && right != 0
      modifies this`names, table, set e: SymEntry | e in table :: e.sym, tokenProfit
      ensures Shape() && EntriesHold() && CountsExact()
      ensures names == ReplaceAll(old(names), left, right, code)
    {
      for i := 0 to |table|
        invariant Shape() && EntriesHold() && CountsExact()
        invariant forall j :: 0 <= j < i ==> names[j] == Replace(old(names)[j], left, right, code)
        invariant forall j :: i <= j < |names| ==> names[j] == old(names)[j]
      {
        CompressEntry(i, left, right, code);
      }
    }

    /** `find_best_token`: the first pair with the greatest count. */
    method FindBestToken() returns (best: PairKey)
      requires Shape() && CountsExact()
      ensures best == Best(names) && tokenProfit[best] == Profit(names, best)
      ensures tokenProfit[best] == |Occurrences(names, best % 256, best / 256)|
      ensures forall left: Code, right: Code ::
                |Occurrences(names, left, right)| <= |Occurrences(names, best % 256, best / 256)|
      ensures forall left: Code, right: Code :: left + 256 * right < best ==>
                |Occurrences(names, left, right)| < |Occurrences(names, best % 256, best / 256)|
    {
      var bestProfit := -10000;
      best := 0;
      forall k: PairKey ensures tokenProfit[k] == Profit(names, k) {
        KeyParts(k);
      }
      for i := 0 to 0x10000
        invariant i == 0 ==> best == 0 && bestProfit < 0
        invariant i > 0 ==> best == BestBelow(names, i) && bestProfit == tokenProfit[best] == Profit(names, best)
      {
        if tokenProfit[i] > bestProfit {
          best := i;
          bestProfit := tokenProfit[i];
        }
      }
      BestIsMostFrequent(names);
    }

    /** `build_initial_tok_table`, for a table whose symbols are all valid. */
    method CountTokens()
      requires Shape() && EntriesHold() && forall k :: 0 <= k < 0x10000 ==> tokenProfit[k] == 0
      modifies tokenProfit
      ensures Shape() && EntriesHold() && CountsExact()
    {
      for i := 0 to |table|
        invariant Shape() && EntriesHold()
        invariant forall l: Code, r: Code :: tokenProfit[Key(l, r)] == TotalCount(names[..i], l, r)
      {
        LearnSymbol(table[i].sym, table[i].len);
        assert names[..i + 1][..i] == names[..i];
      }
      assert names[..|table|] == names;
    }

    method InsertCode(c: Code, ghost t: TokenTable)
      requires EntriesHold() && TableHolds(t)
      modifies bestTable, bestTableLen
      ensures EntriesHold() && TableHolds(t[c := Literal])
    {
      bestTable[c, 0] := c;
      bestTableLen[c] := 1;
    }

    /** The inner loop of `insert_real_symbols_in_table`. */
    method InsertEntry(i: nat, ghost t: TokenTable) returns (ghost u: TokenTable)
      requires Shape() && EntriesHold() && i < |table|
      requires TableHolds(t) && RealSymbols(t, names[..i])
      modifies bestTable, bestTableLen
      ensures Shape() && EntriesHold() && TableHolds(u) && RealSymbols(u, names[..i + 1])
    {
      u := t;
      ghost var name, seen := names[i], names[..i];
      RealSymbolsStart(u, seen);
      for j := 0 to table[i].len
        invariant EntriesHold() && TableHolds(u)
        invariant RealSymbols(u, seen + [name[..j]])
      {
        InsertCode(table[i].sym[j], u);
        RealSymbolsStep(u, seen, name, j);
        u := u[name[j] := Literal];
      }
      assert name[..|name|] == name;
      assert seen + [name] == names[..i + 1];
    }

    /** `insert_real_symbols_in_table`: the characters that occur stand for themselves. */
    method InsertRealSymbols() returns (ghost t: TokenTable)
      requires Shape() && EntriesHold()
      modifies bestTable, bestTableLen
      ensures Shape() && EntriesHold() && TableHolds(t) && RealSymbols(t, names)
    {
      forall c: Code {
        bestTableLen[c] := 0;
      }
      t := seq(256, _ => Unused);
      for i := 0 to |table|
        invariant EntriesHold() && TableHolds(t) && RealSymbols(t, names[..i])
      {
        t := InsertEntry(i, t);
      }
      assert names[..|table|] == names;
    }

    /** The object holds the coding `c`, with exact counts. */
    ghost predicate Holds(c: Coding)
      reads this, repr
    {
      Shape() && EntriesHold() && CountsExact() && TableHolds(c.table) && c.names == names
    }

    /** Put the pair in a free slot and use it in all symbols. */
    method FillSlot(slot: Code, best: PairKey, ghost c: Coding)
      requires Holds(c) && KeyLeft(best) != 0 && KeyRight(best) != 0
      modifies this`names, repr
      ensures Holds(UseSlot(c, slot, best))
    {
      bestTableLen[slot] := 2;
      bestTable[slot, 0] := best % 256;
      bestTable[slot, 1] := best / 256;
      assert TableHolds(UseSlot(c, slot, best).table);
      CompressSymbols(bestTable[slot, 0], bestTable[slot, 1], slot);
    }

    /** The body of the loop in `optimize_result`, for the slot `i`. */
    method OptimizeSlot(i: Code, ghost c: Coding, ghost origin: seq<seq<Code>>) returns (stop: bool, ghost d: Coding)
      requires Holds(c) && Ready(c, origin, i)
      modifies this`names, repr
      ensures Holds(d) && Ready(d, origin, i - 1)
      ensures Optimize(c, i) == if stop then d else Optimize(d, i - 1)
    {
      stop, d := false, c;
      if bestTableLen[i] == 0 {
        assert SlotAt(i) == Unused;
        var best := FindBestToken();
        if tokenProfit[best] == 0 {
          stop := true;
          return;
        }
        BestPairIsNotNul(c, origin, best);
        UseSlotRepresents(c, origin, i, best);
        FillSlot(i, best, c);
        d := UseSlot(c, i, best);
      }
    }

    /** `optimize_result`: fill the free slots from 255 down, stopping when no pair is left. */
    method OptimizeResult(ghost t: TokenTable) returns (ghost r: Coding)
      requires Holds(Coding(t, names)) && RealSymbols(t, names) && !Occurs(names, 0)
      modifies this`names, repr
      ensures Holds(r) && r == Optimize(Coding(t, old(names)), 255)
      ensures exists trace :: Greedy(trace, 255) && trace[0] == Coding(t, old(names)) && trace[|trace| - 1] == r
    {
      r := Coding(t, names);
      ghost var origin, goal := names, Optimize(r, 255);
      RealSymbolsRepresent(t, names);
      var i, stop := 255, false;
      while i >= 0 && !stop
        invariant -1 <= i <= 255
        invariant Holds(r) && Ready(r, origin, i)
        invariant goal == if stop then r else Optimize(r, i)
        decreases i, !stop
      {
        stop, r := OptimizeSlot(i, r, origin);
        i := i - 1;
      }
      ghost var trace := OptimizeGreedy(Coding(t, origin), origin, 255);
    }
  }

  lemma PairCountNext(name: seq<Code>, i: nat)
    requires i + 1 < |name|
    ensures forall left: Code, right: Code ::
              PairCount(name[..i + 2], left, right)
              == PairCount(name[..i + 1], left, right) + if Key(left, right) == Key(name[i], name[i + 1]) then 1 else 0
  {
    assert name[..i + 2][..i + 1] == name[..i + 1];
  }

  lemma CountsAre(name: seq<Code>)
    ensures forall left: Code, right: Code :: PairCount(name, left, right) == |Places(name, left, right)|
  {
    forall left: Code, right: Code
      ensures PairCount(name, left, right) == |Places(name, left, right)|
    {
      PairCountIs(name, left, right);
    }
  }

  /** Slot 0 is filled last, so until then no pair holds the NUL code. */
  lemma BestPairIsNotNul(c: Coding, origin: seq<seq<Code>>, k: PairKey)
    requires Represents(c, origin) && c.table[0].Unused? && Profit(c.names, k) > 0
    ensures KeyLeft(k) != 0 && KeyRight(k) != 0
  {
    BestPairOccurs(c.names, k);
    var i, j :| 0 <= i < |c.names| && PairAt(c.names[i], KeyLeft(k), KeyRight(k), j);
    assert Covered(c.table, c.names[i]);
  }
}
