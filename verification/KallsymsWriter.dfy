/**
  The output half of the kallsyms build tool: expansion of the tokens, the emitted
  tables, and the whole pass from a symbol list to the tables.
 */
module KallsymsWriter {
  import opened PairCoding
  import opened TokenChoice
  import opened KallsymsImage
  import opened KallsymsCompressor

  const KSYM_NAME_LEN: nat := 64

  /** `text` was written at `at`, leaving what is before it. */
  ghost predicate Appended(before: seq<Code>, after: seq<Code>, at: nat, text: seq<Code>) {
    |after| == |before| && at + |text| <= |after| && after[..at + |text|] == before[..at] + text
  }

  lemma AppendedTwice(b0: seq<Code>, b1: seq<Code>, b2: seq<Code>, at: nat, mid: nat, s: seq<Code>, u: seq<Code>)
    requires mid == at + |s| && Appended(b0, b1, at, s) && Appended(b1, b2, mid, u)
    ensures Appended(b0, b2, at, s + u)
  {
  }

  /** `expand_symbol`: the table may refer to itself, so expansion recurses. */
  method ExpandSymbol(c: Compressor, ghost t: TokenTable, data: seq<Code>, result: array<Code>, at: nat, ghost rank: nat)
    returns (total: nat)
    requires c.Shape() && c.TableHolds(t) && Layered(t) && result !in c.repr
    requires at + |Expand(t, data)| < result.Length
    requires forall k :: 0 <= k < |data| ==> Rank(t, data[k]) < rank
    modifies result
    ensures total == |Expand(t, data)| && Appended(old(result[..]), result[..], at, Expand(t, data))
    ensures result[at + total] == 0
    decreases rank, 0
  {
    total := 0;
    ghost var start := result[..];
    for i := 0 to |data|
      invariant total == |Expand(t, data[..i])| && at + total < result.Length
      invariant Appended(start, result[..], at, Expand(t, data[..i]))
    {
      ExpandSplit(t, data, i);
      ghost var before := result[..];
      var mid := at + total;
      var more := ExpandInto(c, t, data[i], result, mid);
      AppendedTwice(start, before, result[..], at, mid, Expand(t, data[..i]), ExpandCode(t, data[i]));
      total := total + more;
    }
    assert data[..|data|] == data;
    result[at + total] := 0;
  }

  /** The body of its loop: write what one code stands for. */
  method ExpandInto(c: Compressor, ghost t: TokenTable, code: Code, result: array<Code>, at: nat) returns (rlen: nat)
    requires c.Shape() && c.TableHolds(t) && Layered(t) && result !in c.repr
    requires at + |ExpandCode(t, code)| < result.Length
    modifies result
    ensures rlen == |ExpandCode(t, code)| && Appended(old(result[..]), result[..], at, ExpandCode(t, code))
    decreases Rank(t, code), 1
  {
    RowHolds(c, t, code);
    if c.bestTable[code, 0] == code && c.bestTableLen[code] == 1 {
      result[at] := code;
      rlen := 1;
    } else {
      ExpandSlot(t, code);
      rlen := ExpandSymbol(c, t, RowAt(c, code), result, at, Rank(t, code));
    }
  }

  lemma ExpandSplit(t: TokenTable, data: seq<Code>, i: nat)
    requires Layered(t) && i < |data|
    ensures Expand(t, data[..i + 1]) == Expand(t, data[..i]) + ExpandCode(t, data[i])
    ensures |Expand(t, data[..i + 1])| <= |Expand(t, data)|
  {
    assert data[..i + 1] == data[..i] + [data[i]];
    ExpandConcat(t, data[..i], [data[i]]);
    ExpandOne(t, data[i]);
    assert data == data[..i + 1] + data[i + 1..];
    ExpandConcat(t, data[..i + 1], data[i + 1..]);
  }

  /** What the table row of a code holds, and that its parts rank below the code. */
  function Row(t: TokenTable, code: Code): seq<Code> {
    match t[code]
    case Unused => []
    case Literal => [code]
    case Token(left, right) => [left, right]
  }

  /** The used part of a table row. */
  function RowAt(c: Compressor, code: Code): seq<Code>
    requires c.Shape()
    reads c, c.repr
  {
    if c.bestTableLen[code] == 0 then []
    else if c.bestTableLen[code] == 1 then [c.bestTable[code, 0]]
    else [c.bestTable[code, 0], c.bestTable[code, 1]]
  }

  lemma RowHolds(c: Compressor, t: TokenTable, code: Code)
    requires c.Shape() && c.TableHolds(t)
    ensures RowAt(c, code) == Row(t, code)
    ensures t[code].Literal? <==> c.bestTable[code, 0] == code && c.bestTableLen[code] == 1
  {
    assert c.SlotAt(code) == t[code];
  }

  lemma ExpandSlot(t: TokenTable, code: Code)
    requires Layered(t)
    ensures Expand(t, Row(t, code)) == ExpandCode(t, code)
    ensures !t[code].Literal? ==> forall k :: 0 <= k < |Row(t, code)| ==> Rank(t, Row(t, code)[k]) < Rank(t, code)
  {
    match t[code]
    case Unused =>
    case Literal => ExpandOne(t, code);
    case Token(left, right) =>
      assert MayContain(t, code, left) && MayContain(t, code, right);
      ExpandTwo(t, left, right);
  }

  /** The names and the markers that give the offset of every 256th symbol. */
  method WriteNames(c: Compressor) returns (stream: seq<Code>, markers: seq<nat>)
    requires c.Shape() && c.EntriesHold() && ShortNames(c.names)
    ensures stream == Stream(c.names)
    ensures |markers| == (|c.names| + 255) / 256
    ensures forall j :: 0 <= j < |markers| ==> markers[j] == |Stream(c.names[..256 * j])|
  {
    stream, markers := [], [];
    var off := 0;
    for i := 0 to |c.table|
      invariant stream == Stream(c.names[..i]) && off == |stream|
      invariant |markers| == (i + 255) / 256
      invariant forall j :: 0 <= j < |markers| ==> markers[j] == |Stream(c.names[..256 * j])|
    {
      if i % 256 == 0 {
        markers := markers + [off];
      }
      var e := c.table[i];
      assert c.names[..i + 1][..i] == c.names[..i];
      stream := stream + [e.len] + e.sym[..][..e.len];
      off := off + e.len + 1;
    }
    assert c.names[..|c.table|] == c.names;
  }

  /** Expand the row of a code into the buffer and print it. */
  method TokenText(c: Compressor, ghost t: TokenTable, code: Code, buf: array<Code>) returns (text: seq<Code>)
    requires c.Shape() && c.TableHolds(t) && Layered(t) && !t[0].Literal? && buf !in c.repr
    requires TokensFit(t) && buf.Length == KSYM_NAME_LEN
    modifies buf
    ensures text == ExpandCode(t, code)
  {
    var row := RowAt(c, code);
    RowHolds(c, t, code);
    ExpandSlot(t, code);
    ghost var before := buf[..];
    assert |ExpandCode(t, code)| < KSYM_NAME_LEN;
    var total := ExpandSymbol(c, t, row, buf, 0, 257);
    ExpandedString(t, code, before, buf[..]);
    text := CString(buf[..], 0);
  }

  /** The token strings and the offset of each. */
  method WriteTokens(c: Compressor, ghost t: TokenTable) returns (strings: seq<Code>, index: seq<nat>)
    requires c.Shape() && c.TableHolds(t) && Layered(t) && !t[0].Literal?
    requires TokensFit(t)
    ensures strings == Strings(t, 256) && Indexes(t, index, 256)
  {
    var buf := new Code[KSYM_NAME_LEN];
    strings, index := [], [];
    var off := 0;
    for i := 0 to 256
      invariant strings == Strings(t, i) && off == |strings| && Indexes(t, index, i)
    {
      index := index + [off];
      var text := TokenText(c, t, i, buf);
      strings := strings + text + [0];
      off := off + |text| + 1;
    }
  }

  ghost predicate Indexes(t: TokenTable, index: seq<nat>, n: nat)
    requires Layered(t)
  {
    |index| == n <= 256 && forall j :: 0 <= j < n ==> index[j] == |Strings(t, j)|
  }

  /** The expansion is read back from the buffer as a C string. */
  lemma ExpandedString(t: TokenTable, code: Code, before: seq<Code>, buf: seq<Code>)
    requires Layered(t) && !t[0].Literal?
    requires Appended(before, buf, 0, ExpandCode(t, code))
    requires |ExpandCode(t, code)| < |buf| && buf[|ExpandCode(t, code)|] == 0
    ensures CString(buf, 0) == ExpandCode(t, code)
  {
    var s := ExpandCode(t, code);
    ExpansionIsLiteral(t, code);
    assert before[..0] + s == s;
    assert buf == [] + s + [0] + buf[|s| + 1..];
    CStringOf([], s, buf[|s| + 1..]);
  }

  /** `write_src`. */
  method WriteSrc(c: Compressor, ghost coding: Coding) returns (img: Image)
    requires c.Holds(coding) && Layered(coding.table) && !coding.table[0].Literal?
    requires Fits(coding)
    ensures img == Layout(Addresses(c.table), coding)
    ensures forall i :: 0 <= i < |img.tokenIndex| ==> img.tokenIndex[i] < 0x10000
  {
    var stream, markers := WriteNames(c);
    var strings, index := WriteTokens(c, coding.table);
    forall i | 0 <= i < 256 ensures |Strings(coding.table, i)| < 0x10000 {
      IndexFits(coding.table, i);
    }
    img := Image(Addresses(c.table), stream, markers, strings, index);
  }

  function Addresses(table: seq<SymEntry>): seq<nat> {
    seq(|table|, i requires 0 <= i < |table| => table[i].addr)
  }

  /** The emitted formats: one length byte per name, and a 64-byte buffer per token. */
  ghost predicate Fits(c: Coding)
    requires Layered(c.table)
  {
    ShortNames(c.names) && TokensFit(c.table)
  }

  ghost predicate TokensFit(t: TokenTable)
    requires Layered(t)
  {
    forall code: Code :: |ExpandCode(t, code)| < KSYM_NAME_LEN
  }

  // ---------- the whole pass ----------

  /** The table that `insert_real_symbols_in_table` starts from. */
  ghost function LiteralTable(names: seq<seq<Code>>): (t: TokenTable)
    ensures RealSymbols(t, names)
  {
    seq(256, c requires 0 <= c < 256 => if Occurs(names, c) then Literal else Unused)
  }

  /** The coding that the tool computes for these names. */
  ghost function Compressed(names: seq<seq<Code>>): (c: Coding)
    requires !Occurs(names, 0)
    ensures Ready(c, names, -1)
  {
    var start := Coding(LiteralTable(names), names);
    RealSymbolsRepresent(LiteralTable(names), names);
    OptimizeRepresents(start, names, 255);
    Optimize(start, 255)
  }

  /** The entries that reading the symbol list makes. */
  method ReadMap(addresses: seq<nat>, names: seq<seq<Code>>) returns (table: seq<SymEntry>)
    requires |addresses| == |names|
    ensures DistinctEntries(table, names) && Addresses(table) == addresses
    ensures fresh(EntryObjects(table))
  {
    table := [];
    for i := 0 to |names|
      invariant |table| == i
      invariant forall j :: 0 <= j < i ==> table[j].Holds(names[j]) && table[j].addr == addresses[j]
      invariant forall j :: 0 <= j < i ==> fresh(table[j]) && fresh(table[j].sym)
      invariant forall j, k :: 0 <= j < k < i ==> table[j] != table[k] && table[j].sym != table[k].sym
    {
      var e := new SymEntry(addresses[i], names[i]);
      table := table + [e];
    }
  }

  /** From a sorted and filtered symbol list to the tables: the kernel reads every name back. */
  method BuildTables(addresses: seq<nat>, names: seq<seq<Code>>) returns (img: Image)
    requires |addresses| == |names| && !Occurs(names, 0)
    requires Fits(Compressed(names))
    ensures img == Layout(addresses, Compressed(names))
    ensures Describes(img, addresses, names)
  {
    var entries := ReadMap(addresses, names);
    var c := new Compressor(entries, names);
    c.CountTokens();
    ghost var t := c.InsertRealSymbols();
    assert t == LiteralTable(names);
    ghost var coding := c.OptimizeResult(t);
    img := WriteSrc(c, coding);
    LayoutDescribes(addresses, coding, names);
  }
}
