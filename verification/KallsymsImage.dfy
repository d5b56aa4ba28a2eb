/**
  The tables that the build tool emits and the kernel reads: what they contain for a
  given coding, and what the kernel's way of reading them yields.
 */
module KallsymsImage {
  import opened PairCoding
  import opened TokenChoice

  /** `kallsyms_addresses`, `_names`, `_markers`, `_token_table` and `_token_index`. */
  datatype Image = Image(addresses: seq<nat>, names: seq<Code>, markers: seq<nat>,
                         tokenTable: seq<Code>, tokenIndex: seq<nat>)

  // ---------- reading ----------

  /** The NUL-terminated string at `off`. */
  function CString(bytes: seq<Code>, off: nat): (s: seq<Code>)
    ensures off + |s| <= |bytes| || s == []
    decreases |bytes| - off
  {
    if off >= |bytes| || bytes[off] == 0 then [] else [bytes[off]] + CString(bytes, off + 1)
  }

  /** Every token string starts and ends inside the token table. */
  predicate Readable(img: Image) {
    && |img.tokenIndex| == 256
    && |img.tokenTable| > 0 && img.tokenTable[|img.tokenTable| - 1] == 0
    && forall c: Code :: img.tokenIndex[c] < |img.tokenTable|
  }

  function Decode(img: Image, codes: seq<Code>): seq<Code>
    requires Readable(img)
  {
    if codes == [] then []
    else CString(img.tokenTable, img.tokenIndex[codes[0]]) + Decode(img, codes[1..])
  }

  /** A length-prefixed record lies inside the stream at `off`. */
  predicate RecordAt(bytes: seq<Code>, off: nat) {
    off < |bytes| && off + 1 + bytes[off] <= |bytes|
  }

  function CodesAt(bytes: seq<Code>, off: nat): seq<Code>
    requires RecordAt(bytes, off)
  {
    bytes[off + 1..off + 1 + bytes[off]]
  }

  /** The offset reached by skipping `n` records. */
  function Skip(bytes: seq<Code>, off: nat, n: nat): nat
    decreases n
  {
    if n == 0 || off >= |bytes| then off else Skip(bytes, off + bytes[off] + 1, n - 1)
  }

  // ---------- writing ----------

  ghost predicate ShortNames(names: seq<seq<Code>>) {
    forall i :: 0 <= i < |names| ==> |names[i]| < 256
  }

  /** The symbol stream: each name behind its length byte. */
  function Stream(names: seq<seq<Code>>): seq<Code>
    requires ShortNames(names)
  {
    if names == [] then []
    else Stream(names[..|names| - 1]) + [|names[|names| - 1]|] + names[|names| - 1]
  }

  /** The token strings of the codes below `n`, each with its NUL. */
  ghost function Strings(t: TokenTable, n: nat): seq<Code>
    requires Layered(t) && n <= 256
  {
    if n == 0 then [] else Strings(t, n - 1) + ExpandCode(t, n - 1) + [0]
  }

  /** The tables for a coding. */
  ghost function Layout(addresses: seq<nat>, c: Coding): Image
    requires Layered(c.table) && ShortNames(c.names)
  {
    Image(addresses,
          Stream(c.names),
          seq((|c.names| + 255) / 256, j requires 0 <= j < (|c.names| + 255) / 256 => |Stream(c.names[..256 * j])|),
          Strings(c.table, 256),
          seq(256, i requires 0 <= i < 256 => |Strings(c.table, i)|))
  }

  // ---------- the two undo each other ----------

  lemma {:induction false} StreamAt(names: seq<seq<Code>>, k: nat)
    requires ShortNames(names) && k < |names|
    ensures var off := |Stream(names[..k])|;
            && RecordAt(Stream(names), off)
            && CodesAt(Stream(names), off) == names[k]
            && off + 1 + |names[k]| == |Stream(names[..k + 1])|
  {
    var n := |names| - 1;
    var init, last := names[..n], names[n];
    assert names[..k + 1][..k] == names[..k];
    if k < n {
      StreamAt(init, k);
      assert init[..k] == names[..k];
      var off := |Stream(names[..k])|;
      assert Stream(names)[off] == Stream(init)[off];
      assert CodesAt(Stream(names), off) == CodesAt(Stream(init), off);
    }
  }

  /** The bytes of a record: a length byte, then the codes of the name, and the records follow each other. */
  lemma RecordBytes(names: seq<seq<Code>>, k: nat)
    requires ShortNames(names) && k < |names|
    ensures var off, bytes := |Stream(names[..k])|, Stream(names);
            && off + 1 + |names[k]| <= |bytes|
            && bytes[off] == |names[k]| && bytes[off + 1..off + 1 + |names[k]|] == names[k]
            && |Stream(names[..k + 1])| == off + 1 + |names[k]|
            && (k == 0 ==> off == 0)
  {
    StreamAt(names, k);
  }

  lemma {:induction false} SkipReaches(names: seq<seq<Code>>, k: nat, n: nat)
    requires ShortNames(names) && k + n < |names|
    ensures Skip(Stream(names), |Stream(names[..k])|, n) == |Stream(names[..k + n])|
    decreases n
  {
    if n > 0 {
      StreamAt(names, k);
      SkipReaches(names, k + 1, n - 1);
    }
  }

  /** No NUL inside the string of a code whose table has no NUL character. */
  ghost predicate NulFree(s: seq<Code>) {
    forall k :: 0 <= k < |s| ==> s[k] != 0
  }

  lemma {:induction false} CStringOf(before: seq<Code>, s: seq<Code>, after: seq<Code>)
    requires NulFree(s)
    ensures CString(before + s + [0] + after, |before|) == s
    decreases |s|
  {
    var bytes := before + s + [0] + after;
    if s != [] {
      CStringOf(before + [s[0]], s[1..], after);
      assert before + [s[0]] + s[1..] + [0] + after == bytes;
    }
  }

  lemma {:induction false} StringsSplit(t: TokenTable, c: nat, n: nat)
    requires Layered(t) && c < n <= 256
    ensures exists after :: Strings(t, n) == Strings(t, c) + ExpandCode(t, c) + [0] + after
    decreases n
  {
    if c == n - 1 {
      assert Strings(t, n) == Strings(t, c) + ExpandCode(t, c) + [0] + [];
    } else {
      StringsSplit(t, c, n - 1);
      var after :| Strings(t, n - 1) == Strings(t, c) + ExpandCode(t, c) + [0] + after;
      assert Strings(t, n)
          == Strings(t, c) + ExpandCode(t, c) + [0] + (after + ExpandCode(t, n - 1) + [0]);
    }
  }

  /** The kernel finds, for each code, the characters it stands for. */
  lemma TokenStringFound(t: TokenTable, c: Code)
    requires Layered(t) && !t[0].Literal?
    ensures CString(Strings(t, 256), |Strings(t, c)|) == ExpandCode(t, c)
    ensures |Strings(t, c)| < |Strings(t, 256)|
  {
    StringsSplit(t, c, 256);
    var after :| Strings(t, 256) == Strings(t, c) + ExpandCode(t, c) + [0] + after;
    ExpansionIsLiteral(t, c);
    CStringOf(Strings(t, c), ExpandCode(t, c), after);
  }

  /** The bytes of a token string: the characters of the code, then a NUL, and the strings follow each other. */
  lemma TokenBytes(t: TokenTable, c: Code)
    requires Layered(t)
    ensures var off, text, bytes := |Strings(t, c)|, ExpandCode(t, c), Strings(t, 256);
            && off + |text| < |bytes| && bytes[off..off + |text|] == text && bytes[off + |text|] == 0
            && |Strings(t, c + 1)| == off + |text| + 1 && (c == 0 ==> off == 0)
  {
    StringsSplit(t, c, 256);
    var after :| Strings(t, 256) == Strings(t, c) + ExpandCode(t, c) + [0] + after;
    BytesInside(Strings(t, c), ExpandCode(t, c), after);
  }

  lemma BytesInside(before: seq<Code>, text: seq<Code>, after: seq<Code>)
    ensures var bytes, off := before + text + [0] + after, |before|;
            off + |text| < |bytes| && bytes[off..off + |text|] == text && bytes[off + |text|] == 0
  {
  }

  lemma LayoutReadable(addresses: seq<nat>, c: Coding)
    requires Layered(c.table) && ShortNames(c.names) && !c.table[0].Literal?
    ensures Readable(Layout(addresses, c))
  {
    var img := Layout(addresses, c);
    var last := |Strings(c.table, 256)| - 1;
    forall k: Code ensures img.tokenIndex[k] < |img.tokenTable| {
      TokenStringFound(c.table, k);
    }
    assert Strings(c.table, 256) == Strings(c.table, 255) + ExpandCode(c.table, 255) + [0];
  }

  lemma {:induction false} DecodeExpands(addresses: seq<nat>, c: Coding, codes: seq<Code>)
    requires Layered(c.table) && ShortNames(c.names) && !c.table[0].Literal?
    requires Readable(Layout(addresses, c))
    ensures Decode(Layout(addresses, c), codes) == Expand(c.table, codes)
  {
    if codes != [] {
      TokenStringFound(c.table, codes[0]);
      DecodeExpands(addresses, c, codes[1..]);
    }
  }

  /** Where the kernel looks for the symbol at `pos`: closest marker, then skip. */
  function NameOffset(img: Image, pos: nat): nat
    requires pos / 256 < |img.markers|
  {
    Skip(img.names, img.markers[pos / 256], pos % 256)
  }

  /** Every record that the kernel reads on its way to `pos` lies inside the stream. */
  predicate Scannable(img: Image, pos: nat) {
    && pos / 256 < |img.markers|
    && forall j :: 0 <= j <= pos % 256 ==> RecordAt(img.names, Skip(img.names, img.markers[pos / 256], j))
  }

  /** The tables hold the symbols `origin` at `addresses`. */
  ghost predicate Describes(img: Image, addresses: seq<nat>, origin: seq<seq<Code>>) {
    && img.addresses == addresses && |addresses| == |origin| && Readable(img)
    && forall pos :: 0 <= pos < |origin| ==>
         Scannable(img, pos) && Decode(img, CodesAt(img.names, NameOffset(img, pos))) == origin[pos]
  }

  /** Encoding and decoding are inverse: every symbol reads back as its original name. */
  lemma LayoutDescribes(addresses: seq<nat>, c: Coding, origin: seq<seq<Code>>)
    requires Ready(c, origin, -1) && ShortNames(c.names) && |addresses| == |origin|
    ensures Describes(Layout(addresses, c), addresses, origin)
  {
    var img := Layout(addresses, c);
    LayoutReadable(addresses, c);
    forall pos | 0 <= pos < |origin|
      ensures Scannable(img, pos) && Decode(img, CodesAt(img.names, NameOffset(img, pos))) == origin[pos]
    {
      ReadBack(addresses, c, origin, pos);
    }
  }

  lemma MarkerReaches(addresses: seq<nat>, c: Coding, m: nat, j: nat)
    requires Layered(c.table) && ShortNames(c.names) && 256 * m + j < |c.names| && j < 256
    ensures var img := Layout(addresses, c);
            && m < |img.markers|
            && RecordAt(img.names, Skip(img.names, img.markers[m], j))
            && CodesAt(img.names, Skip(img.names, img.markers[m], j)) == c.names[256 * m + j]
  {
    SkipReaches(c.names, 256 * m, j);
    StreamAt(c.names, 256 * m + j);
  }

  lemma ReadBack(addresses: seq<nat>, c: Coding, origin: seq<seq<Code>>, pos: nat)
    requires Ready(c, origin, -1) && ShortNames(c.names) && pos < |origin|
    requires Readable(Layout(addresses, c))
    ensures Scannable(Layout(addresses, c), pos)
    ensures var img := Layout(addresses, c);
            Decode(img, CodesAt(img.names, NameOffset(img, pos))) == origin[pos]
  {
    forall j | 0 <= j <= pos % 256
      ensures var img := Layout(addresses, c);
              RecordAt(img.names, Skip(img.names, img.markers[pos / 256], j))
    {
      MarkerReaches(addresses, c, pos / 256, j);
    }
    MarkerReaches(addresses, c, pos / 256, pos % 256);
    DecodeExpands(addresses, c, c.names[pos]);
  }

  /** With token strings under 64 characters every index fits the emitted 16-bit word. */
  lemma {:induction false} IndexFits(t: TokenTable, n: nat)
    requires Layered(t) && n <= 256
    requires forall c: Code :: |ExpandCode(t, c)| < 64
    ensures |Strings(t, n)| <= 64 * n
  {
    if n > 0 {
      IndexFits(t, n - 1);
      assert |ExpandCode(t, n - 1)| < 64;
    }
  }
}
