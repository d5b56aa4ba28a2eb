/**
  The kernel's side of kallsyms: binary search over the addresses, a scan of the
  compressed stream from the closest marker, and expansion into the caller's buffer.
 */
module KallsymsLookup {
  import opened PairCoding
  import opened KallsymsImage

  /** The length of the caller's buffer, which is shorter than the one in the build tool. */
  const KSYM_NAME_LEN: nat := 32

  /** A name as shown: without its type character, cut to the buffer less its NUL. */
  function Shown(text: seq<Code>, maxlen: nat): seq<Code>
    requires maxlen > 0
  {
    var body := Tail(text);
    if |body| < maxlen then body else body[..maxlen - 1]
  }

  function Tail(text: seq<Code>): seq<Code> {
    if text == [] then [] else text[1..]
  }

  /** `buf` holds the characters of `text` behind its first, at most `maxlen - 1` of them, and then a NUL. */
  predicate ShowsName(buf: seq<Code>, text: seq<Code>, maxlen: nat) {
    exists n: nat :: n < |buf| && n < maxlen && buf[n] == 0 &&
      (if |text| <= 1 then n == 0 else n == (if |text| <= maxlen then |text| - 1 else maxlen - 1)) &&
      forall k :: 0 <= k < n ==> k + 1 < |text| && buf[k] == text[k + 1]
  }

  lemma ShownIs(buf: seq<Code>, text: seq<Code>, maxlen: nat)
    requires maxlen > 0 && Holds(buf, Shown(text, maxlen))
    ensures ShowsName(buf, text, maxlen)
  {
    var name := Shown(text, maxlen);
    var n := |name|;
    assert n < |buf| && n < maxlen && buf[n] == 0;
    forall k | 0 <= k < n
      ensures k + 1 < |text| && buf[k] == text[k + 1]
    {
      assert buf[k] == buf[..n][k] == name[k];
    }
  }

  /** The inner loop of `kallsyms_expand_symbol`: copy one token string; `cut` when the buffer is full. */
  method CopyToken(img: Image, token: nat, result: array<Code>, maxlen: nat, written0: nat, skipped0: bool,
                   ghost before: seq<Code>)
    returns (written: nat, skippedFirst: bool, cut: bool, ghost done: seq<Code>)
    requires Readable(img) && token < |img.tokenTable| && Written(before, result[..], maxlen, written0, skipped0)
    modifies result
    ensures Written(done, result[..], maxlen, written, skippedFirst)
    ensures maxlen == 0 ==> result[..] == old(result[..])
    ensures if cut then done < before + CString(img.tokenTable, token) && Shortened(done, maxlen)
            else done == before + CString(img.tokenTable, token)
  {
    var tptr := token;
    written, skippedFirst, cut, done := written0, skipped0, false, before;
    ghost var goal := before + CString(img.tokenTable, token);
    while img.tokenTable[tptr] != 0
      invariant 0 <= tptr < |img.tokenTable|
      invariant done + CString(img.tokenTable, tptr) == goal
      invariant Written(done, result[..], maxlen, written, skippedFirst)
      invariant maxlen == 0 ==> result[..] == old(result[..])
      decreases |img.tokenTable| - tptr
    {
      ghost var longer := done + [img.tokenTable[tptr]];
      assert goal == longer + CString(img.tokenTable, tptr + 1);
      if skippedFirst {
        if maxlen - written <= 1 {
          cut := true;
          return;
        }
        result[written] := img.tokenTable[tptr];
        written := written + 1;
      } else {
        skippedFirst := true;
      }
      done := longer;
      tptr := tptr + 1;
    }
  }

  /** `kallsyms_expand_symbol`. */
  method ExpandSymbol(img: Image, off: nat, result: array<Code>, maxlen: nat) returns (next: nat)
    requires Readable(img) && RecordAt(img.names, off) && maxlen <= result.Length
    modifies result
    ensures next == off + 1 + |CodesAt(img.names, off)|
    ensures maxlen == 0 ==> result[..] == old(result[..])
    ensures maxlen > 0 ==> Holds(result[..], Shown(Decode(img, CodesAt(img.names, off)), maxlen))
  {
    var data, len := off + 1, img.names[off];
    next := off + 1 + len;
    ghost var codes := CodesAt(img.names, off);
    ghost var full, done, rest := Decode(img, codes), [], codes;
    var written, skippedFirst, cut := 0, false, false;
    while len > 0 && !cut
      invariant 0 <= len && data + len == next && (!cut ==> rest == img.names[data..next])
      invariant if cut then done < full && Shortened(done, maxlen) else done + Decode(img, rest) == full
      invariant Written(done, result[..], maxlen, written, skippedFirst)
      invariant maxlen == 0 ==> result[..] == old(result[..])
      decreases len
    {
      var tptr := img.tokenIndex[img.names[data]];
      DecodeHead(img, done, rest);
      written, skippedFirst, cut, done := CopyToken(img, tptr, result, maxlen, written, skippedFirst, done);
      rest := rest[1..];
      data := data + 1;
      len := len - 1;
    }
    if cut {
      CutShort(done, full, maxlen);
    }
    if maxlen > 0 {
      result[written] := 0;
    }
  }

  /** The buffer holds `name` as a NUL-terminated string. */
  predicate Holds(buf: seq<Code>, name: seq<Code>) {
    |name| < |buf| && buf[..|name|] == name && buf[|name|] == 0
  }

  /** The buffer holds the characters taken so far, without the first, with room left for the NUL. */
  ghost predicate Written(done: seq<Code>, result: seq<Code>, maxlen: nat, written: int, skippedFirst: bool) {
    && maxlen <= |result| && 0 <= written <= maxlen
    && (skippedFirst <==> done != [])
    && result[..written] == Tail(done)
    && (maxlen > 0 ==> written < maxlen)
  }

  lemma DecodeHead(img: Image, done: seq<Code>, rest: seq<Code>)
    requires Readable(img) && rest != []
    ensures done + Decode(img, rest)
         == (done + CString(img.tokenTable, img.tokenIndex[rest[0]])) + Decode(img, rest[1..])
  {
  }

  /** Only the NUL still fits behind the characters taken so far. */
  predicate Shortened(done: seq<Code>, maxlen: nat) {
    done != [] && |Tail(done)| + 1 >= maxlen && (maxlen > 0 ==> |Tail(done)| < maxlen)
  }

  lemma CutShort(done: seq<Code>, full: seq<Code>, maxlen: nat)
    requires done < full && Shortened(done, maxlen)
    ensures maxlen > 0 ==> Shown(full, maxlen) == Tail(done)
  {
  }

  // ---------- the search ----------

  predicate Sorted(a: seq<nat>) {
    forall i, j :: 0 <= i < j < |a| ==> a[i] <= a[j]
  }

  /** `pos` is the first symbol at the greatest address that is not above `addr`. */
  predicate Owner(a: seq<nat>, addr: nat, pos: nat) {
    && pos < |a| && a[pos] <= addr
    && (forall j :: 0 <= j < pos ==> a[j] < a[pos])
    && (forall j :: pos < j < |a| ==> a[j] == a[pos] || addr < a[j])
  }

  lemma OwnerUnique(a: seq<nat>, addr: nat, p: nat, q: nat)
    requires Owner(a, addr, p) && Owner(a, addr, q)
    ensures p == q
  {
  }

  /** The address of the first symbol above `start`, behind `pos`; the word at the end of the text if there is none. */
  function EndOf(a: seq<nat>, pos: nat, start: nat, last: nat): nat
    decreases |a| - pos
  {
    if pos >= |a| then last else if a[pos] > start then a[pos] else EndOf(a, pos + 1, start, last)
  }

  /**
    What a symbol's size means: exactly the addresses from its start to its end belong to it. Of the symbols at the
    last address the end is the end of the text, and every address above belongs to them.
   */
  lemma {:induction false} EndBoundsOwner(a: seq<nat>, pos: nat, from: nat, last: nat, addr: nat)
    requires Sorted(a) && pos < from <= |a|
    requires forall j :: 0 <= j < pos ==> a[j] < a[pos]
    requires forall j :: pos < j < from ==> a[j] == a[pos]
    ensures Owner(a, addr, pos) <==>
              a[pos] <= addr && (addr < EndOf(a, from, a[pos], last) || a[|a| - 1] == a[pos])
    ensures a[|a| - 1] == a[pos] ==> EndOf(a, from, a[pos], last) == last
    decreases |a| - from
  {
    if from < |a| && a[from] <= a[pos] {
      EndBoundsOwner(a, pos, from + 1, last, addr);
    }
  }

  const WORD: nat := 0x1_0000_0000

  /** `get_symbol_pos`; differences are taken in 32-bit unsigned arithmetic. */
  method GetSymbolPos(a: seq<nat>, addr: nat, textEnd: nat) returns (pos: nat, symbolSize: nat, offset: nat)
    requires a != [] && Sorted(a)
    ensures pos < |a| && (a[0] <= addr ==> Owner(a, addr, pos)) && (addr < a[0] ==> pos == 0)
    ensures symbolSize == (EndOf(a, pos + 1, a[pos], textEnd) - a[pos]) % WORD
    ensures offset == (addr - a[pos]) % WORD
  {
    var low, high := 0, |a|;
    while high - low > 1
      invariant 0 <= low < high <= |a|
      invariant low == 0 || a[low] <= addr
      invariant high == |a| || addr < a[high]
    {
      var mid := low + (high - low) / 2;
      if a[mid] <= addr {
        low := mid;
      } else {
        high := mid;
      }
    }
    ghost var found := low;
    while low > 0 && a[low - 1] == a[low]
      invariant 0 <= low <= found && a[low] == a[found]
    {
      low := low - 1;
    }
    var start, end := a[low], 0;
    var i := low + 1;
    while i < |a|
      invariant low < i <= |a| && end == 0
      invariant EndOf(a, i, start, textEnd) == EndOf(a, low + 1, start, textEnd)
    {
      if a[i] > start {
        end := a[i];
        break;
      }
      i := i + 1;
    }
    if end == 0 {
      end := textEnd;
    }
    pos, symbolSize, offset := low, (end - start) % WORD, (addr - start) % WORD;
  }

  /** `get_symbol_offset`. */
  method GetSymbolOffset(img: Image, pos: nat) returns (off: nat)
    requires Scannable(img, pos)
    ensures off == NameOffset(img, pos)
  {
    var mark := img.markers[pos / 256];
    off := mark;
    for i := 0 to pos % 256
      invariant off == Skip(img.names, mark, i)
    {
      SkipOneMore(img.names, mark, i);
      off := off + img.names[off] + 1;
    }
  }

  lemma {:induction false} SkipOneMore(bytes: seq<Code>, off: nat, n: nat)
    requires Skip(bytes, off, n) < |bytes|
    ensures Skip(bytes, off, n + 1) == Skip(bytes, off, n) + bytes[Skip(bytes, off, n)] + 1
    decreases n
  {
    if n > 0 {
      SkipOneMore(bytes, off + bytes[off] + 1, n - 1);
    }
  }

  /** The address ranges of the kernel text and of the code copied to RAM. */
  datatype TextRanges = TextRanges(start: nat, end: nat, ramStart: nat, ramEnd: nat) {
    predicate Contains(addr: nat) {
      start <= addr <= end || ramStart <= addr <= ramEnd
    }
  }

  /** `kallsyms_lookup`, on tables that describe the symbols `origin`. */
  method Lookup(img: Image, ranges: TextRanges, textEnd: nat, addr: nat, namebuf: array<Code>,
                ghost origin: seq<seq<Code>>)
    returns (found: bool, pos: nat, symbolSize: nat, offset: nat)
    requires Describes(img, img.addresses, origin) && origin != [] && Sorted(img.addresses)
    requires namebuf.Length >= KSYM_NAME_LEN
    modifies namebuf
    ensures found <==> ranges.start <= addr <= ranges.end || ranges.ramStart <= addr <= ranges.ramEnd
    ensures !found ==> namebuf[0] == 0
    ensures found ==>
      && pos < |origin|
      && (if img.addresses[0] <= addr then Owner(img.addresses, addr, pos) else pos == 0)
      && Holds(namebuf[..], Shown(origin[pos], KSYM_NAME_LEN)) && ShowsName(namebuf[..], origin[pos], 32)
      && symbolSize == (EndOf(img.addresses, pos + 1, img.addresses[pos], textEnd) - img.addresses[pos]) % WORD
      && offset == (addr - img.addresses[pos]) % WORD
  {
    namebuf[KSYM_NAME_LEN - 1] := 0;
    namebuf[0] := 0;
    found, pos, symbolSize, offset := false, 0, 0, 0;
    if ranges.Contains(addr) {
      found := true;
      pos, symbolSize, offset := GetSymbolPos(img.addresses, addr, textEnd);
      LookupName(img, pos, namebuf, origin);
    }
  }

  /** The name of the symbol at a position, cut to the buffer. */
  method LookupName(img: Image, pos: nat, namebuf: array<Code>, ghost origin: seq<seq<Code>>)
    requires Describes(img, img.addresses, origin) && pos < |origin| && namebuf.Length >= KSYM_NAME_LEN
    modifies namebuf
    ensures Holds(namebuf[..], Shown(origin[pos], KSYM_NAME_LEN)) && ShowsName(namebuf[..], origin[pos], 32)
  {
    var off := GetSymbolOffset(img, pos);
    var _ := ExpandSymbol(img, off, namebuf, KSYM_NAME_LEN);
    ShownIs(namebuf[..], origin[pos], KSYM_NAME_LEN);
  }
}
