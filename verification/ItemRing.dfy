/**
  The item-mode ring buffer: items of a header word and up to 255 data words, printed one
  behind the other into a ring of words and parsed back.
 */
module ItemRing {
  import opened Arithmetic

  type Word = w: int | 0 <= w < 0x1_0000_0000
  type Byte = b: int | 0 <= b < 256
  type Half = h: int | 0 <= h < 65536

  datatype Item = Item(kind: Half, value: Byte, data: seq<Word>)

  /** A length has to fit into the header. */
  predicate Fits(item: Item) {
    |item.data| < 256
  }

  // ---------- printing and parsing ----------

  /** `struct ring_element`: 16 bits type, 8 bits length, 8 bits value. */
  function Header(kind: Half, length: Byte, value: Byte): Word {
    kind + 65536 * length + 16777216 * value
  }

  function KindOf(h: Word): Half { h % 65536 }

  function LengthOf(h: Word): Byte { h / 65536 % 256 }

  function ValueOf(h: Word): Byte { h / 16777216 }

  lemma HeaderFields(kind: Half, length: Byte, value: Byte)
    ensures var h := Header(kind, length, value); KindOf(h) == kind && LengthOf(h) == length && ValueOf(h) == value
  {
    var h := Header(kind, length, value);
    DivUnique(h, 65536, length + 256 * value, kind);
    DivUnique(length + 256 * value, 256, value, length);
    DivUnique(h, 16777216, value, kind + 65536 * length);
  }

  function Print(item: Item): seq<Word>
    requires Fits(item)
  {
    [Header(item.kind, |item.data|, item.value)] + item.data
  }

  predicate AllFit(items: seq<Item>) {
    forall i :: 0 <= i < |items| ==> Fits(items[i])
  }

  function PrintAll(items: seq<Item>): seq<Word>
    requires AllFit(items)
  {
    if items == [] then [] else Print(items[0]) + PrintAll(items[1..])
  }

  datatype Parsed = Bad | Items(items: seq<Item>)

  /** Reading words as items; a header that announces more words than there are is malformed. */
  function Parse(words: seq<Word>): Parsed
    decreases |words|
  {
    if words == [] then Items([])
    else
      var n := LengthOf(words[0]);
      if n + 1 > |words| then Bad
      else
        var rest := Parse(words[n + 1..]);
        if rest.Bad? then Bad
        else Items([Item(KindOf(words[0]), ValueOf(words[0]), words[1..n + 1])] + rest.items)
  }

  /** Parsing undoes printing. */
  lemma {:induction false} ParsePrint(items: seq<Item>)
    requires AllFit(items)
    ensures Parse(PrintAll(items)) == Items(items)
  {
    if items != [] {
      FirstItem(items);
      ParsePrint(items[1..]);
      assert [items[0]] + items[1..] == items;
    }
  }

  lemma {:induction false} PrintAppend(items: seq<Item>, item: Item)
    requires AllFit(items) && Fits(item)
    ensures AllFit(items + [item]) && PrintAll(items + [item]) == PrintAll(items) + Print(item)
  {
    if items == [] {
      assert items + [item] == [item];
    } else {
      PrintAppend(items[1..], item);
      assert (items + [item])[1..] == items[1..] + [item];
    }
  }

  /** The first item at the start of the printed words. */
  lemma FirstItem(items: seq<Item>)
    requires AllFit(items) && items != []
    ensures var words, item := PrintAll(items), items[0]; var n := |item.data|;
            && n < |words| && words[1..n + 1] == item.data && words[n + 1..] == PrintAll(items[1..])
            && LengthOf(words[0]) == n && KindOf(words[0]) == item.kind && ValueOf(words[0]) == item.value
            && words[0] == item.kind + 65536 * n + 16777216 * item.value
  {
    var item := items[0];
    HeaderFields(item.kind, |item.data|, item.value);
    assert PrintAll(items) == Print(item) + PrintAll(items[1..]);
  }

  // ---------- mask and modulo ----------

  function And(a: nat, b: nat): nat {
    if a == 0 || b == 0 then 0
    else (if a % 2 == 1 && b % 2 == 1 then 1 else 0) + 2 * And(a / 2, b / 2)
  }

  /** For a size that is a power of two, the mask takes the remainder. */
  lemma {:induction false} MaskIsModulo(a: nat, k: nat)
    ensures And(a, Pow2(k) - 1) == a % Pow2(k)
  {
    if k > 0 {
      var p, mask, half := Pow2(k - 1), Pow2(k) - 1, Pow2(k - 1) - 1;
      MaskIsModulo(a / 2, k - 1);
      AndOdd(a, half, mask);
      HalfModulo(a, p, Pow2(k));
    }
  }

  lemma AndOdd(a: nat, b: nat, m: nat)
    requires m == 2 * b + 1
    ensures And(a, m) == a % 2 + 2 * And(a / 2, b)
  {
    assert m / 2 == b && m % 2 == 1;
  }

  lemma HalfModulo(a: nat, p: nat, n: nat)
    requires p > 0 && n == 2 * p
    ensures a % n == a % 2 + 2 * (a / 2 % p)
  {
    var h := a / 2;
    var q, r := h / p, h % p;
    assert a == q * (2 * p) + (2 * r + a % 2);
    DivUnique(a, 2 * p, q, 2 * r + a % 2);
  }

  // ---------- the ring ----------

  /** The index `i` words behind `head`. */
  function At(head: nat, i: nat, size: nat): (k: nat)
    requires size > 0
    ensures k < size
  {
    (head + i) % size
  }

  lemma AtSmall(head: nat, i: nat, size: nat)
    requires head < size && i <= size
    ensures At(head, i, size) == if head + i < size then head + i else head + i - size
  {
    if head + i < size {
      DivUnique(head + i, size, 0, head + i);
    } else {
      DivUnique(head + i, size, 1, head + i - size);
    }
  }

  /** Indices relative to the tail and to the head agree. */
  lemma AtAt(head: nat, used: nat, i: nat, size: nat)
    requires head < size && used + i < size
    ensures At(At(head, used, size), i, size) == At(head, used + i, size)
  {
    AtSmall(head, used, size);
    AtSmall(At(head, used, size), i, size);
    AtSmall(head, used + i, size);
  }

  lemma AtApart(head: nat, i: nat, j: nat, size: nat)
    requires head < size && i < size && j < size && i != j
    ensures At(head, i, size) != At(head, j, size)
  {
    AtSmall(head, i, size);
    AtSmall(head, j, size);
  }

  /** The words from `head` on are `words`. */
  ghost predicate Reads(buf: seq<Word>, head: nat, words: seq<Word>) {
    head < |buf| && |words| < |buf| && forall i :: 0 <= i < |words| ==> buf[At(head, i, |buf|)] == words[i]
  }

  lemma WriteNext(buf: seq<Word>, head: nat, words: seq<Word>, w: Word)
    requires Reads(buf, head, words) && |words| + 1 < |buf|
    ensures Reads(buf[At(head, |words|, |buf|) := w], head, words + [w])
  {
    var n := |words|;
    forall i | 0 <= i < n
      ensures At(head, i, |buf|) != At(head, n, |buf|)
    {
      AtApart(head, i, n, |buf|);
    }
  }

  /** Dropping words at the front moves the head. */
  lemma DropFront(buf: seq<Word>, head: nat, words: seq<Word>, n: nat)
    requires Reads(buf, head, words) && n <= |words|
    ensures Reads(buf, At(head, n, |buf|), words[n..])
  {
    forall i | 0 <= i < |words| - n
      ensures buf[At(At(head, n, |buf|), i, |buf|)] == words[n..][i]
    {
      AtAt(head, n, i, |buf|);
    }
  }

  /** `ring_buf_space_get`: one word stays unused. */
  function Space(size: nat, head: nat, tail: nat): int {
    if tail < head then head - tail - 1 else size - tail + head - 1
  }

  lemma SpaceIs(size: nat, head: nat, used: nat)
    requires head < size && used < size
    ensures Space(size, head, At(head, used, size)) == size - 1 - used
    ensures head == At(head, used, size) <==> used == 0
  {
    AtSmall(head, used, size);
  }

  // ---------- the calls ----------

  datatype GetResult = Got(item: Item) | TooSmall(length: nat) | Empty

  class Ring {
    const buf: array<Word>
    /** Zero, or one less than a size that is a power of two. */
    const mask: nat
    ghost const pow: nat
    var head: nat
    var tail: nat
    var droppedPutCount: nat
    /** The items that were put and not yet taken. */
    ghost var items: seq<Item>

    ghost predicate Valid()
      reads this, buf
    {
      && (mask == 0 || (buf.Length == Pow2(pow) && mask == buf.Length - 1))
      && AllFit(items) && Reads(buf[..], head, PrintAll(items))
      && tail == At(head, |PrintAll(items)|, buf.Length)
    }

    constructor (size: nat, masked: bool, ghost pow: nat)
      requires size > 0 && (masked ==> size == Pow2(pow))
      ensures Valid() && items == [] && buf.Length == size && fresh(buf) && droppedPutCount == 0
    {
      buf := new Word[size](_ => 0);
      mask := if masked then size - 1 else 0;
      this.pow := pow;
      head, tail, droppedPutCount, items := 0, 0, 0, [];
      new;
      AtSmall(0, 0, size);
    }

    /** Indices are taken with the mask, if there is one. */
    method Index(k: nat) returns (i: nat)
      requires buf.Length > 0 && (mask == 0 || (buf.Length == Pow2(pow) && mask == buf.Length - 1))
      ensures i == k % buf.Length
    {
      if mask != 0 {
        MaskIsModulo(k, pow);
        i := And(k, mask);
      } else {
        i := k % buf.Length;
      }
    }

    /** `ring_buf_item_put`: the item is appended exactly if there is room for all its words. */
    method Put(item: Item) returns (ok: bool)
      requires Valid() && Fits(item)
      modifies this, buf
      ensures Valid()
      ensures ok <==> |PrintAll(old(items))| + |item.data| + 1 < buf.Length
      ensures items == if ok then old(items) + [item] else old(items)
      ensures droppedPutCount == old(droppedPutCount) + if ok then 0 else 1
    {
      ghost var was := PrintAll(items);
      SpaceIs(buf.Length, head, |was|);
      ok := Space(buf.Length, head, tail) >= |item.data| + 1;
      if !ok {
        droppedPutCount := droppedPutCount + 1;
        return;
      }
      WriteWords(Print(item), was);
      PrintAppend(items, item);
      AtAt(head, |was|, |item.data| + 1, buf.Length);
      tail := Index(tail + |item.data| + 1);
      items := items + [item];
    }

    /** Header and data, word by word. */
    method WriteWords(words: seq<Word>, ghost was: seq<Word>)
      requires mask == 0 || (buf.Length == Pow2(pow) && mask == buf.Length - 1)
      requires Reads(buf[..], head, was) && |was| + |words| < buf.Length && tail == At(head, |was|, buf.Length)
      modifies buf
      ensures Reads(buf[..], head, was + words)
    {
      assert was + words[..0] == was;
      for i := 0 to |words|
        invariant Reads(buf[..], head, was + words[..i])
      {
        WriteOne(words[i], i, |was|, was + words[..i]);
        assert was + words[..i] + [words[i]] == was + words[..i + 1];
      }
      assert words[..|words|] == words;
    }

    method WriteOne(w: Word, i: nat, ghost used: nat, ghost done: seq<Word>)
      requires mask == 0 || (buf.Length == Pow2(pow) && mask == buf.Length - 1)
      requires Reads(buf[..], head, done) && |done| == used + i && used + i + 1 < buf.Length
      requires tail == At(head, used, buf.Length)
      modifies buf
      ensures Reads(buf[..], head, done + [w])
    {
      ghost var before := buf[..];
      AtAt(head, used, i, buf.Length);
      WriteNext(before, head, done, w);
      var index := Index(i + tail);
      buf[index] := w;
      assert buf[..] == before[index := w];
    }

    /** `ring_buf_item_get`: the oldest item, unless there is none or it is longer than `limit` words. */
    method Get(limit: Byte) returns (r: GetResult)
      requires Valid()
      modifies this
      ensures Valid() && droppedPutCount == old(droppedPutCount)
      ensures r == if old(items) == [] then Empty
                   else if |old(items)[0].data| > limit then TooSmall(|old(items)[0].data|)
                   else Got(old(items)[0])
      ensures items == if r.Got? then old(items)[1..] else old(items)
    {
      ghost var words := PrintAll(items);
      SpaceIs(buf.Length, head, |words|);
      if head == tail {
        return Empty;
      }
      FirstItem(items);
      AtSmall(head, 0, buf.Length);
      var header := buf[head];
      var length := LengthOf(header);
      if length > limit {
        return TooSmall(length);
      }
      var data := ReadWords(length, words);
      r := Got(Item(KindOf(header), ValueOf(header), data));
      Advance(length + 1, words);
      items := items[1..];
    }

    method Advance(n: nat, ghost words: seq<Word>)
      requires mask == 0 || (buf.Length == Pow2(pow) && mask == buf.Length - 1)
      requires Reads(buf[..], head, words) && n <= |words| && tail == At(head, |words|, buf.Length)
      modifies this`head
      ensures Reads(buf[..], head, words[n..]) && tail == At(head, |words| - n, buf.Length)
    {
      DropFront(buf[..], head, words, n);
      AtAt(head, n, |words| - n, buf.Length);
      head := Index(head + n);
    }

    method ReadWords(length: nat, ghost words: seq<Word>) returns (data: seq<Word>)
      requires mask == 0 || (buf.Length == Pow2(pow) && mask == buf.Length - 1)
      requires Reads(buf[..], head, words) && length < |words|
      ensures data == words[1..length + 1]
    {
      data := [];
      for i := 0 to length
        invariant data == words[1..i + 1]
      {
        var index := Index(i + head + 1);
        assert index == At(head, i + 1, buf.Length);
        data := data + [buf[index]];
      }
    }
  }
}
