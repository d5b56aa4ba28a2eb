/**
  The free lists of a memory pool in memory: each free block that fits holds the node by which it is
  linked. Whatever threads do, and whatever they write into the blocks that they hold, the lists
  stay those of the protocol, and nobody writes into a block that another thread holds.
 */
module PoolNodes {
  import opened Arithmetic
  import opened PoolGeometry
  import opened PoolBitmap
  import opened PoolProtocol
  import opened PoolRounding
  import opened PoolGrid
  import opened NodeLists

  // ---------- the steps on memory ----------

  /** The end of `free_block`, and each turn of `break_block`: list the block at `a` if it fits. */
  function ListedMem(g: Geometry, list: int, l: nat, a: nat, m: Memory): Memory {
    if Fits(g, l, a) then Append(m, list, a) else m
  }

  /** `break_block`: the quarters 1 to `n` of the block at `a`, which are of level `l`. */
  function QuartersMem(g: Geometry, list: int, l: nat, a: nat, n: nat, m: Memory): Memory {
    if n == 0 then m else ListedMem(g, list, l, NthAt(g, l, a, n), QuartersMem(g, list, l, a, n - 1, m))
  }

  function NthAt(g: Geometry, l: nat, a: nat, n: nat): nat {
    a + n * g.LevelSize(l)
  }

  /** Turn `n` of the merging loop. */
  function UnlinkedNext(g: Geometry, l: nat, bn: nat, n: nat, m: Memory): Memory {
    var b := 4 * (bn / 4) + n;
    var a := Address(g, Block(l, b));
    if b != bn && Fits(g, l, a) then Remove(m, a) else m
  }

  /** The merging loop of `free_block`, after `n` turns. */
  function UnlinkedMem(g: Geometry, l: nat, bn: nat, n: nat, m: Memory): Memory {
    if n == 0 then m else UnlinkedNext(g, l, bn, n - 1, UnlinkedMem(g, l, bn, n - 1, m))
  }

  /** What a step does to the lists in memory; `heads` are the addresses of `levels[l].free_list`. */
  function ApplyMem(g: Geometry, heads: seq<int>, s: State, step: Step, m: Memory): Memory
    requires Enabled(g, s, step) && |heads| == g.nLevels
  {
    match step
    case Alloc(l) => Get(m, heads[l])
    case Break(l, b) => QuartersMem(g, heads[l + 1], l + 1, Address(g, Block(l, b)), 3, m)
    case Free(l, b) =>
      if Merges(s, l, b) then UnlinkedMem(g, l, b, 4, m) else ListedMem(g, heads[l], l, Address(g, Block(l, b)), m)
  }

  /** `init_mem_pool`: empty lists of the levels below `n`, ... */
  function EmptyMem(heads: seq<int>, n: nat, m: Memory): Memory
    requires n <= |heads|
  {
    if n == 0 then m else InitList(EmptyMem(heads, n - 1, m), heads[n - 1])
  }

  /** ... and the first `n` top-level blocks. */
  function TopMem(g: Geometry, list: int, n: nat, m: Memory): Memory {
    if n == 0 then m else Append(TopMem(g, list, n - 1, m), list, TopAt(g, n - 1))
  }

  // ---------- where nodes are ----------

  /** Block addresses, as offsets into the buffer. */
  function Pointers(list: seq<nat>, size: nat): seq<nat> {
    seq(|list|, i requires 0 <= i < |list| => list[i] * size)
  }

  /** The list heads lie outside the buffer and apart from each other. */
  ghost predicate HeadsPlaced(g: Geometry, heads: seq<int>) {
    && |heads| == g.nLevels
    && (forall l :: 0 <= l < |heads| ==> heads[l] + NODE_SIZE <= 0 || Bytes(g) <= heads[l])
    && (forall l, k :: 0 <= l < k < |heads| ==> Clear(heads[l], heads[k]))
  }

  /** The nodes of these lists lie in the buffer and apart from each other. */
  ghost predicate Spread(g: Geometry, lists: seq<seq<nat>>) {
    && |lists| == g.nLevels
    && (forall l :: 0 <= l < |lists| ==> NoRepeats(lists[l]))
    && (forall l, b :: 0 <= l < |lists| && b in lists[l] ==> b * g.LevelSize(l) + NODE_SIZE <= Bytes(g))
    && (forall l, k, b, c :: 0 <= l < |lists| && 0 <= k < |lists| && b in lists[l] && c in lists[k] && (l != k || b != c) ==>
          Clear(b * g.LevelSize(l), c * g.LevelSize(k)))
  }

  /** The lists in memory are these. */
  ghost predicate InMemory(g: Geometry, heads: seq<int>, lists: seq<seq<nat>>, m: Memory) {
    |lists| == |heads| && forall l :: 0 <= l < |heads| ==> Linked(m, heads[l], Pointers(lists[l], g.LevelSize(l)))
  }

  /** Address `a` is a word of a list head or of a listed node. */
  ghost predicate UsedBy(g: Geometry, heads: seq<int>, lists: seq<seq<nat>>, a: int) {
    || (exists l :: 0 <= l < |heads| && InNode(heads[l], a))
    || (exists l, b :: 0 <= l < |lists| && b in lists[l] && InNode(b * g.LevelSize(l), a))
  }

  ghost predicate SameUnused(g: Geometry, heads: seq<int>, lists: seq<seq<nat>>, m: Memory, n: Memory) {
    forall a :: !UsedBy(g, heads, lists, a) ==> Read(n, a) == Read(m, a)
  }

  lemma LevelClear(g: Geometry, heads: seq<int>, lists: seq<seq<nat>>, l: nat)
    requires HeadsPlaced(g, heads) && Spread(g, lists) && l < g.nLevels
    ensures AllClear(heads[l], Pointers(lists[l], g.LevelSize(l)))
  {
    var nodes := Pointers(lists[l], g.LevelSize(l));
    forall i, j | 0 <= i < j <= |nodes| ensures Clear(RingAt(heads[l], nodes, i), RingAt(heads[l], nodes, j)) {
      assert lists[l][j - 1] in lists[l];
      if i > 0 {
        assert lists[l][i - 1] in lists[l] && lists[l][i - 1] != lists[l][j - 1];
      }
    }
  }

  /** The rings of two levels have no word in common. */
  lemma LevelsApart(g: Geometry, heads: seq<int>, lists: seq<seq<nat>>, l: nat, k: nat, a: int)
    requires HeadsPlaced(g, heads) && Spread(g, lists) && l < g.nLevels && k < g.nLevels && l != k
    requires InRing(heads[l], Pointers(lists[l], g.LevelSize(l)), a)
    ensures !InRing(heads[k], Pointers(lists[k], g.LevelSize(k)), a)
  {
    var p, q := Pointers(lists[l], g.LevelSize(l)), Pointers(lists[k], g.LevelSize(k));
    assert Clear(heads[l], heads[k]) by { assert l < k ==> Clear(heads[l], heads[k]); }
    forall j | 0 <= j < |q| ensures !InNode(q[j], a) {
      assert lists[k][j] in lists[k];
      forall i | 0 <= i < |p| && InNode(p[i], a) ensures Clear(p[i], q[j]) {
        assert lists[l][i] in lists[l];
      }
    }
    forall i | 0 <= i < |p| && InNode(p[i], a) ensures !InNode(heads[k], a) {
      assert lists[l][i] in lists[l];
    }
  }

  lemma RingUsed(g: Geometry, heads: seq<int>, lists: seq<seq<nat>>, l: nat, a: int)
    requires l < |heads| == |lists| && InRing(heads[l], Pointers(lists[l], g.LevelSize(l)), a)
    ensures UsedBy(g, heads, lists, a)
  {
    if !InNode(heads[l], a) {
      var i :| 0 <= i < |lists[l]| && InNode(Pointers(lists[l], g.LevelSize(l))[i], a);
      assert lists[l][i] in lists[l];
    }
  }

  /** A change within the ring of one level leaves the other lists alone. */
  lemma OneRingChanged(g: Geometry, heads: seq<int>, lists: seq<seq<nat>>, m: Memory, l: nat, list: seq<nat>, n: Memory)
    requires HeadsPlaced(g, heads) && l < g.nLevels && InMemory(g, heads, lists, m) && Spread(g, lists[l := list])
    requires Linked(n, heads[l], Pointers(list, g.LevelSize(l)))
    requires SameOutside(m, n, heads[l], Pointers(list, g.LevelSize(l)))
    ensures InMemory(g, heads, lists[l := list], n) && SameUnused(g, heads, lists[l := list], m, n)
  {
    var after := lists[l := list];
    forall k | 0 <= k < |heads| && k != l ensures Linked(n, heads[k], Pointers(after[k], g.LevelSize(k))) {
      forall a | InRing(heads[k], Pointers(after[k], g.LevelSize(k)), a) ensures Read(n, a) == Read(m, a) {
        LevelsApart(g, heads, after, k, l, a);
      }
      StillLinked(m, n, heads[k], Pointers(lists[k], g.LevelSize(k)));
    }
    forall a | !UsedBy(g, heads, after, a) ensures Read(n, a) == Read(m, a) {
      if InRing(heads[l], Pointers(list, g.LevelSize(l)), a) {
        RingUsed(g, heads, after, l, a);
      }
    }
  }

  lemma AppendOn(g: Geometry, heads: seq<int>, lists: seq<seq<nat>>, m: Memory, l: nat, b: nat)
    requires HeadsPlaced(g, heads) && l < g.nLevels && InMemory(g, heads, lists, m) && Spread(g, lists[l := lists[l] + [b]])
    ensures InMemory(g, heads, lists[l := lists[l] + [b]], Append(m, heads[l], b * g.LevelSize(l)))
    ensures SameUnused(g, heads, lists[l := lists[l] + [b]], m, Append(m, heads[l], b * g.LevelSize(l)))
  {
    var list, size := lists[l] + [b], g.LevelSize(l);
    LevelClear(g, heads, lists[l := list], l);
    assert Pointers(list, size) == Pointers(lists[l], size) + [b * size];
    AppendLinked(m, heads[l], Pointers(lists[l], size), b * size);
    OneRingChanged(g, heads, lists, m, l, list, Append(m, heads[l], b * size));
  }

  /** Fewer nodes are spread as well. */
  lemma FewerSpread(g: Geometry, lists: seq<seq<nat>>, l: nat, list: seq<nat>)
    requires l < |lists| && Spread(g, lists) && NoRepeats(list) && forall b :: b in list ==> b in lists[l]
    ensures Spread(g, lists[l := list])
  {
    var after := lists[l := list];
    assert forall k, b :: 0 <= k < |lists| && b in after[k] ==> b in lists[k];
  }

  function Dropped(list: seq<nat>, k: nat): seq<nat>
    requires k < |list|
  {
    list[..k] + list[k + 1..]
  }

  lemma DropNoRepeats(list: seq<nat>, k: nat)
    requires NoRepeats(list) && k < |list|
    ensures NoRepeats(Dropped(list, k)) && forall b :: b in Dropped(list, k) <==> b in list && b != list[k]
  {
    forall b ensures b in Dropped(list, k) <==> b in list && b != list[k] {
      if b in list && b != list[k] {
        var i :| 0 <= i < |list| && list[i] == b;
        assert Dropped(list, k)[if i < k then i else i - 1] == b;
      }
    }
  }

  lemma RemoveOn(g: Geometry, heads: seq<int>, lists: seq<seq<nat>>, m: Memory, l: nat, k: nat)
    requires HeadsPlaced(g, heads) && l < g.nLevels && InMemory(g, heads, lists, m) && Spread(g, lists) && k < |lists[l]|
    ensures var after := lists[l := Dropped(lists[l], k)];
            var n := Remove(m, lists[l][k] * g.LevelSize(l));
            InMemory(g, heads, after, n) && Spread(g, after) && SameUnused(g, heads, after, m, n)
  {
    var size, list := g.LevelSize(l), Dropped(lists[l], k);
    LevelClear(g, heads, lists, l);
    DropNoRepeats(lists[l], k);
    FewerSpread(g, lists, l, list);
    assert Pointers(list, size) == Without(Pointers(lists[l], size), k);
    RemoveLinked(m, heads[l], Pointers(lists[l], size), k);
    OneRingChanged(g, heads, lists, m, l, list, Remove(m, lists[l][k] * size));
  }

  // ---------- the lists of a proper state ----------

  /** In a pool of `SoundIff`, the listed blocks have their nodes apart. */
  lemma StateSpread(g: Geometry, s: State)
    requires Sound(g) && Inv(Grid(g), s) && s.cap == Caps(g)
    ensures Spread(g, s.lists)
  {
    forall l | 0 <= l < |s.lists| ensures NoRepeats(s.lists[l]) {
      assert ListAgrees(s, l);
    }
    forall l, b | 0 <= l < |s.lists| && b in s.lists[l] ensures b * g.LevelSize(l) + NODE_SIZE <= Bytes(g) {
      ListedFits(g, s, l, b);
    }
    forall l, k, b, c | 0 <= l < |s.lists| && 0 <= k < |s.lists| && b in s.lists[l] && c in s.lists[k] && (l != k || b != c)
      ensures Clear(b * g.LevelSize(l), c * g.LevelSize(k))
    {
      ListedFits(g, s, l, b);
      ListedFits(g, s, k, c);
      BlocksApart(g, s, Block(l, b), Block(k, c));
    }
  }

  lemma ListedFits(g: Geometry, s: State, l: nat, b: nat)
    requires Sound(g) && Inv(Grid(g), s) && s.cap == Caps(g) && l < |s.lists| && b in s.lists[l]
    ensures Block(l, b) in s.free && b < Limit(s.cap, l) && Fits(g, l, b * g.LevelSize(l))
    ensures NODE_SIZE <= g.LevelSize(l)
  {
    assert ListAgrees(s, l);
    FitsByNumber(g, Block(l, b));
    SizesShrink(g, l, g.nLevels - 1);
  }

  /** The same list in the whole of the lists. */
  lemma MoreUnused(g: Geometry, heads: seq<int>, lists: seq<seq<nat>>, more: seq<seq<nat>>, m: Memory, n: Memory)
    requires |lists| == |more| && forall l, b :: 0 <= l < |lists| && b in lists[l] ==> b in more[l]
    requires SameUnused(g, heads, lists, m, n)
    ensures SameUnused(g, heads, more, m, n)
  {
    forall a | !UsedBy(g, heads, more, a) ensures !UsedBy(g, heads, lists, a) {
      forall l, b | 0 <= l < |lists| && b in lists[l] ensures !InNode(b * g.LevelSize(l), a) {
        assert b in more[l];
      }
    }
  }

  // ---------- listing ----------

  lemma ListOne(g: Geometry, heads: seq<int>, lists: seq<seq<nat>>, m: Memory, l: nat, b: nat, a: nat)
    requires Defined(g) && HeadsPlaced(g, heads) && l < g.nLevels && InMemory(g, heads, lists, m) && a == b * g.LevelSize(l)
    requires Spread(g, lists[l := Listed(lists[l], b, Limit(Caps(g), l))])
    ensures var after, n := lists[l := Listed(lists[l], b, Limit(Caps(g), l))], ListedMem(g, heads[l], l, a, m);
            InMemory(g, heads, after, n) && SameUnused(g, heads, after, m, n)
  {
    CapIff(g, l, b);
    if Fits(g, l, a) {
      AppendOn(g, heads, lists, m, l, b);
    } else {
      assert lists[l := lists[l]] == lists;
    }
  }

  /** The lists when the quarters 1 to `n` of block `b` are listed at level `l`. */
  function WithQuarters(g: Geometry, lists: seq<seq<nat>>, l: nat, b: nat, n: nat): seq<seq<nat>>
    requires l < |lists|
  {
    lists[l := ListedQuarters(lists[l], b, n, Limit(Caps(g), l))]
  }

  lemma QuartersOnceLess(g: Geometry, lists: seq<seq<nat>>, l: nat, b: nat, n: nat)
    requires l < |lists| && n > 0 && Spread(g, WithQuarters(g, lists, l, b, n))
    ensures Spread(g, WithQuarters(g, lists, l, b, n - 1))
    ensures forall c :: c in WithQuarters(g, lists, l, b, n - 1)[l] ==> c in WithQuarters(g, lists, l, b, n)[l]
  {
    var fewer, more := ListedQuarters(lists[l], b, n - 1, Limit(Caps(g), l)), ListedQuarters(lists[l], b, n, Limit(Caps(g), l));
    assert fewer <= more;
    assert NoRepeats(more) by { assert WithQuarters(g, lists, l, b, n)[l] == more; }
    FewerSpread(g, WithQuarters(g, lists, l, b, n), l, fewer);
    assert WithQuarters(g, lists, l, b, n)[l := fewer] == WithQuarters(g, lists, l, b, n - 1);
  }

  lemma {:induction false} QuartersOn(g: Geometry, heads: seq<int>, lists: seq<seq<nat>>, m: Memory, l: nat, b: nat, a: nat, n: nat)
    requires Defined(g) && HeadsPlaced(g, heads) && l < g.nLevels && InMemory(g, heads, lists, m) && a == 4 * b * g.LevelSize(l)
    requires Spread(g, WithQuarters(g, lists, l, b, n))
    ensures var after, mem := WithQuarters(g, lists, l, b, n), QuartersMem(g, heads[l], l, a, n, m);
            InMemory(g, heads, after, mem) && SameUnused(g, heads, after, m, mem)
  {
    if n == 0 {
      assert WithQuarters(g, lists, l, b, 0) == lists;
    } else {
      QuartersOnceLess(g, lists, l, b, n);
      QuartersOn(g, heads, lists, m, l, b, a, n - 1);
      var c, mem := NthAt(g, l, a, n), QuartersMem(g, heads[l], l, a, n - 1, m);
      QuarterSum(b, n, g.LevelSize(l));
      QuarterTurn(g, heads, lists, m, l, b, n, c, mem);
      assert QuartersMem(g, heads[l], l, a, n, m) == ListedMem(g, heads[l], l, c, mem);
    }
  }

  lemma QuarterTurn(g: Geometry, heads: seq<int>, lists: seq<seq<nat>>, m: Memory, l: nat, b: nat, n: nat, c: nat, mem: Memory)
    requires Defined(g) && HeadsPlaced(g, heads) && l < g.nLevels == |lists| && n > 0 && c == (4 * b + n) * g.LevelSize(l)
    requires Spread(g, WithQuarters(g, lists, l, b, n)) && SameUnused(g, heads, WithQuarters(g, lists, l, b, n - 1), m, mem)
    requires InMemory(g, heads, WithQuarters(g, lists, l, b, n - 1), mem)
    ensures var after, next := WithQuarters(g, lists, l, b, n), ListedMem(g, heads[l], l, c, mem);
            InMemory(g, heads, after, next) && SameUnused(g, heads, after, m, next)
  {
    var before, after := WithQuarters(g, lists, l, b, n - 1), WithQuarters(g, lists, l, b, n);
    QuartersOnceLess(g, lists, l, b, n);
    MoreUnused(g, heads, before, after, m, mem);
    assert after == before[l := Listed(before[l], 4 * b + n, Limit(Caps(g), l))];
    ListOne(g, heads, before, mem, l, 4 * b + n, c);
    SameTwice(g, heads, after, m, mem, ListedMem(g, heads[l], l, c, mem));
  }

  // ---------- unlinking ----------

  /** The list without the first `n` members of a quad. */
  function WithoutFirst(list: seq<nat>, q: nat, n: nat): (r: seq<nat>)
    ensures forall b :: b in r <==> b in list && !(b / 4 == q && b % 4 < n)
  {
    if list == [] then []
    else if list[0] / 4 == q && list[0] % 4 < n then WithoutFirst(list[1..], q, n)
    else [list[0]] + WithoutFirst(list[1..], q, n)
  }

  lemma {:induction false} WithoutFirstNone(list: seq<nat>, q: nat)
    ensures WithoutFirst(list, q, 0) == list && WithoutFirst(list, q, 4) == WithoutQuad(list, q)
  {
    if list != [] {
      WithoutFirstNone(list[1..], q);
    }
  }

  lemma {:induction false} WithoutFirstNext(list: seq<nat>, q: nat, n: nat)
    requires NoRepeats(list) && n < 4
    ensures 4 * q + n !in list ==> WithoutFirst(list, q, n + 1) == WithoutFirst(list, q, n)
    ensures forall k :: 0 <= k < |WithoutFirst(list, q, n)| && WithoutFirst(list, q, n)[k] == 4 * q + n ==>
              Dropped(WithoutFirst(list, q, n), k) == WithoutFirst(list, q, n + 1)
  {
    if list != [] {
      var first, rest := list[0], list[1..];
      WithoutFirstNext(rest, q, n);
      assert first !in rest;
      var r, after := WithoutFirst(rest, q, n), WithoutFirst(list, q, n + 1);
      if !(first / 4 == q && first % 4 < n) {
        forall k | 0 <= k <= |r| && ([first] + r)[k] == 4 * q + n ensures Dropped([first] + r, k) == after {
          if k == 0 {
            assert 4 * q + n !in rest;
          } else {
            assert r[k - 1] in rest;
          }
          DropBehind(first, r, k);
        }
      }
    }
  }

  lemma DropBehind(first: nat, r: seq<nat>, k: nat)
    requires k <= |r|
    ensures Dropped([first] + r, k) == if k == 0 then r else [first] + Dropped(r, k - 1)
  {
  }

  /** The lists after `n` turns of the merging loop. */
  function AfterTurns(lists: seq<seq<nat>>, l: nat, q: nat, n: nat): seq<seq<nat>>
    requires l < |lists|
  {
    lists[l := WithoutFirst(lists[l], q, n)]
  }

  /** Exactly the other members of the quad that fit are listed. */
  ghost predicate QuadListed(g: Geometry, list: seq<nat>, l: nat, bn: nat) {
    forall b: nat :: b / 4 == bn / 4 ==> (b in list <==> b != bn && b < Limit(Caps(g), l))
  }

  lemma {:induction false} UnlinkOn(g: Geometry, heads: seq<int>, lists: seq<seq<nat>>, m: Memory, l: nat, bn: nat, n: nat)
    requires Defined(g) && HeadsPlaced(g, heads) && l < g.nLevels && InMemory(g, heads, lists, m) && Spread(g, lists)
    requires QuadListed(g, lists[l], l, bn) && n <= 4
    ensures var after, mem := AfterTurns(lists, l, bn / 4, n), UnlinkedMem(g, l, bn, n, m);
            InMemory(g, heads, after, mem) && Spread(g, after) && SameUnused(g, heads, lists, m, mem)
  {
    if n == 0 {
      WithoutFirstNone(lists[l], bn / 4);
      assert AfterTurns(lists, l, bn / 4, 0) == lists;
    } else {
      var mem := UnlinkedMem(g, l, bn, n - 1, m);
      UnlinkOn(g, heads, lists, m, l, bn, n - 1);
      UnlinkTurn(g, heads, lists, m, l, bn, n - 1, mem);
      assert UnlinkedMem(g, l, bn, n, m) == UnlinkedNext(g, l, bn, n - 1, mem);
    }
  }

  lemma UnlinkTurn(g: Geometry, heads: seq<int>, lists: seq<seq<nat>>, m: Memory, l: nat, bn: nat, n: nat, mem: Memory)
    requires Defined(g) && HeadsPlaced(g, heads) && l < g.nLevels && |lists| == g.nLevels && NoRepeats(lists[l])
    requires QuadListed(g, lists[l], l, bn) && n < 4 && SameUnused(g, heads, lists, m, mem)
    requires InMemory(g, heads, AfterTurns(lists, l, bn / 4, n), mem) && Spread(g, AfterTurns(lists, l, bn / 4, n))
    ensures var after, next := AfterTurns(lists, l, bn / 4, n + 1), UnlinkedNext(g, l, bn, n, mem);
            InMemory(g, heads, after, next) && Spread(g, after) && SameUnused(g, heads, lists, m, next)
  {
    UnlinkedNextIs(g, lists[l], l, bn, n, mem);
    TurnOn(g, heads, lists, m, l, bn / 4, n, mem, UnlinkedNext(g, l, bn, n, mem));
  }

  /** A turn unlinks the block exactly if it is listed. */
  lemma UnlinkedNextIs(g: Geometry, list: seq<nat>, l: nat, bn: nat, n: nat, m: Memory)
    requires Defined(g) && l < g.nLevels && QuadListed(g, list, l, bn) && n < 4
    ensures var b := 4 * (bn / 4) + n;
            UnlinkedNext(g, l, bn, n, m) == if b in list then Remove(m, Address(g, Block(l, b))) else m
  {
    CapIff(g, l, 4 * (bn / 4) + n);
  }

  lemma TurnOn(g: Geometry, heads: seq<int>, lists: seq<seq<nat>>, m: Memory, l: nat, q: nat, n: nat, mem: Memory, next: Memory)
    requires HeadsPlaced(g, heads) && l < g.nLevels && |lists| == g.nLevels && NoRepeats(lists[l]) && n < 4
    requires SameUnused(g, heads, lists, m, mem)
    requires InMemory(g, heads, AfterTurns(lists, l, q, n), mem) && Spread(g, AfterTurns(lists, l, q, n))
    requires next == if 4 * q + n in lists[l] then Remove(mem, Address(g, Block(l, 4 * q + n))) else mem
    ensures var after := AfterTurns(lists, l, q, n + 1);
            InMemory(g, heads, after, next) && Spread(g, after) && SameUnused(g, heads, lists, m, next)
  {
    if 4 * q + n in lists[l] {
      var k := TurnDrops(lists, l, q, n);
      RemoveListed(g, heads, AfterTurns(lists, l, q, n), mem, l, k, Address(g, Block(l, 4 * q + n)));
      MoreUnused(g, heads, AfterTurns(lists, l, q, n + 1), lists, mem, next);
      SameTwice(g, heads, lists, m, mem, next);
    } else {
      TurnSkips(lists, l, q, n);
    }
  }

  lemma TurnDrops(lists: seq<seq<nat>>, l: nat, q: nat, n: nat) returns (k: nat)
    requires l < |lists| && NoRepeats(lists[l]) && n < 4 && 4 * q + n in lists[l]
    ensures var before := AfterTurns(lists, l, q, n);
            k < |before[l]| && before[l][k] == 4 * q + n && before[l := Dropped(before[l], k)] == AfterTurns(lists, l, q, n + 1)
  {
    WithoutFirstNext(lists[l], q, n);
    k :| 0 <= k < |WithoutFirst(lists[l], q, n)| && WithoutFirst(lists[l], q, n)[k] == 4 * q + n;
  }

  lemma TurnSkips(lists: seq<seq<nat>>, l: nat, q: nat, n: nat)
    requires l < |lists| && NoRepeats(lists[l]) && n < 4 && 4 * q + n !in lists[l]
    ensures AfterTurns(lists, l, q, n + 1) == AfterTurns(lists, l, q, n)
  {
    WithoutFirstNext(lists[l], q, n);
  }

  lemma RemoveListed(g: Geometry, heads: seq<int>, lists: seq<seq<nat>>, m: Memory, l: nat, k: nat, a: nat)
    requires HeadsPlaced(g, heads) && l < g.nLevels && InMemory(g, heads, lists, m) && Spread(g, lists) && k < |lists[l]|
    requires a == Address(g, Block(l, lists[l][k]))
    ensures var after := lists[l := Dropped(lists[l], k)];
            InMemory(g, heads, after, Remove(m, a)) && Spread(g, after) && SameUnused(g, heads, after, m, Remove(m, a))
  {
    RemoveOn(g, heads, lists, m, l, k);
  }

  lemma SameTwice(g: Geometry, heads: seq<int>, lists: seq<seq<nat>>, m: Memory, n: Memory, r: Memory)
    requires SameUnused(g, heads, lists, m, n) && SameUnused(g, heads, lists, n, r)
    ensures SameUnused(g, heads, lists, m, r)
  {
  }

  // ---------- every step ----------

  /** The protocol state is proper, and the lists in memory are its lists. */
  ghost predicate Holds(g: Geometry, heads: seq<int>, s: State, m: Memory) {
    Inv(Grid(g), s) && s.cap == Caps(g) && InMemory(g, heads, s.lists, m)
  }

  lemma AllocOn(g: Geometry, heads: seq<int>, s: State, m: Memory, l: nat)
    requires Sound(g) && HeadsPlaced(g, heads) && Holds(g, heads, s, m) && l < g.nLevels
    ensures IsEmpty(m, heads[l]) <==> s.lists[l] == []
    ensures s.lists[l] != [] ==> Next(m, heads[l]) == s.lists[l][0] * g.LevelSize(l)
    ensures InMemory(g, heads, AllocStep(s, l).lists, Get(m, heads[l]))
    ensures SameUnused(g, heads, s.lists, m, Get(m, heads[l]))
  {
    StateSpread(g, s);
    LevelClear(g, heads, s.lists, l);
    FirstIs(m, heads[l], Pointers(s.lists[l], g.LevelSize(l)));
    if s.lists[l] != [] {
      RemoveOn(g, heads, s.lists, m, l, 0);
      assert Dropped(s.lists[l], 0) == s.lists[l][1..];
      MoreUnused(g, heads, AllocStep(s, l).lists, s.lists, m, Get(m, heads[l]));
    }
  }

  lemma BreakOn(g: Geometry, heads: seq<int>, s: State, m: Memory, l: nat, b: nat)
    requires Sound(g) && HeadsPlaced(g, heads) && Holds(g, heads, s, m) && Enabled(g, s, Break(l, b))
    ensures var t, n := BreakStep(s, l, b), ApplyMem(g, heads, s, Break(l, b), m);
            InMemory(g, heads, t.lists, n) && SameUnused(g, heads, t.lists, m, n)
  {
    GridExact(g);
    BreakKeepsInv(Grid(g), s, l, b);
    StateSpread(g, BreakStep(s, l, b));
    var t, a := BreakStep(s, l, b), Address(g, Block(l, b));
    assert b < Limit(s.cap, l);
    QuarterStart(g, l, b);
    assert t.lists == WithQuarters(g, s.lists, l + 1, b, 3);
    QuartersOn(g, heads, s.lists, m, l + 1, b, a, 3);
  }

  lemma FreeOn(g: Geometry, heads: seq<int>, s: State, m: Memory, l: nat, b: nat)
    requires Sound(g) && HeadsPlaced(g, heads) && Holds(g, heads, s, m) && Enabled(g, s, Free(l, b)) && !Merges(s, l, b)
    ensures var t, n := FreeStep(s, l, b), ApplyMem(g, heads, s, Free(l, b), m);
            InMemory(g, heads, t.lists, n) && SameUnused(g, heads, t.lists, m, n)
  {
    GridExact(g);
    FreeKeepsInv(Grid(g), s, l, b);
    StateSpread(g, FreeStep(s, l, b));
    ListOne(g, heads, s.lists, m, l, b, Address(g, Block(l, b)));
  }

  lemma MergingQuad(g: Geometry, s: State, l: nat, b: nat)
    requires Inv(Grid(g), s) && s.cap == Caps(g) && l < g.nLevels && Block(l, b) in s.held && Merges(s, l, b)
    ensures QuadListed(g, s.lists[l], l, b)
  {
    assert ListAgrees(s, l);
    forall c: nat | c / 4 == b / 4 ensures c in s.lists[l] <==> c != b && c < Limit(Caps(g), l) {
      QuadMembers(l, b / 4, c);
    }
  }

  lemma MergeOn(g: Geometry, heads: seq<int>, s: State, m: Memory, l: nat, b: nat)
    requires Sound(g) && HeadsPlaced(g, heads) && Holds(g, heads, s, m) && Enabled(g, s, Free(l, b)) && Merges(s, l, b)
    ensures var t, n := FreeStep(s, l, b), ApplyMem(g, heads, s, Free(l, b), m);
            InMemory(g, heads, t.lists, n) && SameUnused(g, heads, s.lists, m, n)
  {
    StateSpread(g, s);
    MergingQuad(g, s, l, b);
    UnlinkOn(g, heads, s.lists, m, l, b, 4);
    WithoutFirstNone(s.lists[l], b / 4);
  }

  /** Every step leaves the lists of the next state in memory, and writes only to nodes listed before or after it. */
  lemma StepOn(g: Geometry, heads: seq<int>, s: State, m: Memory, step: Step)
    requires Sound(g) && HeadsPlaced(g, heads) && Holds(g, heads, s, m) && Enabled(g, s, step)
    ensures Holds(g, heads, Apply(g, s, step), ApplyMem(g, heads, s, step, m))
    ensures SameUnused(g, heads, s.lists, m, ApplyMem(g, heads, s, step, m))
            || SameUnused(g, heads, Apply(g, s, step).lists, m, ApplyMem(g, heads, s, step, m))
  {
    GridExact(g);
    StepKeepsInv(Grid(g), s, step);
    match step
    case Alloc(l) => AllocOn(g, heads, s, m, l);
    case Break(l, b) => BreakOn(g, heads, s, m, l, b);
    case Free(l, b) => if Merges(s, l, b) { MergeOn(g, heads, s, m, l, b); } else { FreeOn(g, heads, s, m, l, b); }
  }

  // ---------- held blocks ----------

  /** No node lies in a held block. */
  lemma HeldUnused(g: Geometry, heads: seq<int>, s: State, x: Block, a: nat)
    requires Sound(g) && HeadsPlaced(g, heads) && Inv(Grid(g), s) && s.cap == Caps(g) && x in s.held && InBlock(g, x, a)
    ensures !UsedBy(g, heads, s.lists, a)
  {
    HeldFits(g, s, x);
    forall l, b | 0 <= l < |s.lists| && b in s.lists[l] ensures !InNode(b * g.LevelSize(l), a) {
      ListedFits(g, s, l, b);
      BlocksApart(g, s, x, Block(l, b));
    }
  }

  /** A word in a block that is held before and after a step is not written by it. */
  lemma HeldKept(g: Geometry, heads: seq<int>, s: State, m: Memory, step: Step, x: Block, y: Block, a: nat)
    requires Sound(g) && HeadsPlaced(g, heads) && Holds(g, heads, s, m) && Enabled(g, s, step)
    requires x in s.held && InBlock(g, x, a) && y in Apply(g, s, step).held && InBlock(g, y, a)
    ensures Read(ApplyMem(g, heads, s, step, m), a) == Read(m, a)
  {
    StepOn(g, heads, s, m, step);
    HeldUnused(g, heads, s, x, a);
    HeldUnused(g, heads, Apply(g, s, step), y, a);
  }

  // ---------- whole runs ----------

  /** A step of the pool, or a word that a thread writes into a block that it holds. */
  datatype Action = Do(step: Step) | Write(x: Block, a: nat, v: int)

  datatype Machine = Machine(s: State, mem: Memory)

  predicate Allowed(g: Geometry, mc: Machine, act: Action) {
    match act
    case Do(step) => Enabled(g, mc.s, step)
    case Write(x, a, v) => x in mc.s.held && InBlock(g, x, a) && a % 4 == 0
  }

  function Act(g: Geometry, heads: seq<int>, mc: Machine, act: Action): Machine
    requires |heads| == g.nLevels && Allowed(g, mc, act)
  {
    match act
    case Do(step) => Machine(Apply(g, mc.s, step), ApplyMem(g, heads, mc.s, step, mc.mem))
    case Write(x, a, v) => mc.(mem := mc.mem[a := v])
  }

  ghost predicate ActsTo(g: Geometry, heads: seq<int>, mc: Machine, acts: seq<Action>, end: Machine)
    requires |heads| == g.nLevels
    decreases |acts|
  {
    if acts == [] then mc == end
    else Allowed(g, mc, acts[0]) && ActsTo(g, heads, Act(g, heads, mc, acts[0]), acts[1..], end)
  }

  lemma WriteOn(g: Geometry, heads: seq<int>, s: State, m: Memory, x: Block, a: nat, v: int)
    requires Sound(g) && HeadsPlaced(g, heads) && Holds(g, heads, s, m) && x in s.held && InBlock(g, x, a)
    ensures Holds(g, heads, s, m[a := v])
  {
    HeldUnused(g, heads, s, x, a);
    forall l | 0 <= l < |heads| ensures Linked(m[a := v], heads[l], Pointers(s.lists[l], g.LevelSize(l))) {
      if InRing(heads[l], Pointers(s.lists[l], g.LevelSize(l)), a) {
        RingUsed(g, heads, s.lists, l, a);
      }
      StillLinked(m, m[a := v], heads[l], Pointers(s.lists[l], g.LevelSize(l)));
    }
  }

  lemma ActOn(g: Geometry, heads: seq<int>, mc: Machine, act: Action)
    requires Sound(g) && HeadsPlaced(g, heads) && Holds(g, heads, mc.s, mc.mem) && Allowed(g, mc, act)
    ensures var end := Act(g, heads, mc, act); Holds(g, heads, end.s, end.mem)
  {
    match act
    case Do(step) => StepOn(g, heads, mc.s, mc.mem, step);
    case Write(x, a, v) => WriteOn(g, heads, mc.s, mc.mem, x, a, v);
  }

  /** However threads interleave their steps and whatever they write into their blocks, the lists in memory stay right. */
  lemma {:induction false} RunOn(g: Geometry, heads: seq<int>, mc: Machine, acts: seq<Action>, end: Machine)
    requires Sound(g) && HeadsPlaced(g, heads) && Holds(g, heads, mc.s, mc.mem) && ActsTo(g, heads, mc, acts, end)
    ensures Holds(g, heads, end.s, end.mem)
    decreases |acts|
  {
    if acts != [] {
      ActOn(g, heads, mc, acts[0]);
      RunOn(g, heads, Act(g, heads, mc, acts[0]), acts[1..], end);
    }
  }

  /** The action is one of the thread that holds block `x`, on that block. */
  predicate Concerns(act: Action, x: Block) {
    match act
    case Do(Alloc(_)) => false
    case Do(Break(l, b)) => x == Block(l, b)
    case Do(Free(l, b)) => x == Block(l, b)
    case Write(y, _, _) => x == y
  }

  lemma OthersKeep(g: Geometry, heads: seq<int>, mc: Machine, act: Action, x: Block, a: nat)
    requires Sound(g) && HeadsPlaced(g, heads) && Holds(g, heads, mc.s, mc.mem) && Allowed(g, mc, act)
    requires x in mc.s.held && !Concerns(act, x) && InBlock(g, x, a)
    ensures var end := Act(g, heads, mc, act); x in end.s.held && Read(end.mem, a) == Read(mc.mem, a)
  {
    match act
    case Do(step) => HeldKept(g, heads, mc.s, mc.mem, step, x, x, a);
    case Write(y, c, v) =>
      HeldFits(g, mc.s, x);
      HeldFits(g, mc.s, y);
      BlocksApart(g, mc.s, x, y);
  }

  /**
    A block stays with the thread that holds it, and keeps its contents, through any number of actions of
    other threads.
   */
  lemma {:induction false} ContentsKept(g: Geometry, heads: seq<int>, mc: Machine, acts: seq<Action>, end: Machine, x: Block, a: nat)
    requires Sound(g) && HeadsPlaced(g, heads) && Holds(g, heads, mc.s, mc.mem) && ActsTo(g, heads, mc, acts, end)
    requires x in mc.s.held && InBlock(g, x, a) && forall i :: 0 <= i < |acts| ==> !Concerns(acts[i], x)
    ensures x in end.s.held && Read(end.mem, a) == Read(mc.mem, a)
    decreases |acts|
  {
    if acts != [] {
      ActOn(g, heads, mc, acts[0]);
      OthersKeep(g, heads, mc, acts[0], x, a);
      ContentsKept(g, heads, Act(g, heads, mc, acts[0]), acts[1..], end, x, a);
    }
  }

  // ---------- a new pool ----------

  lemma {:induction false} EmptyOn(g: Geometry, heads: seq<int>, n: nat, m: Memory)
    requires HeadsPlaced(g, heads) && n <= |heads|
    ensures forall l :: 0 <= l < n ==> Linked(EmptyMem(heads, n, m), heads[l], [])
  {
    if n > 0 {
      EmptyOn(g, heads, n - 1, m);
      var mem := EmptyMem(heads, n - 1, m);
      InitLinked(mem, heads[n - 1]);
      forall l | 0 <= l < n - 1 ensures Linked(EmptyMem(heads, n, m), heads[l], []) {
        assert Clear(heads[l], heads[n - 1]);
        StillLinked(mem, EmptyMem(heads, n, m), heads[l], []);
      }
    }
  }

  lemma {:induction false} TopOn(g: Geometry, heads: seq<int>, n: nat, m: Memory)
    requires Sound(g) && HeadsPlaced(g, heads) && n <= g.nMax && InMemory(g, heads, TopLists(g, 0), m)
    ensures InMemory(g, heads, TopLists(g, n), TopMem(g, heads[0], n, m))
  {
    if n > 0 {
      TopOn(g, heads, n - 1, m);
      Align4Fixed(g.maxSz);
      var lists := TopLists(g, n - 1);
      assert lists[0 := lists[0] + [n - 1]] == TopLists(g, n) by {
        assert UpTo(n - 1) + [n - 1] == UpTo(n);
      }
      TopSpread(g, n);
      AppendOn(g, heads, lists, TopMem(g, heads[0], n - 1, m), 0, n - 1);
    }
  }

  lemma TopSpread(g: Geometry, n: nat)
    requires Sound(g) && n <= g.nMax
    ensures Spread(g, TopLists(g, n))
  {
    GridExact(g);
    CapsRoomy(g);
    InitInv(Grid(g), Caps(g));
    StateSpread(g, Init(Grid(g), Caps(g)));
    var all := TopLists(g, g.nMax);
    assert all == Init(Grid(g), Caps(g)).lists;
    forall b | b in UpTo(n) ensures b in all[0] {
      assert all[0][b] == b;
    }
    FewerSpread(g, all, 0, UpTo(n));
    assert all[0 := UpTo(n)] == TopLists(g, n);
  }

  /** The memory that `init_mem_pool` leaves. */
  function InitMem(g: Geometry, heads: seq<int>, m: Memory): Memory
    requires |heads| == g.nLevels > 0
  {
    TopMem(g, heads[0], g.nMax, EmptyMem(heads, g.nLevels, m))
  }

  /** A new pool has its lists in memory, whatever was there before. */
  lemma InitOn(g: Geometry, heads: seq<int>, m: Memory)
    requires Sound(g) && HeadsPlaced(g, heads)
    ensures Holds(g, heads, Init(Grid(g), Caps(g)), InitMem(g, heads, m))
  {
    EmptyOn(g, heads, g.nLevels, m);
    assert InMemory(g, heads, TopLists(g, 0), EmptyMem(heads, g.nLevels, m)) by {
      assert forall l :: 0 <= l < g.nLevels ==> Pointers(TopLists(g, 0)[l], g.LevelSize(l)) == [];
    }
    TopOn(g, heads, g.nMax, EmptyMem(heads, g.nLevels, m));
    GridExact(g);
    CapsRoomy(g);
    InitInv(Grid(g), Caps(g));
    assert TopLists(g, g.nMax) == Init(Grid(g), Caps(g)).lists;
  }

  // ---------- a pool without room for nodes ----------

  const TINY: Geometry := Geometry(1, 16, 2)

  lemma TinySizes()
    ensures Defined(TINY) && TINY.Exact() && Bytes(TINY) == 16 && TINY.LevelSize(0) == 16 && TINY.LevelSize(1) == 4
    ensures !NodesFit(TINY)
  {
    assert Pow4(2) == 16 && Pow4(1) == 4;
    NodesFitIff(TINY);
  }

  /** The block of a new pool is taken; the second list is still empty. */
  lemma TinyTaken(heads: seq<int>, m: Memory)
    requires HeadsPlaced(TINY, heads)
    ensures Next(InitMem(TINY, heads, m), heads[0]) == 0
    ensures Linked(Get(InitMem(TINY, heads, m), heads[0]), heads[1], [])
  {
    TinySizes();
    var empty := EmptyMem(heads, 2, m);
    EmptyOn(TINY, heads, 2, m);
    assert Clear(heads[0], heads[1]);
    assert [] + [0] == [0];
    AppendLinked(empty, heads[0], [], 0);
    var full := Append(empty, heads[0], 0);
    assert TopMem(TINY, heads[0], 1, empty) == full by { assert TopMem(TINY, heads[0], 0, empty) == empty; }
    FirstIs(full, heads[0], [0]);
    RemoveLinked(full, heads[0], [0], 0);
    assert NodeLists.Without([0], 0) == [];
    StillLinked(empty, full, heads[1], []);
    StillLinked(full, Remove(full, 0), heads[1], []);
  }

  lemma TinyQuarters(list: int, m: Memory)
    ensures QuartersMem(TINY, list, 1, 0, 3, m) == Append(Append(Append(m, list, 4), list, 8), list, 12)
  {
    TinySizes();
    assert QuartersMem(TINY, list, 1, 0, 0, m) == m;
    assert QuartersMem(TINY, list, 1, 0, 1, m) == Append(m, list, 4);
    assert QuartersMem(TINY, list, 1, 0, 2, m) == Append(Append(m, list, 4), list, 8);
  }

  /** Three nodes of eight bytes, four bytes apart: the last one reaches behind the buffer. */
  lemma TinyBroken(list: int, m: Memory)
    requires Linked(m, list, []) && (list + NODE_SIZE <= 0 || 16 <= list)
    ensures var broken := Append(Append(Append(m, list, 4), list, 8), list, 12);
            && Read(broken, 16) == 8
            && (list != 16 ==> Next(broken, list) == 4 && Next(Get(broken, list), list) == 4)
            && (list == 16 ==> Next(broken, list) == 8 && IsEmpty(Get(broken, list), list))
  {
    assert Link(m, RingAt(list, [], 0), RingAt(list, [], 1));
    var m1 := Append(m, list, 4);
    assert Next(m1, list) == 4 && Prev(m1, list) == 4;
    var m2 := Append(m1, list, 8);
    assert Next(m2, list) == 4 && Prev(m2, list) == 8 && Read(m2, 4) == 8;
  }

  /**
    One block of 16 bytes with quarters of four, as the definition macro accepts it: after the block is taken and
    broken, a word behind the buffer is overwritten, and two allocations give the same block to two threads. If the
    list head is that word, the second and the fourth quarter are lost instead.
   */
  lemma SameBlockTwice(heads: seq<int>, m: Memory)
    requires HeadsPlaced(TINY, heads)
    ensures Defined(TINY) && TINY.Exact() && !NodesFit(TINY) && Bytes(TINY) == 16
    ensures var taken := Get(InitMem(TINY, heads, m), heads[0]);
            var broken := QuartersMem(TINY, heads[1], 1, 0, 3, taken);
            var again := Get(broken, heads[1]);
            && Next(InitMem(TINY, heads, m), heads[0]) == 0 && Read(broken, 16) == 8 && !IsEmpty(broken, heads[1])
            && (heads[1] != 16 ==> !IsEmpty(again, heads[1]) && Next(broken, heads[1]) == Next(again, heads[1]) == 4)
            && (heads[1] == 16 ==> Next(broken, heads[1]) == 8 && IsEmpty(again, heads[1]))
  {
    TinySizes();
    TinyTaken(heads, m);
    TinyQuarters(heads[1], Get(InitMem(TINY, heads, m), heads[0]));
    TinyBroken(heads[1], Get(InitMem(TINY, heads, m), heads[0]));
  }
}
