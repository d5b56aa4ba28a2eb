/**
  The scheduler's ready queue: one list per priority, a bitmap of the lists that are not empty
  and a cache of the next thread. It is a fast form of a single queue ordered by priority.
 */
module ReadyQueue {
  import opened WaitQueue

  /** A thread; its priority is counted from the highest, as an index into the lists. */
  type Thread = Waiting<nat>

  // ---------- the lists as one queue ----------

  function Flatten(qs: seq<seq<Thread>>): Queue<nat> {
    if qs == [] then [] else Flatten(qs[..|qs| - 1]) + qs[|qs| - 1]
  }

  /** Each thread is in the list of its priority. */
  predicate Filed(qs: seq<seq<Thread>>) {
    forall p, k :: 0 <= p < |qs| && 0 <= k < |qs[p]| ==> qs[p][k].prio == p
  }

  lemma {:induction false} FlattenConcat(a: seq<seq<Thread>>, b: seq<seq<Thread>>)
    ensures Flatten(a + b) == Flatten(a) + Flatten(b)
  {
    if b == [] {
      assert a + b == a;
    } else {
      var n := |b| - 1;
      FlattenConcat(a, b[..n]);
      assert (a + b)[..|a + b| - 1] == a + b[..n];
    }
  }

  lemma FlattenSplit(qs: seq<seq<Thread>>, p: nat)
    requires p < |qs|
    ensures Flatten(qs) == Flatten(qs[..p]) + qs[p] + Flatten(qs[p + 1..])
  {
    var a, q, b := qs[..p], qs[p], qs[p + 1..];
    SplitAt(qs, p, a, q, b);
    FlattenThree(a, q, b);
  }

  lemma SplitAt(qs: seq<seq<Thread>>, p: nat, a: seq<seq<Thread>>, q: seq<Thread>, b: seq<seq<Thread>>)
    requires p < |qs| && a == qs[..p] && q == qs[p] && b == qs[p + 1..]
    ensures qs == a + [q] + b
  {
  }

  lemma FlattenThree(a: seq<seq<Thread>>, q: seq<Thread>, b: seq<seq<Thread>>)
    ensures Flatten(a + [q] + b) == Flatten(a) + q + Flatten(b)
  {
    FlattenConcat(a + [q], b);
    FlattenConcat(a, [q]);
    FlattenOne(q);
  }

  lemma FlattenOne(q: seq<Thread>)
    ensures Flatten([q]) == q
  {
    assert [q][..0] == [];
  }

  lemma {:induction false} FlattenMember(qs: seq<seq<Thread>>, w: Thread)
    ensures w in Flatten(qs) <==> exists p :: 0 <= p < |qs| && w in qs[p]
  {
    if qs != [] {
      var n := |qs| - 1;
      FlattenMember(qs[..n], w);
      if p :| 0 <= p < |qs| && w in qs[p] {
        if p < n {
          assert w in qs[..n][p];
        }
      }
      if p :| 0 <= p < n && w in qs[..n][p] {
        assert w in qs[p];
      }
    }
  }

  lemma FiledMember(qs: seq<seq<Thread>>, w: Thread)
    requires Filed(qs)
    ensures w in Flatten(qs) <==> 0 <= w.prio < |qs| && w in qs[w.prio]
  {
    FlattenMember(qs, w);
  }

  /** The threads before and behind a list have higher and lower priorities. */
  lemma Around(qs: seq<seq<Thread>>, p: nat)
    requires Filed(qs) && p < |qs|
    ensures forall w :: w in Flatten(qs[..p]) ==> w.prio < p
    ensures forall w :: w in Flatten(qs[p + 1..]) ==> w.prio > p
  {
    forall w | w in Flatten(qs[..p])
      ensures w.prio < p
    {
      FlattenMember(qs[..p], w);
    }
    forall w | w in Flatten(qs[p + 1..])
      ensures w.prio > p
    {
      FlattenMember(qs[p + 1..], w);
    }
  }

  /** Appending to the list of its priority is insertion into the ordered queue. */
  lemma AppendIsInsert(qs: seq<seq<Thread>>, w: Thread)
    requires Filed(qs) && 0 <= w.prio < |qs|
    ensures Flatten(qs[w.prio := qs[w.prio] + [w]]) == Insert(Flatten(qs), w)
  {
    var p := w.prio;
    var a, b := Flatten(qs[..p]), Flatten(qs[p + 1..]);
    FlattenSplit(qs, p);
    FlattenChanged(qs, p, qs[p] + [w]);
    Around(qs, p);
    assert forall x :: x in qs[p] ==> x.prio == p;
    InsertAmong(a, qs[p], b, w);
  }

  lemma InsertAmong(a: Queue<nat>, m: Queue<nat>, b: Queue<nat>, w: Thread)
    requires forall x :: x in a ==> x.prio < w.prio
    requires forall x :: x in m ==> x.prio == w.prio
    requires forall x :: x in b ==> x.prio > w.prio
    ensures Insert(a + m + b, w) == a + (m + [w]) + b
  {
    InsertBetween(a + m, b, w);
    assert a + (m + [w]) + b == a + m + [w] + b;
  }

  /** The queue after one list changes. */
  lemma FlattenChanged(qs: seq<seq<Thread>>, p: nat, q: seq<Thread>)
    requires p < |qs|
    ensures Flatten(qs[p := q]) == Flatten(qs[..p]) + q + Flatten(qs[p + 1..])
  {
    var us := qs[p := q];
    FlattenSplit(us, p);
    assert us[..p] == qs[..p] && us[p + 1..] == qs[p + 1..];
  }

  lemma InsertBetween(a: Queue<nat>, b: Queue<nat>, w: Thread)
    requires (forall x :: x in a ==> x.prio <= w.prio) && forall x :: x in b ==> x.prio > w.prio
    ensures Insert(a + b, w) == a + [w] + b
  {
    assert forall i :: 0 <= i < |a| ==> (a + b)[i] in a;
    assert b != [] ==> (a + b)[|a|] in b;
    PlaceUnique(a + b, w.prio, |a|);
    assert (a + b)[..|a|] == a && (a + b)[|a|..] == b;
  }

  function RemoveFirst(s: Queue<nat>, w: Thread): Queue<nat> {
    if s == [] then [] else if s[0] == w then s[1..] else [s[0]] + RemoveFirst(s[1..], w)
  }

  lemma {:induction false} RemoveFirstConcat(a: Queue<nat>, b: Queue<nat>, w: Thread)
    ensures RemoveFirst(a + b, w) == if w in a then RemoveFirst(a, w) + b else a + RemoveFirst(b, w)
  {
    if a == [] {
      assert a + b == b;
    } else {
      assert (a + b)[0] == a[0] && (a + b)[1..] == a[1..] + b;
      if a[0] != w {
        RemoveFirstConcat(a[1..], b, w);
        assert [a[0]] + (a[1..] + RemoveFirst(b, w)) == a + RemoveFirst(b, w);
        assert w in a <==> w in a[1..];
      }
    }
  }

  /** Taking a thread out of its list takes it out of the ordered queue. */
  lemma RemoveFromList(qs: seq<seq<Thread>>, w: Thread)
    requires Filed(qs) && w in Flatten(qs)
    ensures 0 <= w.prio < |qs| && w in qs[w.prio]
    ensures Flatten(qs[w.prio := RemoveFirst(qs[w.prio], w)]) == RemoveFirst(Flatten(qs), w)
  {
    FiledMember(qs, w);
    var p := w.prio;
    FlattenSplit(qs, p);
    FlattenChanged(qs, p, RemoveFirst(qs[p], w));
    Around(qs, p);
    RemoveFirstConcat(Flatten(qs[..p]) + qs[p], Flatten(qs[p + 1..]), w);
    RemoveFirstConcat(Flatten(qs[..p]), qs[p], w);
  }

  lemma {:induction false} RemoveFirstMember(s: Queue<nat>, w: Thread, x: Thread)
    ensures x in RemoveFirst(s, w) ==> x in s
    ensures x in s && x != w ==> x in RemoveFirst(s, w)
    ensures w in s ==> |RemoveFirst(s, w)| == |s| - 1
  {
    if s != [] {
      RemoveFirstMember(s[1..], w, x);
    }
  }

  /** The first list that is not empty holds the head. */
  lemma HeadIs(qs: seq<seq<Thread>>, p: nat)
    requires p < |qs| && qs[p] != [] && forall k :: 0 <= k < p ==> qs[k] == []
    ensures Flatten(qs) != [] && Flatten(qs)[0] == qs[p][0]
  {
    FlattenSplit(qs, p);
    EmptyLists(qs[..p]);
  }

  lemma {:induction false} EmptyLists(qs: seq<seq<Thread>>)
    requires forall k :: 0 <= k < |qs| ==> qs[k] == []
    ensures Flatten(qs) == []
  {
    if qs != [] {
      EmptyLists(qs[..|qs| - 1]);
    }
  }

  /** `find_lsb_set`, less one. */
  function LowestBit(word: seq<bool>): (n: nat)
    ensures n <= |word|
    ensures forall i :: 0 <= i < n ==> !word[i]
    ensures n < |word| ==> word[n]
  {
    if word == [] || word[0] then 0 else 1 + LowestBit(word[1..])
  }

  // ---------- the simple form: one ordered queue ----------

  function Id(tid: nat): nat { tid }

  /** No thread is in the queue twice, under any priority. */
  ghost predicate Once(q: Queue<nat>) {
    forall tid :: Count(Id, q, tid) <= 1
  }

  datatype Step = Adds(w: Thread) | Removes(w: Thread) | Moves(w: Thread)

  /** A thread is added when it is not in the queue; one thread always stays ready. */
  predicate Allowed(n: nat, q: Queue<nat>, step: Step) {
    match step
    case Adds(w) => 0 <= w.prio < n && Count(Id, q, w.item) == 0
    case Removes(w) => w in q && |q| > 1
    case Moves(w) => w in q
  }

  function Next(q: Queue<nat>, step: Step): Queue<nat> {
    match step
    case Adds(w) => Insert(q, w)
    case Removes(w) => RemoveFirst(q, w)
    case Moves(w) => Insert(RemoveFirst(q, w), w)
  }

  /** Some thread is ready, the highest priority first, each once and with one of `n` priorities. */
  ghost predicate Proper(n: nat, q: Queue<nat>) {
    q != [] && Ordered(q) && Once(q) && forall w :: w in q ==> 0 <= w.prio < n
  }

  lemma {:induction false} RemoveCount(q: Queue<nat>, w: Thread, tid: nat)
    ensures Count(Id, q, tid) == Count(Id, RemoveFirst(q, w), tid) + if w in q && w.item == tid then 1 else 0
  {
    if q != [] {
      RemoveCount(q[1..], w, tid);
    }
  }

  lemma {:induction false} RemoveOrdered(q: Queue<nat>, w: Thread)
    requires Ordered(q)
    ensures Ordered(RemoveFirst(q, w))
  {
    if q != [] && q[0] != w {
      var rest := RemoveFirst(q[1..], w);
      RemoveOrdered(q[1..], w);
      forall j | 0 <= j < |rest|
        ensures q[0].prio <= rest[j].prio
      {
        RemoveFirstMember(q[1..], w, rest[j]);
      }
    }
  }

  /** A thread that is in the queue once is gone when it is removed. */
  lemma OnceRemoved(q: Queue<nat>, w: Thread)
    requires Once(q) && w in q
    ensures Count(Id, RemoveFirst(q, w), w.item) == 0 && w !in RemoveFirst(q, w)
  {
    assert Count(Id, q, w.item) <= 1;
    RemoveCount(q, w, w.item);
    var r := RemoveFirst(q, w);
    if w in r {
      var i :| 0 <= i < |r| && r[i] == w;
      CountMember(Id, r, i);
    }
  }

  lemma InsertProper(n: nat, q: Queue<nat>, w: Thread)
    requires Ordered(q) && Once(q) && (forall x :: x in q ==> 0 <= x.prio < n)
    requires 0 <= w.prio < n && Count(Id, q, w.item) == 0
    ensures Proper(n, Insert(q, w))
  {
    InsertOrdered(q, w);
    forall tid
      ensures Count(Id, Insert(q, w), tid) <= 1
    {
      CountInsert(Id, q, w, tid);
    }
    forall x | x in Insert(q, w)
      ensures 0 <= x.prio < n
    {
      InsertMember(q, w, x);
    }
  }

  lemma OneThread(n: nat, w: Thread)
    requires 0 <= w.prio < n
    ensures Proper(n, [w])
  {
    InsertProper(n, [], w);
    assert Insert([], w) == [w];
  }

  lemma RemoveProper(n: nat, q: Queue<nat>, w: Thread)
    requires Proper(n, q) && w in q
    ensures var r := RemoveFirst(q, w);
            Ordered(r) && Once(r) && (forall x :: x in r ==> 0 <= x.prio < n) && |r| == |q| - 1
  {
    RemoveOrdered(q, w);
    RemoveFirstMember(q, w, w);
    forall tid
      ensures Count(Id, RemoveFirst(q, w), tid) <= 1
    {
      RemoveCount(q, w, tid);
    }
    forall x | x in RemoveFirst(q, w)
      ensures 0 <= x.prio < n
    {
      RemoveFirstMember(q, w, x);
    }
  }

  lemma StepKeepsProper(n: nat, q: Queue<nat>, step: Step)
    requires Proper(n, q) && Allowed(n, q, step)
    ensures Proper(n, Next(q, step))
  {
    match step
    case Adds(w) => InsertProper(n, q, w);
    case Removes(w) => RemoveProper(n, q, w);
    case Moves(w) =>
      RemoveProper(n, q, w);
      OnceRemoved(q, w);
      InsertProper(n, RemoveFirst(q, w), w);
  }

  ghost predicate Run(n: nat, q: Queue<nat>, steps: seq<Step>, end: Queue<nat>)
    decreases |steps|
  {
    if steps == [] then end == q
    else Allowed(n, q, steps[0]) && Run(n, Next(q, steps[0]), steps[1..], end)
  }

  /** After any sequence of additions, removals and moves. */
  lemma {:induction false} RunKeepsProper(n: nat, q: Queue<nat>, steps: seq<Step>, end: Queue<nat>)
    requires Proper(n, q) && Run(n, q, steps, end)
    ensures Proper(n, end)
    decreases |steps|
  {
    if steps != [] {
      StepKeepsProper(n, q, steps[0]);
      RunKeepsProper(n, Next(q, steps[0]), steps[1..], end);
    }
  }

  /** A thread goes in behind all threads of its own or a higher priority, and before all others. */
  ghost predicate AddedAt(q: Queue<nat>, w: Thread, r: Queue<nat>, n: nat) {
    && n <= |q| && r == q[..n] + [w] + q[n..]
    && (forall i :: 0 <= i < n ==> q[i].prio <= w.prio) && forall i :: n <= i < |q| ==> q[i].prio > w.prio
  }

  lemma AddsIs(q: Queue<nat>, w: Thread)
    requires Ordered(q)
    ensures exists n: nat :: AddedAt(q, w, Insert(q, w), n)
  {
    var n := Place(q, w.prio);
    assert AddedAt(q, w, Insert(q, w), n);
  }

  /** A thread comes out, and all others stay as they were. */
  ghost predicate RemovedAt(q: Queue<nat>, w: Thread, r: Queue<nat>, n: nat) {
    n < |q| && q[n] == w && r == q[..n] + q[n + 1..]
  }

  lemma {:induction false} RemovesIs(q: Queue<nat>, w: Thread) returns (n: nat)
    requires w in q
    ensures RemovedAt(q, w, RemoveFirst(q, w), n)
  {
    if q[0] == w {
      n := 0;
    } else {
      n := RemovesIs(q[1..], w);
      assert [q[0]] + q[1..][..n] == q[..n + 1];
      n := n + 1;
    }
  }

  /** What each step does to the queue: a moved thread ends up behind all threads of its priority. */
  lemma StepIs(n: nat, q: Queue<nat>, step: Step)
    requires Proper(n, q) && Allowed(n, q, step)
    ensures step.Adds? ==> exists k: nat :: AddedAt(q, step.w, Next(q, step), k)
    ensures step.Removes? ==> exists k: nat :: RemovedAt(q, step.w, Next(q, step), k)
    ensures step.Moves? ==>
              exists r, j: nat, k: nat :: RemovedAt(q, step.w, r, j) && AddedAt(r, step.w, Next(q, step), k)
  {
    match step
    case Adds(w) =>
      AddsIs(q, w);
      var k: nat :| AddedAt(q, w, Insert(q, w), k);
      assert AddedAt(q, w, Next(q, step), k);
    case Removes(w) =>
      var k := RemovesIs(q, w);
      assert RemovedAt(q, w, Next(q, step), k);
    case Moves(w) =>
      var r := RemoveFirst(q, w);
      var j := RemovesIs(q, w);
      RemoveOrdered(q, w);
      AddsIs(r, w);
      var k: nat :| AddedAt(r, w, Insert(r, w), k);
      assert RemovedAt(q, w, r, j) && AddedAt(r, w, Next(q, step), k);
  }

  // ---------- each thread in exactly one list ----------

  lemma {:induction false} CountPart(qs: seq<seq<Thread>>, p: nat, tid: nat)
    requires p < |qs|
    ensures Count(Id, qs[p], tid) <= Count(Id, Flatten(qs), tid)
  {
    var n := |qs| - 1;
    CountConcat(Id, Flatten(qs[..n]), qs[n], tid);
    if p < n {
      CountPart(qs[..n], p, tid);
    }
  }

  /** Each ready thread is once in the list of its priority and in no other list. */
  lemma InItsList(qs: seq<seq<Thread>>, w: Thread, p: nat)
    requires Filed(qs) && Once(Flatten(qs)) && w in Flatten(qs) && p < |qs|
    ensures Count(Id, qs[p], w.item) == if p == w.prio then 1 else 0
  {
    FiledMember(qs, w);
    var own, tid := w.prio, w.item;
    var a, b := Flatten(qs[..own]), Flatten(qs[own + 1..]);
    FlattenSplit(qs, own);
    CountConcat(Id, a + qs[own], b, tid);
    CountConcat(Id, a, qs[own], tid);
    var i :| 0 <= i < |qs[own]| && qs[own][i] == w;
    CountMember(Id, qs[own], i);
    assert Count(Id, Flatten(qs), tid) <= 1;
    if p < own {
      CountPart(qs[..own], p, tid);
    } else if p > own {
      CountPart(qs[own + 1..], p - own - 1, tid);
    }
  }

  // ---------- cache arithmetic on the ordered queue ----------

  /** A new thread becomes the head exactly if it outranks the old head. */
  lemma InsertHead(q: Queue<nat>, w: Thread)
    requires q != []
    ensures Insert(q, w)[0] == if w.prio < q[0].prio then w else q[0]
  {
  }

  lemma RemoveHead(q: Queue<nat>, w: Thread)
    requires |q| > 1 && w != q[0]
    ensures RemoveFirst(q, w)[0] == q[0]
  {
  }

  // ---------- the bitmap ----------

  predicate Shaped(bmap: seq<seq<bool>>, n: nat) {
    n <= 32 * |bmap| && forall i :: 0 <= i < |bmap| ==> |bmap[i]| == 32
  }

  /** A bit is set exactly if its list is not empty; there are no other bits. */
  predicate Agrees(bmap: seq<seq<bool>>, qs: seq<seq<Thread>>)
    requires Shaped(bmap, |qs|)
  {
    forall i, j :: 0 <= i < |bmap| && 0 <= j < 32 ==> (bmap[i][j] <==> 32 * i + j < |qs| && qs[32 * i + j] != [])
  }

  /** The first set bit belongs to the first list that is not empty. */
  lemma FirstBit(bmap: seq<seq<bool>>, qs: seq<seq<Thread>>, i: nat)
    requires Shaped(bmap, |qs|) && Agrees(bmap, qs) && i < |bmap| && LowestBit(bmap[i]) < 32
    requires forall k :: 0 <= k < i ==> LowestBit(bmap[k]) == 32
    ensures var p := 32 * i + LowestBit(bmap[i]);
            p < |qs| && qs[p] != [] && forall k :: 0 <= k < p ==> qs[k] == []
  {
    var p := 32 * i + LowestBit(bmap[i]);
    forall k | 0 <= k < p
      ensures qs[k] == []
    {
      var w, b := k / 32, k % 32;
      assert k == 32 * w + b && w <= i;
      assert !bmap[w][b];
    }
  }

  lemma SomeBit(bmap: seq<seq<bool>>, qs: seq<seq<Thread>>)
    requires Shaped(bmap, |qs|) && Agrees(bmap, qs) && forall k :: 0 <= k < |bmap| ==> LowestBit(bmap[k]) == 32
    ensures Flatten(qs) == []
  {
    forall k | 0 <= k < |qs|
      ensures qs[k] == []
    {
      var w, b := k / 32, k % 32;
      assert k == 32 * w + b;
      assert !bmap[w][b];
    }
    EmptyLists(qs);
  }

  /** Changing one list and its bit keeps the agreement. */
  lemma StillAgrees(bmap: seq<seq<bool>>, qs: seq<seq<Thread>>, p: nat, q: seq<Thread>)
    requires Shaped(bmap, |qs|) && Agrees(bmap, qs) && p < |qs|
    ensures var w := p / 32; var bmap' := bmap[w := bmap[w][p % 32 := q != []]];
            Shaped(bmap', |qs|) && Agrees(bmap', qs[p := q])
  {
    var w, b := p / 32, p % 32;
    var bmap' := bmap[w := bmap[w][b := q != []]];
    forall i, j | 0 <= i < |bmap| && 0 <= j < 32
      ensures bmap'[i][j] <==> 32 * i + j < |qs| && qs[p := q][32 * i + j] != []
    {
      if 32 * i + j == p {
        assert i == w && j == b;
      }
    }
  }

  lemma BitSet(bmap: seq<seq<bool>>, qs: seq<seq<Thread>>, p: nat)
    requires Shaped(bmap, |qs|) && Agrees(bmap, qs) && p < |qs| && qs[p] != []
    ensures bmap[p / 32 := bmap[p / 32][p % 32 := true]] == bmap
  {
    var w, b := p / 32, p % 32;
    assert p == 32 * w + b;
    assert bmap[w][b];
    assert bmap[w][b := true] == bmap[w];
  }

  lemma EmptyIndexed(qs: seq<seq<Thread>>, bmap: seq<seq<bool>>, first: Thread)
    requires (forall p :: 0 <= p < |qs| ==> qs[p] == []) && 0 <= first.prio < |qs|
    requires Shaped(bmap, |qs|) && forall i, j :: 0 <= i < |bmap| && 0 <= j < 32 ==> !bmap[i][j]
    ensures var p := first.prio;
            var qs', bmap' := qs[p := [first]], bmap[p / 32 := bmap[p / 32][p % 32 := true]];
            Flatten(qs') == [first] && Filed(qs') && Shaped(bmap', |qs'|) && Agrees(bmap', qs')
  {
    StillAgrees(bmap, qs, first.prio, [first]);
    var us := qs[first.prio := [first]];
    FlattenSplit(us, first.prio);
    EmptyLists(us[..first.prio]);
    EmptyLists(us[first.prio + 1..]);
  }

  class ReadyQ {
    /** The lists by priority, the bitmap in 32-bit words, and the thread to run next. */
    const q: array<seq<Thread>>
    const prioBmap: array<seq<bool>>
    var cache: Thread

    ghost function List(): Queue<nat>
      reads q
    {
      Flatten(q[..])
    }

    ghost predicate Indexed()
      reads q, prioBmap
    {
      Filed(q[..]) && Shaped(prioBmap[..], q.Length) && Agrees(prioBmap[..], q[..])
    }

    /** Each ready thread is queued once, and the cache is the head of the ordered queue. */
    ghost predicate Valid()
      reads this, q, prioBmap
    {
      Indexed() && Proper(q.Length, List()) && cache == List()[0]
    }

    /** A queue of `n` priorities with the first thread in it. */
    constructor (n: nat, first: Thread)
      requires 0 <= first.prio < n
      ensures Valid() && List() == [first] && q.Length == n && fresh(q) && fresh(prioBmap)
    {
      var zero := seq(32, _ => false);
      q := new seq<Thread>[n](_ => []);
      prioBmap := new seq<bool>[(n + 31) / 32](_ => zero);
      cache := first;
      new;
      ghost var qs, bits := q[..], prioBmap[..];
      WriteBit(first.prio, true);
      q[first.prio] := [first];
      assert q[..] == qs[first.prio := [first]];
      assert Indexed() && List() == [first] by { EmptyIndexed(qs, bits, first); }
      OneThread(n, first);
    }

    /** `_set_ready_q_prio_bit` and `_clear_ready_q_prio_bit`. */
    method WriteBit(p: nat, value: bool)
      requires Shaped(prioBmap[..], q.Length) && p < q.Length
      modifies prioBmap
      ensures prioBmap[..] == old(prioBmap[..])[p / 32 := old(prioBmap[..])[p / 32][p % 32 := value]]
    {
      prioBmap[p / 32] := prioBmap[p / 32][p % 32 := value];
    }

    /** `_get_highest_ready_prio`. */
    method HighestReady() returns (p: nat)
      requires Indexed() && List() != []
      ensures p < q.Length && q[p] != [] && List()[0] == q[p][0]
    {
      var i := 0;
      while i < prioBmap.Length && LowestBit(prioBmap[i]) == 32
        invariant i <= prioBmap.Length && forall k :: 0 <= k < i ==> LowestBit(prioBmap[..][k]) == 32
      {
        i := i + 1;
      }
      if i == prioBmap.Length {
        SomeBit(prioBmap[..], q[..]);
      }
      FirstBit(prioBmap[..], q[..], i);
      p := 32 * i + LowestBit(prioBmap[i]);
      HeadIs(q[..], p);
    }

    /** `_get_ready_q_head`. */
    method Head() returns (w: Thread)
      requires Indexed() && List() != []
      ensures w == List()[0]
    {
      var p := HighestReady();
      w := q[p][0];
    }

    /** `_add_thread_to_ready_q`. */
    method Add(w: Thread)
      requires Valid() && Allowed(q.Length, List(), Adds(w))
      modifies this, q, prioBmap
      ensures Valid() && List() == Next(old(List()), Adds(w))
      ensures exists k: nat :: AddedAt(old(List()), w, List(), k)
    {
      StepIs(q.Length, List(), Adds(w));
      StepKeepsProper(q.Length, List(), Adds(w));
      ghost var qs, bits := q[..], prioBmap[..];
      var p := w.prio;
      AppendIsInsert(qs, w);
      StillAgrees(bits, qs, p, qs[p] + [w]);
      InsertHead(List(), w);
      WriteBit(p, true);
      q[p] := q[p] + [w];
      assert q[..] == qs[p := qs[p] + [w]];
      cache := if w.prio < cache.prio then w else cache;
    }

    /** `_remove_thread_from_ready_q`; another thread stays ready. */
    method Remove(w: Thread)
      requires Valid() && Allowed(q.Length, List(), Removes(w))
      modifies this, q, prioBmap
      ensures Valid() && List() == Next(old(List()), Removes(w))
      ensures exists k: nat :: RemovedAt(old(List()), w, List(), k)
    {
      StepIs(q.Length, List(), Removes(w));
      StepKeepsProper(q.Length, List(), Removes(w));
      ghost var qs, bits := q[..], prioBmap[..];
      RemoveFromList(qs, w);
      var p := w.prio;
      StillAgrees(bits, qs, p, RemoveFirst(qs[p], w));
      RemoveFirstMember(List(), w, w);
      FiledAfterRemove(qs, w);
      q[p] := RemoveFirst(q[p], w);
      assert q[..] == qs[p := RemoveFirst(qs[p], w)];
      if q[p] == [] {
        WriteBit(p, false);
      } else {
        BitSet(bits, qs, p);
      }
      if cache == w {
        cache := Head();
      } else {
        RemoveHead(old(List()), w);
      }
    }

    /** `_move_thread_to_end_of_prio_q`. */
    method MoveToEnd(w: Thread)
      requires Valid() && Allowed(q.Length, List(), Moves(w))
      modifies this, q
      ensures Valid() && List() == Next(old(List()), Moves(w))
      ensures exists r, j: nat, k: nat :: RemovedAt(old(List()), w, r, j) && AddedAt(r, w, List(), k)
    {
      StepIs(q.Length, List(), Moves(w));
      StepKeepsProper(q.Length, List(), Moves(w));
      OnceRemoved(List(), w);
      Requeue(w);
    }

    method Requeue(w: Thread)
      requires Indexed() && w in List() && w !in RemoveFirst(List(), w) && cache == List()[0]
      modifies this, q
      ensures Indexed() && List() == Insert(RemoveFirst(old(List()), w), w) && cache == List()[0]
    {
      ghost var qs, list := q[..], List();
      RemoveFromList(qs, w);
      var p := w.prio;
      ghost var us := qs[p := RemoveFirst(qs[p], w)];
      FiledAfterRemove(qs, w);
      AppendIsInsert(us, w);
      assert us[p := us[p] + [w]] == qs[p := RemoveFirst(qs[p], w) + [w]];
      if q[p][|q[p]| - 1] == w {
        LastStays(qs, w);
        return;
      }
      q[p] := RemoveFirst(q[p], w) + [w];
      assert q[..] == us[p := us[p] + [w]];
      SameBits(prioBmap[..], qs, p, q[p]);
      if cache == w {
        cache := Head();
      } else {
        FlattenOrdered(qs);
        MovedHead(list, w);
      }
    }
  }

  lemma SameBits(bmap: seq<seq<bool>>, qs: seq<seq<Thread>>, p: nat, q: seq<Thread>)
    requires Shaped(bmap, |qs|) && Agrees(bmap, qs) && p < |qs| && qs[p] != [] && q != []
    ensures Agrees(bmap, qs[p := q])
  {
    StillAgrees(bmap, qs, p, q);
    BitSet(bmap, qs, p);
  }

  lemma MovedHead(list: Queue<nat>, w: Thread)
    requires list != [] && w in list && w != list[0] && Ordered(list)
    ensures Insert(RemoveFirst(list, w), w)[0] == list[0]
  {
    RemoveFirstMember(list, w, list[0]);
    RemoveHead(list, w);
    InsertHead(RemoveFirst(list, w), w);
  }

  /** The queue is ordered by priority. */
  lemma {:induction false} FlattenOrdered(qs: seq<seq<Thread>>)
    requires Filed(qs)
    ensures Ordered(Flatten(qs))
  {
    if qs != [] {
      var n := |qs| - 1;
      FlattenOrdered(qs[..n]);
      Around(qs, n);
      var a := Flatten(qs[..n]);
      assert forall i :: 0 <= i < |a| ==> a[i] in a;
    }
  }

  /** A thread at the end of its list stays where it is. */
  lemma LastStays(qs: seq<seq<Thread>>, w: Thread)
    requires Filed(qs) && w in Flatten(qs) && w !in RemoveFirst(Flatten(qs), w)
    requires 0 <= w.prio < |qs| && qs[w.prio] != [] && qs[w.prio][|qs[w.prio]| - 1] == w
    ensures qs[w.prio := RemoveFirst(qs[w.prio], w) + [w]] == qs
  {
    var p := w.prio;
    var init := qs[p][..|qs[p]| - 1];
    assert qs[p] == init + [w];
    RemoveFromList(qs, w);
    var us := qs[p := RemoveFirst(qs[p], w)];
    FiledAfterRemove(qs, w);
    FiledMember(us, w);
    RemoveFirstConcat(init, [w], w);
    assert RemoveFirst(qs[p], w) == init;
  }

  lemma FiledAfterRemove(qs: seq<seq<Thread>>, w: Thread)
    requires Filed(qs) && 0 <= w.prio < |qs|
    ensures Filed(qs[w.prio := RemoveFirst(qs[w.prio], w)])
  {
    var r := RemoveFirst(qs[w.prio], w);
    forall k | 0 <= k < |r|
      ensures r[k].prio == w.prio
    {
      RemoveFirstMember(qs[w.prio], w, r[k]);
    }
  }
}
