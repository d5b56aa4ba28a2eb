/**
  Wait queues: threads ordered by priority (a lower number is a higher priority), first
  come first served among equals.
 */
module WaitQueue {

  datatype Waiting<T> = Waiting(prio: int, item: T)

  type Queue<T> = seq<Waiting<T>>

  /** Where `_pend_thread` puts a thread: before the first one that it outranks. */
  function Place<T>(q: Queue<T>, prio: int): (n: nat)
    ensures n <= |q|
    ensures forall i :: 0 <= i < n ==> q[i].prio <= prio
    ensures n < |q| ==> prio < q[n].prio
  {
    if q == [] || prio < q[0].prio then 0 else 1 + Place(q[1..], prio)
  }

  function Insert<T>(q: Queue<T>, w: Waiting<T>): Queue<T> {
    var n := Place(q, w.prio);
    q[..n] + [w] + q[n..]
  }

  lemma InsertFirst<T>(q: Queue<T>, w: Waiting<T>)
    ensures Insert(q, w) == if q == [] || w.prio < q[0].prio then [w] + q else [q[0]] + Insert(q[1..], w)
  {
    if q != [] && w.prio >= q[0].prio {
      var n := Place(q[1..], w.prio);
      assert q[..n + 1] == [q[0]] + q[1..][..n] && q[n + 1..] == q[1..][n..];
    }
  }

  function Without<T>(q: Queue<T>, n: nat): Queue<T>
    requires n < |q|
  {
    q[..n] + q[n + 1..]
  }

  /** Highest priority first. */
  predicate Ordered<T>(q: Queue<T>) {
    forall i, j :: 0 <= i < j < |q| ==> q[i].prio <= q[j].prio
  }

  lemma InsertOrdered<T>(q: Queue<T>, w: Waiting<T>)
    requires Ordered(q)
    ensures Ordered(Insert(q, w))
  {
    var n := Place(q, w.prio);
    var a, b := q[..n], q[n..];
    assert forall i :: 0 <= i < |b| ==> b[0].prio <= b[i].prio;
    OrderedSplice(a, b, w);
  }

  lemma OrderedSplice<T>(a: Queue<T>, b: Queue<T>, w: Waiting<T>)
    requires Ordered(a) && Ordered(b)
    requires (forall i :: 0 <= i < |a| ==> a[i].prio <= w.prio) && forall i :: 0 <= i < |b| ==> w.prio <= b[i].prio
    ensures Ordered(a + [w] + b)
  {
  }

  lemma WithoutOrdered<T>(q: Queue<T>, n: nat)
    requires Ordered(q) && n < |q|
    ensures Ordered(Without(q, n))
  {
  }

  /** The scan of `_pend_thread`. */
  method PendThread<T>(q: Queue<T>, w: Waiting<T>) returns (r: Queue<T>)
    ensures r == Insert(q, w)
  {
    for i := 0 to |q|
      invariant forall k :: 0 <= k < i ==> q[k].prio <= w.prio
    {
      if w.prio < q[i].prio {
        PlaceUnique(q, w.prio, i);
        return q[..i] + [w] + q[i..];
      }
    }
    PlaceUnique(q, w.prio, |q|);
    assert q[|q|..] == [] && q[..|q|] == q;
    return q + [w];
  }

  lemma PlaceUnique<T>(q: Queue<T>, prio: int, n: nat)
    requires n <= |q| && (forall i :: 0 <= i < n ==> q[i].prio <= prio) && (n < |q| ==> prio < q[n].prio)
    ensures Place(q, prio) == n
  {
  }

  // ---------- counting ----------

  function Occurs<K(==)>(s: seq<K>, k: K): nat {
    multiset(s)[k]
  }

  /** How often a key occurs in a sequence ... */
  function CountIn<T, K(==)>(key: T -> K, s: seq<T>, k: K): nat {
    if s == [] then 0 else (if key(s[0]) == k then 1 else 0) + CountIn(key, s[1..], k)
  }

  /** ... and among the waiting. */
  function Count<T, K(==)>(key: T -> K, q: Queue<T>, k: K): nat {
    if q == [] then 0 else (if key(q[0].item) == k then 1 else 0) + Count(key, q[1..], k)
  }

  lemma OccursAppend<K>(s: seq<K>, x: K, k: K)
    ensures Occurs(s + [x], k) == Occurs(s, k) + if x == k then 1 else 0
  {
  }

  lemma {:induction false} CountInConcat<T, K>(key: T -> K, a: seq<T>, b: seq<T>, k: K)
    ensures CountIn(key, a + b, k) == CountIn(key, a, k) + CountIn(key, b, k)
  {
    if a == [] {
      assert a + b == b;
    } else {
      CountInConcat(key, a[1..], b, k);
      assert (a + b)[1..] == a[1..] + b;
    }
  }

  lemma CountAppend<T, K>(key: T -> K, s: seq<T>, x: T, k: K)
    ensures CountIn(key, s + [x], k) == CountIn(key, s, k) + if key(x) == k then 1 else 0
  {
    CountInConcat(key, s, [x], k);
  }

  lemma CountRemove<T, K>(key: T -> K, s: seq<T>, n: nat, k: K)
    requires n < |s|
    ensures CountIn(key, s, k) == CountIn(key, s[..n] + s[n + 1..], k) + if key(s[n]) == k then 1 else 0
  {
    CountInThree(key, s[..n], s[n], s[n + 1..], k);
    SplitAt(s, n);
  }

  lemma SplitAt<T>(s: seq<T>, n: nat)
    requires n < |s|
    ensures s == s[..n] + [s[n]] + s[n + 1..]
  {
  }

  lemma CountInThree<T, K>(key: T -> K, a: seq<T>, x: T, b: seq<T>, k: K)
    ensures CountIn(key, a + [x] + b, k) == CountIn(key, a + b, k) + if key(x) == k then 1 else 0
  {
    CountInConcat(key, a + [x], b, k);
    CountAppend(key, a, x, k);
    CountInConcat(key, a, b, k);
  }

  lemma {:induction false} CountConcat<T, K>(key: T -> K, a: Queue<T>, b: Queue<T>, k: K)
    ensures Count(key, a + b, k) == Count(key, a, k) + Count(key, b, k)
  {
    if a == [] {
      assert a + b == b;
    } else {
      CountConcat(key, a[1..], b, k);
      assert (a + b)[1..] == a[1..] + b;
    }
  }

  lemma CountInsert<T, K>(key: T -> K, q: Queue<T>, w: Waiting<T>, k: K)
    ensures Count(key, Insert(q, w), k) == Count(key, q, k) + if key(w.item) == k then 1 else 0
  {
    var n := Place(q, w.prio);
    CountThree(key, q[..n], w, q[n..], k);
    assert q[..n] + q[n..] == q;
  }

  lemma CountWithout<T, K>(key: T -> K, q: Queue<T>, n: nat, k: K)
    requires n < |q|
    ensures Count(key, q, k) == Count(key, Without(q, n), k) + if key(q[n].item) == k then 1 else 0
  {
    CountThree(key, q[..n], q[n], q[n + 1..], k);
    assert q[..n] + [q[n]] + q[n + 1..] == q;
  }

  lemma CountThree<T, K>(key: T -> K, a: Queue<T>, w: Waiting<T>, b: Queue<T>, k: K)
    ensures Count(key, a + [w] + b, k) == Count(key, a + b, k) + if key(w.item) == k then 1 else 0
  {
    CountConcat(key, a, b, k);
    CountConcat(key, a, [w], k);
    CountConcat(key, a + [w], b, k);
    assert Count(key, [w][1..], k) == 0;
  }

  lemma {:induction false} CountInMember<T, K>(key: T -> K, s: seq<T>, i: nat)
    requires i < |s|
    ensures CountIn(key, s, key(s[i])) >= 1
  {
    if i > 0 {
      CountInMember(key, s[1..], i - 1);
    }
  }

  lemma {:induction false} CountMember<T, K>(key: T -> K, q: Queue<T>, i: nat)
    requires i < |q|
    ensures Count(key, q, key(q[i].item)) >= 1
  {
    if i > 0 {
      CountMember(key, q[1..], i - 1);
    }
  }

  lemma InsertMember<T>(q: Queue<T>, w: Waiting<T>, x: Waiting<T>)
    ensures x in Insert(q, w) <==> x == w || x in q
  {
    var n := Place(q, w.prio);
    assert q == q[..n] + q[n..];
  }
}
