/**
  The timers of a thread: a list ordered by 32-bit expiry times that wrap around, and the
  pass that fires the expired ones.
 */
module ThreadTimer {

  const WRAP: int := 0x1_0000_0000
  const HALF: int := 0x8000_0000

  type Word32 = w: int | 0 <= w < 0x1_0000_0000
  type Signed32 = n: int | -0x8000_0000 <= n < 0x8000_0000

  datatype Timer = Timer(id: nat, expiry: Word32, period: Signed32, armed: bool)

  /** `compare_time`: the difference as a signed 32-bit number. */
  function CompareTime(a: Word32, b: Word32): Signed32 {
    var d := (a - b) % WRAP;
    if d < HALF then d else d - WRAP
  }

  /** How long a time is after the start `lo` of a window. */
  function Since(lo: Word32, t: Word32): (n: nat)
    ensures n < WRAP
  {
    (t - lo) % WRAP
  }

  /** Half of the 32-bit range, from `lo` on. */
  predicate InWindow(lo: Word32, t: Word32) {
    Since(lo, t) < HALF
  }

  /** Inside a window the comparison is the real one, although the numbers wrap around. */
  lemma CompareInWindow(lo: Word32, a: Word32, b: Word32)
    requires InWindow(lo, a) && InWindow(lo, b)
    ensures CompareTime(a, b) == Since(lo, a) - Since(lo, b)
  {
    var d := Since(lo, a) - Since(lo, b);
    assert (a - b) % WRAP == d % WRAP by {
      var i, j := (a - lo) / WRAP, (b - lo) / WRAP;
      assert a - b == (i - j) * WRAP + d;
      Wrapped(d, i - j);
    }
  }

  lemma Wrapped(d: int, k: int)
    ensures (k * WRAP + d) % WRAP == d % WRAP
  {
  }

  /** Two times that lie half the range apart are each before the other. */
  lemma HalfApart(a: Word32, b: Word32)
    ensures CompareTime(a, b) < 0 && CompareTime(b, a) < 0 <==> a - b == HALF || b - a == HALF
  {
  }

  lemma SinceAdd(lo: Word32, t: Word32, n: int)
    requires 0 <= Since(lo, t) + n < WRAP
    ensures Since(lo, (t + n) % WRAP) == Since(lo, t) + n
  {
    var q, s := (t - lo) / WRAP, Since(lo, t);
    var p := (t + n) / WRAP;
    assert (t + n) % WRAP - lo == (q - p) * WRAP + (s + n);
    Wrapped(s + n, q - p);
  }

  // ---------- the queue ----------

  predicate AllIn(lo: Word32, q: seq<Timer>) {
    forall i :: 0 <= i < |q| ==> InWindow(lo, q[i].expiry)
  }

  /** Earliest first. */
  predicate Sorted(lo: Word32, q: seq<Timer>) {
    forall i, j :: 0 <= i < j < |q| ==> Since(lo, q[i].expiry) <= Since(lo, q[j].expiry)
  }

  predicate DistinctIds(q: seq<Timer>) {
    forall i, j :: 0 <= i < j < |q| ==> q[i].id != q[j].id
  }

  /** Where `_thread_timer_insert` puts a timer: before the first one that expires later. */
  function Place(q: seq<Timer>, t: Timer): (n: nat)
    ensures n <= |q|
    ensures forall i :: 0 <= i < n ==> CompareTime(t.expiry, q[i].expiry) >= 0
    ensures n < |q| ==> CompareTime(t.expiry, q[n].expiry) < 0
  {
    if q == [] || CompareTime(t.expiry, q[0].expiry) < 0 then 0 else 1 + Place(q[1..], t)
  }

  function Insert(q: seq<Timer>, t: Timer): seq<Timer> {
    var n := Place(q, t);
    q[..n] + [t] + q[n..]
  }

  /** The place of a timer, in times since the start of the window. */
  lemma PlaceMeans(lo: Word32, q: seq<Timer>, t: Timer, i: nat)
    requires AllIn(lo, q) && Sorted(lo, q) && InWindow(lo, t.expiry) && i < |q|
    ensures if i < Place(q, t) then Since(lo, q[i].expiry) <= Since(lo, t.expiry)
            else Since(lo, t.expiry) <= Since(lo, q[i].expiry)
  {
    var n := Place(q, t);
    CompareInWindow(lo, t.expiry, q[i].expiry);
    if n < i {
      CompareInWindow(lo, t.expiry, q[n].expiry);
    }
  }

  lemma InsertSorted(lo: Word32, q: seq<Timer>, t: Timer)
    requires AllIn(lo, q) && Sorted(lo, q) && InWindow(lo, t.expiry)
    ensures AllIn(lo, Insert(q, t)) && Sorted(lo, Insert(q, t))
  {
    var n, r := Place(q, t), Insert(q, t);
    forall i | 0 <= i < |r|
      ensures r[i] == if i < n then q[i] else if i == n then t else q[i - 1]
    {
    }
    forall i, j | 0 <= i < j < |r|
      ensures Since(lo, r[i].expiry) <= Since(lo, r[j].expiry)
    {
      if j == n {
        PlaceMeans(lo, q, t, i);
      } else if i == n {
        PlaceMeans(lo, q, t, j - 1);
      }
    }
  }

  /** A timer that is not earlier than a whole prefix goes behind it. */
  lemma InsertBehind(a: seq<Timer>, b: seq<Timer>, t: Timer)
    requires forall i :: 0 <= i < |a| ==> CompareTime(t.expiry, a[i].expiry) >= 0
    ensures Insert(a + b, t) == a + Insert(b, t)
  {
    var n := Place(b, t);
    PlaceBehind(a, b, t);
    SpliceBehind(a, b, n, t);
  }

  lemma SpliceBehind(a: seq<Timer>, b: seq<Timer>, n: nat, t: Timer)
    requires n <= |b|
    ensures (a + b)[..|a| + n] + [t] + (a + b)[|a| + n..] == a + (b[..n] + [t] + b[n..])
  {
    assert (a + b)[..|a| + n] == a + b[..n] && (a + b)[|a| + n..] == b[n..];
  }

  lemma PlaceBehind(a: seq<Timer>, b: seq<Timer>, t: Timer)
    requires forall i :: 0 <= i < |a| ==> CompareTime(t.expiry, a[i].expiry) >= 0
    ensures Place(a + b, t) == |a| + Place(b, t)
  {
    var ab, n := a + b, Place(b, t);
    forall i | 0 <= i < |a| + n
      ensures CompareTime(t.expiry, ab[i].expiry) >= 0
    {
      if i < |a| {
        assert ab[i] == a[i];
      } else {
        assert ab[i] == b[i - |a|];
      }
    }
    PlaceUnique(ab, t, |a| + n);
  }

  lemma PlaceUnique(q: seq<Timer>, t: Timer, n: nat)
    requires n <= |q| && (forall i :: 0 <= i < n ==> CompareTime(t.expiry, q[i].expiry) >= 0)
    requires n < |q| ==> CompareTime(t.expiry, q[n].expiry) < 0
    ensures Place(q, t) == n
  {
  }

  lemma InsertIds(q: seq<Timer>, t: Timer)
    requires DistinctIds(q) && forall i :: 0 <= i < |q| ==> q[i].id != t.id
    ensures DistinctIds(Insert(q, t))
  {
    var n, r := Place(q, t), Insert(q, t);
    assert forall i :: 0 <= i < n ==> r[i] == q[i];
    assert forall i :: n < i < |r| ==> r[i] == q[i - 1];
  }

  /** Taking a timer out of the list, if it is there. */
  function Remove(q: seq<Timer>, id: nat): (r: seq<Timer>)
    ensures forall t :: t in r ==> t in q
  {
    if q == [] then [] else if q[0].id == id then q[1..] else [q[0]] + Remove(q[1..], id)
  }

  lemma {:induction false} RemoveAbsent(q: seq<Timer>, id: nat)
    requires forall i :: 0 <= i < |q| ==> q[i].id != id
    ensures Remove(q, id) == q
  {
    if q != [] {
      RemoveAbsent(q[1..], id);
    }
  }

  /** Nothing else comes out. */
  lemma {:induction false} RemoveIs(q: seq<Timer>, id: nat, n: nat)
    requires n < |q| && q[n].id == id && forall i :: 0 <= i < n ==> q[i].id != id
    ensures Remove(q, id) == q[..n] + q[n + 1..]
  {
    if n > 0 {
      RemoveIs(q[1..], id, n - 1);
      assert [q[0]] + q[1..][..n - 1] == q[..n];
    }
  }

  // ---------- one pass ----------

  predicate Due(t: Timer, now: Word32) {
    CompareTime(t.expiry, now) <= 0
  }

  /** The number of timers at the front that are due. */
  function DueCount(q: seq<Timer>, now: Word32): (n: nat)
    ensures n <= |q|
    ensures forall i :: 0 <= i < n ==> Due(q[i], now)
    ensures n < |q| ==> !Due(q[n], now)
  {
    if q == [] || !Due(q[0], now) then 0 else 1 + DueCount(q[1..], now)
  }

  function Restarted(t: Timer, tick: Word32): Timer {
    t.(expiry := (tick + t.period) % WRAP)
  }

  predicate Periodic(t: Timer) {
    t.armed && t.period != 0
  }

  /** In a sorted queue the due timers are exactly those at the front. */
  lemma DueExactly(lo: Word32, q: seq<Timer>, now: Word32, i: nat)
    requires AllIn(lo, q) && Sorted(lo, q) && InWindow(lo, now) && i < |q|
    ensures Due(q[i], now) <==> i < DueCount(q, now)
    ensures Due(q[i], now) <==> Since(lo, q[i].expiry) <= Since(lo, now)
  {
    CompareInWindow(lo, q[i].expiry, now);
    var n := DueCount(q, now);
    if n <= i {
      CompareInWindow(lo, q[n].expiry, now);
    }
  }

  /** A timer that starts again is due at once exactly if its period takes it back to that time or before. */
  lemma RestartDueIff(lo: Word32, t: Timer, now: Word32, tick: Word32)
    requires InWindow(lo, now) && 0 <= Since(lo, tick) + t.period < HALF
    ensures InWindow(lo, Restarted(t, tick).expiry)
    ensures Since(lo, Restarted(t, tick).expiry) == Since(lo, tick) + t.period
    ensures Due(Restarted(t, tick), now) <==> Since(lo, tick) + t.period <= Since(lo, now)
  {
    SinceAdd(lo, tick, t.period);
    CompareInWindow(lo, Restarted(t, tick).expiry, now);
  }

  predicate NoneDue(q: seq<Timer>, now: Word32) {
    forall i :: 0 <= i < |q| ==> !Due(q[i], now)
  }

  lemma InsertNoneDue(q: seq<Timer>, t: Timer, now: Word32)
    requires NoneDue(q, now) && !Due(t, now)
    ensures NoneDue(Insert(q, t), now)
  {
    var n, r := Place(q, t), Insert(q, t);
    assert forall i :: 0 <= i < n ==> r[i] == q[i];
    assert forall i :: n < i < |r| ==> r[i] == q[i - 1];
  }

  /** `thread_timer_next_timeout`: waiting for it is exactly long enough for the first timer. */
  function NextTimeout(q: seq<Timer>, now: Word32): int {
    if q == [] then -1
    else
      var timeout := CompareTime(q[0].expiry, now);
      if timeout < 0 then 0 else timeout
  }

  lemma TimeoutExact(lo: Word32, q: seq<Timer>, now: Word32, d: nat)
    requires AllIn(lo, q) && Sorted(lo, q) && InWindow(lo, now) && Since(lo, now) + d < HALF
    ensures q == [] <==> NextTimeout(q, now) == -1
    ensures q != [] ==> NextTimeout(q, now) >= 0 && (NextTimeout(q, now) <= d <==> Due(q[0], (now + d) % WRAP))
    ensures NextTimeout(q, now) > d ==> NoneDue(q, (now + d) % WRAP)
  {
    if q != [] {
      SinceAdd(lo, now, d);
      var later := (now + d) % WRAP;
      CompareInWindow(lo, q[0].expiry, now);
      CompareInWindow(lo, q[0].expiry, later);
      forall i | 0 <= i < |q| && !Due(q[0], later)
        ensures !Due(q[i], later)
      {
        CompareInWindow(lo, q[i].expiry, later);
      }
    }
  }

  /** Starting a timer keeps the queue sorted while its new time is in the window. */
  lemma StartSorted(lo: Word32, q: seq<Timer>, t: Timer)
    requires AllIn(lo, q) && Sorted(lo, q) && InWindow(lo, t.expiry)
    ensures var r := Insert(Remove(q, t.id), t); AllIn(lo, r) && Sorted(lo, r)
  {
    RemoveSorted(lo, q, t.id);
    InsertSorted(lo, Remove(q, t.id), t);
  }

  lemma {:induction false} RemoveSorted(lo: Word32, q: seq<Timer>, id: nat)
    requires AllIn(lo, q) && Sorted(lo, q)
    ensures AllIn(lo, Remove(q, id)) && Sorted(lo, Remove(q, id))
  {
    if q != [] && q[0].id != id {
      var rest := Remove(q[1..], id);
      RemoveSorted(lo, q[1..], id);
      forall j | 0 <= j < |rest|
        ensures Since(lo, q[0].expiry) <= Since(lo, rest[j].expiry)
      {
        assert rest[j] in q[1..];
      }
    }
  }
}
