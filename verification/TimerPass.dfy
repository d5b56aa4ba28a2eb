/**
  One pass over the expired timers of a thread. The list is walked with a pointer to the next
  timer that is taken before the current one is removed, while periodic timers are put
  back into the same list.
 */
module TimerPass {
  import opened ThreadTimer

  // ---------- the walk ----------

  predicate HasId(q: seq<Timer>, id: nat) {
    q != [] && (q[0].id == id || HasId(q[1..], id))
  }

  lemma {:induction false} HasIdIff(q: seq<Timer>, id: nat)
    ensures HasId(q, id) <==> exists k :: 0 <= k < |q| && q[k].id == id
  {
    if q != [] {
      HasIdIff(q[1..], id);
      if k :| 0 <= k < |q| && q[k].id == id {
        if k > 0 {
          assert q[1..][k - 1].id == id;
        }
      }
      if k :| 0 <= k < |q[1..]| && q[1..][k].id == id {
        assert q[k + 1].id == id;
      }
    }
  }

  /** Following a pointer into the list. */
  function IndexOf(q: seq<Timer>, id: nat): (i: nat)
    requires HasId(q, id)
    ensures i < |q| && q[i].id == id
    ensures q[0].id == id ==> i == 0
  {
    if q[0].id == id then 0 else 1 + IndexOf(q[1..], id)
  }

  /** The node behind the one at index `i`. */
  function After(q: seq<Timer>, i: nat): int {
    if i + 1 < |q| then q[i + 1].id else -1
  }

  /** The list, the timer that the walk has come to (-1 behind the end), and the timers called so far. */
  datatype Pass = Pass(q: seq<Timer>, cur: int, fired: seq<nat>)

  predicate Good(p: Pass) {
    DistinctIds(p.q) && (p.cur == -1 || (p.cur >= 0 && HasId(p.q, p.cur)))
  }

  predicate Ended(p: Pass, now: Word32)
    requires Good(p)
  {
    p.cur == -1 || !Due(p.q[IndexOf(p.q, p.cur)], now)
  }

  function Start(q: seq<Timer>): Pass {
    Pass(q, if q == [] then -1 else q[0].id, [])
  }

  /** The other timers, and a periodic one put back. */
  function Relist(rest: seq<Timer>, t: Timer, tick: Word32): seq<Timer> {
    if Periodic(t) then Insert(Remove(rest, t.id), Restarted(t, tick)) else rest
  }

  /** The list without the timer at index `i`. */
  function Without(q: seq<Timer>, i: nat): seq<Timer>
    requires i < |q|
  {
    q[..i] + q[i + 1..]
  }

  /** One turn of `thread_timer_handle_expired`, with the clock at `tick`. */
  function Turn(p: Pass, tick: Word32): Pass
    requires Good(p) && p.cur != -1
  {
    var i := IndexOf(p.q, p.cur);
    var t := p.q[i];
    Pass(Relist(Without(p.q, i), t, tick), After(p.q, i), p.fired + if t.armed then [t.id] else [])
  }

  lemma RestDistinct(q: seq<Timer>, i: nat)
    requires DistinctIds(q) && i < |q|
    ensures var rest := Without(q, i);
            DistinctIds(rest) && (forall k :: 0 <= k < |rest| ==> rest[k].id != q[i].id) && Remove(rest, q[i].id) == rest
  {
    RemoveAbsent(Without(q, i), q[i].id);
  }

  lemma InsertHas(q: seq<Timer>, t: Timer, id: nat)
    requires HasId(q, id)
    ensures HasId(Insert(q, t), id)
  {
    HasIdIff(q, id);
    var k :| 0 <= k < |q| && q[k].id == id;
    var n, r := Place(q, t), Insert(q, t);
    assert r[if k < n then k else k + 1] == q[k];
    HasIdIff(r, id);
  }

  lemma NextStays(q: seq<Timer>, i: nat)
    requires i + 1 < |q|
    ensures HasId(Without(q, i), q[i + 1].id)
  {
    var rest := Without(q, i);
    assert rest[i] == q[i + 1];
    HasIdIff(rest, q[i + 1].id);
  }

  /** A turn keeps the identities apart, and the saved pointer stays in the list. */
  lemma TurnKeepsGood(p: Pass, tick: Word32)
    requires Good(p) && p.cur != -1
    ensures Good(Turn(p, tick))
  {
    var i := IndexOf(p.q, p.cur);
    var t, rest := p.q[i], Without(p.q, i);
    RestDistinct(p.q, i);
    if Periodic(t) {
      InsertIds(rest, Restarted(t, tick));
    }
    if i + 1 < |p.q| {
      NextStays(p.q, i);
      if Periodic(t) {
        InsertHas(rest, Restarted(t, tick), p.q[i + 1].id);
      }
    }
  }

  /** The pass up to as many turns as there are clock readings; a pass that has ended stays where it is. */
  function Run(p: Pass, now: Word32, ticks: seq<Word32>): (r: Pass)
    requires Good(p)
    ensures Good(r)
  {
    if ticks == [] then p
    else
      var n := |ticks| - 1;
      var r := Run(p, now, ticks[..n]);
      if Ended(r, now) then r else TurnKeepsGood(r, ticks[n]); Turn(r, ticks[n])
  }

  lemma RunNext(p: Pass, now: Word32, ticks: seq<Word32>, j: nat)
    requires Good(p) && j < |ticks| && !Ended(Run(p, now, ticks[..j]), now)
    ensures Run(p, now, ticks[..j + 1]) == Turn(Run(p, now, ticks[..j]), ticks[j])
  {
    assert ticks[..j + 1][..j] == ticks[..j];
  }

  lemma {:induction false} EndedStays(p: Pass, now: Word32, ticks: seq<Word32>, k: nat)
    requires Good(p) && k <= |ticks| && Ended(Run(p, now, ticks[..k]), now)
    ensures Run(p, now, ticks) == Run(p, now, ticks[..k])
    decreases |ticks|
  {
    if k == |ticks| {
      assert ticks[..k] == ticks;
    } else {
      var n := |ticks| - 1;
      assert ticks[..n][..k] == ticks[..k];
      EndedStays(p, now, ticks[..n], k);
      OneMoreEnded(p, now, ticks);
    }
  }

  lemma OneMoreEnded(p: Pass, now: Word32, ticks: seq<Word32>)
    requires Good(p) && ticks != [] && Ended(Run(p, now, ticks[..|ticks| - 1]), now)
    ensures Run(p, now, ticks) == Run(p, now, ticks[..|ticks| - 1])
  {
  }

  /** The timers of a sequence that have something to call. */
  function Called(q: seq<Timer>): seq<nat> {
    if q == [] then []
    else Called(q[..|q| - 1]) + if q[|q| - 1].armed then [q[|q| - 1].id] else []
  }

  // ---------- what a pass should do ----------

  /** The queue after the fired timers `fired` started again, the `i`-th at time `ticks[i]`. */
  function AddAgain(q: seq<Timer>, fired: seq<Timer>, ticks: seq<Word32>): seq<Timer>
    requires |ticks| >= |fired|
  {
    if fired == [] then q
    else
      var n := |fired| - 1;
      var before := AddAgain(q, fired[..n], ticks);
      if Periodic(fired[n]) then Insert(before, Restarted(fired[n], ticks[n])) else before
  }

  /** The queue after a pass: what was not due, and the periodic timers that were. */
  function AfterPass(q: seq<Timer>, now: Word32, ticks: seq<Word32>): seq<Timer>
    requires |ticks| >= |q|
  {
    var n := DueCount(q, now);
    AddAgain(q[n..], q[..n], ticks)
  }

  /** No timer that starts again during the pass is due at once. */
  predicate NoneAgain(fired: seq<Timer>, now: Word32, ticks: seq<Word32>) {
    |ticks| >= |fired| && forall i :: 0 <= i < |fired| && Periodic(fired[i]) ==> !Due(Restarted(fired[i], ticks[i]), now)
  }

  /** No timer starts again outside of the window. */
  predicate RestartsIn(lo: Word32, fired: seq<Timer>, ticks: seq<Word32>) {
    |ticks| >= |fired| && forall i :: 0 <= i < |fired| && Periodic(fired[i]) ==> InWindow(lo, Restarted(fired[i], ticks[i]).expiry)
  }

  /**
    A clock that does not go back while the pass runs, periods that are not negative, and no timer
    started beyond the window.
   */
  predicate Steady(lo: Word32, q: seq<Timer>, now: Word32, ticks: seq<Word32>) {
    && |ticks| >= |q| && InWindow(lo, now)
    && forall i :: 0 <= i < |q| ==>
         q[i].period >= 0 && Since(lo, now) <= Since(lo, ticks[i]) && Since(lo, ticks[i]) + q[i].period < HALF
  }

  /** Then no timer is due again at once. */
  lemma SteadyNoneAgain(lo: Word32, q: seq<Timer>, now: Word32, ticks: seq<Word32>)
    requires Steady(lo, q, now, ticks)
    ensures NoneAgain(q, now, ticks) && RestartsIn(lo, q, ticks)
  {
    forall i | 0 <= i < |q| && Periodic(q[i])
      ensures !Due(Restarted(q[i], ticks[i]), now) && InWindow(lo, Restarted(q[i], ticks[i]).expiry)
    {
      RestartDueIff(lo, q[i], now, ticks[i]);
    }
  }

  lemma {:induction false} AddAgainKeeps(lo: Word32, q: seq<Timer>, fired: seq<Timer>, now: Word32, ticks: seq<Word32>)
    requires AllIn(lo, q) && Sorted(lo, q) && NoneDue(q, now)
    requires NoneAgain(fired, now, ticks) && RestartsIn(lo, fired, ticks)
    ensures var r := AddAgain(q, fired, ticks); AllIn(lo, r) && Sorted(lo, r) && NoneDue(r, now)
  {
    if fired != [] {
      var n := |fired| - 1;
      AddAgainKeeps(lo, q, fired[..n], now, ticks);
      var before := AddAgain(q, fired[..n], ticks);
      if Periodic(fired[n]) {
        var t := Restarted(fired[n], ticks[n]);
        InsertSorted(lo, before, t);
        InsertNoneDue(before, t, now);
      }
    }
  }

  /** The timers at hand when the pass starts, in one window with the clock. */
  predicate Queued(lo: Word32, q: seq<Timer>, now: Word32, ticks: seq<Word32>) {
    && AllIn(lo, q) && Sorted(lo, q) && DistinctIds(q) && InWindow(lo, now) && |ticks| >= |q|
    && RestartsIn(lo, q[..DueCount(q, now)], ticks)
  }

  /** After a pass in which no timer is due again the queue is sorted and nothing in it is due. */
  lemma PassLeavesNoneDue(lo: Word32, q: seq<Timer>, now: Word32, ticks: seq<Word32>)
    requires Queued(lo, q, now, ticks) && NoneAgain(q[..DueCount(q, now)], now, ticks)
    ensures var r := AfterPass(q, now, ticks); AllIn(lo, r) && Sorted(lo, r) && NoneDue(r, now)
  {
    var n := DueCount(q, now);
    forall i | 0 <= i < |q[n..]|
      ensures !Due(q[n..][i], now)
    {
      DueExactly(lo, q, now, n + i);
    }
    AddAgainKeeps(lo, q[n..], q[..n], now, ticks);
  }

  // ---------- as long as no timer is due again ----------

  /** The queue when `j` of the due timers of `all` are dealt with. */
  function Midway(all: seq<Timer>, now: Word32, ticks: seq<Word32>, j: nat): seq<Timer>
    requires j <= DueCount(all, now) && |ticks| >= |all|
  {
    var n := DueCount(all, now);
    all[j..n] + AddAgain(all[n..], all[..j], ticks)
  }

  /** A restarted timer that is not due goes behind all due ones. */
  lemma MidwayTurn(lo: Word32, all: seq<Timer>, now: Word32, ticks: seq<Word32>, j: nat)
    requires Queued(lo, all, now, ticks) && j < DueCount(all, now)
    requires Periodic(all[j]) ==> !Due(Restarted(all[j], ticks[j]), now)
    ensures var q := Midway(all, now, ticks, j);
            && q != [] && q[0] == all[j]
            && Midway(all, now, ticks, j + 1)
               == if Periodic(q[0]) then Insert(q[1..], Restarted(q[0], ticks[j])) else q[1..]
  {
    var n := DueCount(all, now);
    var q := Midway(all, now, ticks, j);
    var tail := AddAgain(all[n..], all[..j], ticks);
    assert q[1..] == all[j + 1..n] + tail;
    assert all[..j + 1][..j] == all[..j];
    if Periodic(all[j]) {
      var t := Restarted(all[j], ticks[j]);
      assert all[..n][j] == all[j];
      CompareInWindow(lo, t.expiry, now);
      var due := all[j + 1..n];
      forall i | 0 <= i < |due|
        ensures CompareTime(t.expiry, due[i].expiry) >= 0
      {
        DueExactly(lo, all, now, j + 1 + i);
        CompareInWindow(lo, t.expiry, all[j + 1 + i].expiry);
      }
      InsertBehind(due, tail, t);
    }
  }

  ghost predicate AtMidway(all: seq<Timer>, now: Word32, ticks: seq<Word32>, j: nat, p: Pass) {
    && j <= DueCount(all, now) && |ticks| >= |all| && Good(p)
    && p.q == Midway(all, now, ticks, j) && p.fired == Called(all[..j])
    && (j < DueCount(all, now) ==> p.cur == all[j].id)
  }

  /** One turn of the walk, at the first of the due timers that are left. */
  lemma MidwayStep(lo: Word32, all: seq<Timer>, now: Word32, ticks: seq<Word32>, j: nat, p: Pass)
    requires Queued(lo, all, now, ticks) && j < DueCount(all, now)
    requires Periodic(all[j]) ==> !Due(Restarted(all[j], ticks[j]), now)
    requires AtMidway(all, now, ticks, j, p)
    ensures AtMidway(all, now, ticks, j + 1, Turn(p, ticks[j]))
  {
    var r := Turn(p, ticks[j]);
    assert Good(r) by { TurnKeepsGood(p, ticks[j]); }
    MidwayTurn(lo, all, now, ticks, j);
    assert r.q == Midway(all, now, ticks, j + 1) && r.fired == Called(all[..j + 1]) by {
      FirstTurn(p, ticks[j]);
      assert all[..j + 1][..j] == all[..j];
    }
    if j + 1 < DueCount(all, now) {
      assert p.q[1] == all[j + 1];
    }
  }

  lemma AtDue(all: seq<Timer>, now: Word32, ticks: seq<Word32>, j: nat, p: Pass)
    requires j < DueCount(all, now) && AtMidway(all, now, ticks, j, p)
    ensures !Ended(p, now)
  {
  }

  /** After `j` turns without a timer that is due again. */
  lemma {:induction false} ReachMidway(lo: Word32, all: seq<Timer>, now: Word32, ticks: seq<Word32>, j: nat)
    requires Queued(lo, all, now, ticks) && j <= DueCount(all, now) && NoneAgain(all[..j], now, ticks)
    ensures AtMidway(all, now, ticks, j, Run(Start(all), now, ticks[..j]))
  {
    if j == 0 {
      StartMidway(all, now, ticks);
    } else {
      FewerNoneAgain(all, now, ticks, j - 1);
      ReachMidway(lo, all, now, ticks, j - 1);
      NextMidway(lo, all, now, ticks, j - 1);
    }
  }

  lemma StartMidway(all: seq<Timer>, now: Word32, ticks: seq<Word32>)
    requires DistinctIds(all) && |ticks| >= |all|
    ensures AtMidway(all, now, ticks, 0, Run(Start(all), now, ticks[..0]))
  {
    assert Midway(all, now, ticks, 0) == all && all[..0] == [] && ticks[..0] == [];
  }

  lemma FewerNoneAgain(all: seq<Timer>, now: Word32, ticks: seq<Word32>, j: nat)
    requires j < |all| <= |ticks| && NoneAgain(all[..j + 1], now, ticks)
    ensures NoneAgain(all[..j], now, ticks) && (Periodic(all[j]) ==> !Due(Restarted(all[j], ticks[j]), now))
  {
    assert all[..j + 1][j] == all[j];
    assert forall i :: 0 <= i < j ==> all[..j][i] == all[..j + 1][i];
  }

  lemma NextMidway(lo: Word32, all: seq<Timer>, now: Word32, ticks: seq<Word32>, j: nat)
    requires Queued(lo, all, now, ticks) && j < DueCount(all, now)
    requires Periodic(all[j]) ==> !Due(Restarted(all[j], ticks[j]), now)
    requires AtMidway(all, now, ticks, j, Run(Start(all), now, ticks[..j]))
    ensures AtMidway(all, now, ticks, j + 1, Run(Start(all), now, ticks[..j + 1]))
  {
    var r := Run(Start(all), now, ticks[..j]);
    AtDue(all, now, ticks, j, r);
    RunNext(Start(all), now, ticks, j);
    MidwayStep(lo, all, now, ticks, j, r);
  }

  lemma FirstTurn(p: Pass, tick: Word32)
    requires Good(p) && p.q != [] && p.cur == p.q[0].id
    ensures Turn(p, tick) == Pass(if Periodic(p.q[0]) then Insert(p.q[1..], Restarted(p.q[0], tick)) else p.q[1..],
                                  After(p.q, 0), p.fired + if p.q[0].armed then [p.q[0].id] else [])
  {
    RelistFirst(p.q, tick);
  }

  lemma RelistFirst(q: seq<Timer>, tick: Word32)
    requires q != [] && DistinctIds(q)
    ensures Relist(Without(q, 0), q[0], tick) == if Periodic(q[0]) then Insert(q[1..], Restarted(q[0], tick)) else q[1..]
  {
    RestDistinct(q, 0);
    assert Without(q, 0) == q[1..];
  }

  /** Then the pass ends, has called each due timer once, and leaves what it should. */
  lemma RightPass(lo: Word32, q: seq<Timer>, now: Word32, ticks: seq<Word32>)
    requires Queued(lo, q, now, ticks) && NoneAgain(q[..DueCount(q, now)], now, ticks)
    ensures var end := Run(Start(q), now, ticks);
            Ended(end, now) && end.q == AfterPass(q, now, ticks) && end.fired == Called(q[..DueCount(q, now)])
  {
    var n := DueCount(q, now);
    ReachMidway(lo, q, now, ticks, n);
    PassLeavesNoneDue(lo, q, now, ticks);
    assert Midway(q, now, ticks, n) == AfterPass(q, now, ticks);
    EndedStays(Start(q), now, ticks, n);
  }

  /** The timers with something to call among the first `n`. */
  function Armed(q: seq<Timer>, n: nat): set<nat>
    requires n <= |q|
  {
    set j: nat | j < n && q[j].armed
  }

  /** Each armed timer is called, in the order of the sequence, and no other. */
  lemma {:induction false} CalledAre(q: seq<Timer>, i: nat)
    requires i < |q|
    ensures |Called(q)| == |Armed(q, |q|)|
    ensures q[i].armed ==> |Armed(q, i)| < |Called(q)| && Called(q)[|Armed(q, i)|] == q[i].id
  {
    var n := |q| - 1;
    var u := q[..n];
    assert Armed(u, n) == Armed(q, n);
    assert Armed(q, n + 1) == if q[n].armed then Armed(q, n) + {n} else Armed(q, n);
    if n == 0 {
      assert Armed(q, 0) == {};
    } else if i < n {
      CalledAre(u, i);
      assert Armed(u, i) == Armed(q, i);
    } else {
      CalledAre(u, 0);
    }
  }

  /** What the timers that start again add to the queue. */
  lemma {:induction false} AddAgainMembers(q: seq<Timer>, fired: seq<Timer>, ticks: seq<Word32>, x: Timer)
    requires |ticks| >= |fired|
    ensures x in AddAgain(q, fired, ticks) <==>
              x in q || exists i :: 0 <= i < |fired| && StartsAgain(fired[i], ticks[i], x)
    ensures |AddAgain(q, fired, ticks)| <= |q| + |fired|
  {
    if fired != [] {
      var n := |fired| - 1;
      AddAgainMembers(q, fired[..n], ticks, x);
      if Periodic(fired[n]) {
        InsertIn(AddAgain(q, fired[..n], ticks), Restarted(fired[n], ticks[n]), x);
      }
      if i :| 0 <= i < n && StartsAgain(fired[..n][i], ticks[i], x) {
        assert StartsAgain(fired[i], ticks[i], x);
      }
      if i :| 0 <= i < n && StartsAgain(fired[i], ticks[i], x) {
        assert StartsAgain(fired[..n][i], ticks[i], x);
      }
    }
  }

  /** `x` is the timer `t`, started again at time `tick`. */
  predicate StartsAgain(t: Timer, tick: Word32, x: Timer) {
    t.armed && t.period != 0 && x == Timer(t.id, (tick + t.period) % 0x1_0000_0000, t.period, true)
  }

  /**
    After such a pass the list holds the timers that were not due as they were, and each armed timer that was due and
    has a period, one period later than the clock was at its turn; nothing else.
   */
  lemma RightPassLeaves(lo: Word32, q: seq<Timer>, now: Word32, ticks: seq<Word32>, x: Timer)
    requires Queued(lo, q, now, ticks) && NoneAgain(q[..DueCount(q, now)], now, ticks)
    ensures x in Run(Start(q), now, ticks).q <==>
              || (exists i :: 0 <= i < |q| && Since(lo, q[i].expiry) > Since(lo, now) && x == q[i])
              || exists i :: 0 <= i < |q| && Since(lo, q[i].expiry) <= Since(lo, now) && StartsAgain(q[i], ticks[i], x)
  {
    var n := DueCount(q, now);
    RightPass(lo, q, now, ticks);
    AddAgainMembers(q[n..], q[..n], ticks, x);
    SplitMembers(q, n, ticks, x);
    forall i | 0 <= i < |q|
      ensures i < n <==> Since(lo, q[i].expiry) <= Since(lo, now)
    {
      DueExactly(lo, q, now, i);
    }
  }

  lemma SplitMembers(q: seq<Timer>, n: nat, ticks: seq<Word32>, x: Timer)
    requires n <= |q| <= |ticks|
    ensures x in q[n..] <==> exists i :: n <= i < |q| && x == q[i]
    ensures (exists i :: 0 <= i < |q[..n]| && StartsAgain(q[..n][i], ticks[i], x))
       <==> exists i :: 0 <= i < n && StartsAgain(q[i], ticks[i], x)
  {
    if i :| n <= i < |q| && x == q[i] {
      assert q[n..][i - n] == x;
    }
    if i :| 0 <= i < n && StartsAgain(q[i], ticks[i], x) {
      assert StartsAgain(q[..n][i], ticks[i], x);
    }
  }

  // ---------- a timer that is due again ----------

  /** It was called before, and is still in the list as it was put there, or was called again. */
  ghost predicate Again(p: Pass, x: Timer) {
    x.armed && multiset(p.fired)[x.id] >= 1 && (x in p.q || multiset(p.fired)[x.id] >= 2)
  }

  lemma InsertIn(q: seq<Timer>, t: Timer, x: Timer)
    ensures x in Insert(q, t) <==> x == t || x in q
  {
    var n := Place(q, t);
    assert q == q[..n] + q[n..];
  }

  lemma TurnKeepsAgain(p: Pass, tick: Word32, x: Timer)
    requires Good(p) && p.cur != -1 && Again(p, x)
    ensures Again(Turn(p, tick), x)
  {
    var i := IndexOf(p.q, p.cur);
    var t, r := p.q[i], Turn(p, tick);
    assert multiset(r.fired)[x.id] == multiset(p.fired)[x.id] + if t.armed && t.id == x.id then 1 else 0;
    if x in p.q {
      if t != x {
        OthersStay(p, tick, x);
      }
    }
  }

  lemma OthersStay(p: Pass, tick: Word32, x: Timer)
    requires Good(p) && p.cur != -1 && x in p.q && x != p.q[IndexOf(p.q, p.cur)]
    ensures x in Turn(p, tick).q
  {
    var i := IndexOf(p.q, p.cur);
    RestDistinct(p.q, i);
    RestHas(p.q, i, x);
    RelistHas(Without(p.q, i), p.q[i], tick, x);
  }

  lemma RelistHas(rest: seq<Timer>, t: Timer, tick: Word32, x: Timer)
    requires x in rest && Remove(rest, t.id) == rest
    ensures x in Relist(rest, t, tick)
  {
    InsertIn(rest, Restarted(t, tick), x);
  }

  lemma RestHas(q: seq<Timer>, i: nat, x: Timer)
    requires i < |q| && x in q && x != q[i]
    ensures x in Without(q, i)
  {
    var k :| 0 <= k < |q| && q[k] == x;
    assert Without(q, i)[if k < i then k else k - 1] == x;
  }

  lemma {:induction false} RunKeepsAgain(p: Pass, now: Word32, ticks: seq<Word32>, k: nat, x: Timer)
    requires Good(p) && k <= |ticks| && Again(Run(p, now, ticks[..k]), x)
    ensures Again(Run(p, now, ticks), x)
    decreases |ticks|
  {
    if k == |ticks| {
      assert ticks[..k] == ticks;
    } else {
      var n := |ticks| - 1;
      assert ticks[..n][..k] == ticks[..k];
      RunKeepsAgain(p, now, ticks[..n], k, x);
      OneMoreAgain(p, now, ticks, x);
    }
  }

  lemma OneMoreAgain(p: Pass, now: Word32, ticks: seq<Word32>, x: Timer)
    requires Good(p) && ticks != [] && Again(Run(p, now, ticks[..|ticks| - 1]), x)
    ensures Again(Run(p, now, ticks), x)
  {
    var n := |ticks| - 1;
    var r := Run(p, now, ticks[..n]);
    if !Ended(r, now) {
      TurnKeepsAgain(r, ticks[n], x);
    }
  }

  lemma {:induction false} CalledOnce(q: seq<Timer>, id: nat)
    requires DistinctIds(q)
    ensures multiset(Called(q))[id] <= 1
    ensures multiset(Called(q))[id] == 1 ==> exists i :: 0 <= i < |q| && q[i].id == id
  {
    if q != [] {
      var n := |q| - 1;
      CalledOnce(q[..n], id);
      if i :| 0 <= i < n && q[..n][i].id == id {
        assert q[i].id == id;
      }
      if q[n].armed && q[n].id == id {
        assert q[n].id == id;
      }
    }
  }

  /** The first index where a timer is due again. */
  lemma {:induction false} FirstAgain(fired: seq<Timer>, now: Word32, ticks: seq<Word32>) returns (j: nat)
    requires |ticks| >= |fired| && !NoneAgain(fired, now, ticks)
    ensures j < |fired| && Periodic(fired[j]) && Due(Restarted(fired[j], ticks[j]), now) && NoneAgain(fired[..j], now, ticks)
  {
    var n := |fired| - 1;
    if NoneAgain(fired[..n], now, ticks) {
      j := n;
      assert forall i :: 0 <= i < n ==> fired[..n][i] == fired[i];
    } else {
      j := FirstAgain(fired[..n], now, ticks);
      assert fired[..n][..j] == fired[..j];
    }
  }

  lemma AgainAt(lo: Word32, q: seq<Timer>, now: Word32, ticks: seq<Word32>, j: nat)
    requires Queued(lo, q, now, ticks) && j < DueCount(q, now) && NoneAgain(q[..j], now, ticks) && Periodic(q[j])
    ensures Again(Run(Start(q), now, ticks[..j + 1]), Restarted(q[j], ticks[j]))
  {
    ReachMidway(lo, q, now, ticks, j);
    var p := Run(Start(q), now, ticks[..j]);
    AtDue(q, now, ticks, j, p);
    RunNext(Start(q), now, ticks, j);
    assert p.q[0] == q[j];
    FirstTurn(p, ticks[j]);
    var x := Restarted(q[j], ticks[j]);
    InsertIn(p.q[1..], x, x);
  }

  /** The first timer that is due again is called twice, or called and left due. */
  lemma WrongPass(lo: Word32, q: seq<Timer>, now: Word32, ticks: seq<Word32>) returns (j: nat)
    requires Queued(lo, q, now, ticks) && !NoneAgain(q[..DueCount(q, now)], now, ticks)
    ensures j < DueCount(q, now) && Periodic(q[j]) && Due(Restarted(q[j], ticks[j]), now)
    ensures Again(Run(Start(q), now, ticks), Restarted(q[j], ticks[j]))
  {
    j := FirstAgain(q[..DueCount(q, now)], now, ticks);
    assert q[..DueCount(q, now)][..j] == q[..j];
    AgainAt(lo, q, now, ticks, j);
    RunKeepsAgain(Start(q), now, ticks, j + 1, Restarted(q[j], ticks[j]));
  }

  /**
    The pass ends, has called exactly the timers that were due at its start, each once and in order, and leaves
    nothing due, exactly when no timer that starts again during the pass is due at once.
   */
  lemma PassRightIff(lo: Word32, q: seq<Timer>, now: Word32, ticks: seq<Word32>)
    requires Queued(lo, q, now, ticks)
    ensures var end, n := Run(Start(q), now, ticks), DueCount(q, now);
            Ended(end, now) && end.fired == Called(q[..n]) && NoneDue(end.q, now) <==> NoneAgain(q[..n], now, ticks)
  {
    if NoneAgain(q[..DueCount(q, now)], now, ticks) {
      RightPass(lo, q, now, ticks);
      PassLeavesNoneDue(lo, q, now, ticks);
    } else {
      var j := WrongPass(lo, q, now, ticks);
      CalledOnce(q[..DueCount(q, now)], q[j].id);
    }
  }

  lemma PlaceLast(b: Timer, x: Timer)
    ensures CompareTime(x.expiry, b.expiry) >= 0 ==> Insert([b], x) == [b, x]
    ensures Insert([], x) == [x]
  {
    assert Place([b][1..], x) == 0;
  }

  lemma BackTo95(a: Timer, b: Timer, x: Timer)
    requires a == Timer(1, 10, -5, true) && b == Timer(2, 20, 0, true) && x == a.(expiry := 95)
    ensures Restarted(a, 100) == x && Restarted(x, 100) == x && Due(a, 100) && Due(b, 100) && Due(x, 100)
    ensures CompareTime(x.expiry, b.expiry) >= 0
  {
  }

  /** A periodic timer goes behind the other one; ... */
  lemma TurnBehind(a: Timer, b: Timer, x: Timer)
    requires a.id != b.id && x.id == a.id && Periodic(a)
    requires Restarted(a, 100) == x && CompareTime(x.expiry, b.expiry) >= 0
    ensures Good(Start([a, b])) && Turn(Start([a, b]), 100) == Pass([b, x], b.id, [a.id])
  {
    PlaceLast(b, x);
    assert [a, b][1..] == [b];
    FirstTurn(Start([a, b]), 100);
  }

  /** ... the other one is called once; ... */
  lemma TurnOnce(b: Timer, x: Timer, fired: seq<nat>)
    requires b.id != x.id && b.armed && !Periodic(b)
    ensures Good(Pass([b, x], b.id, fired)) && Turn(Pass([b, x], b.id, fired), 100) == Pass([x], x.id, fired + [b.id])
  {
    assert [b, x][1..] == [x];
    FirstTurn(Pass([b, x], b.id, fired), 100);
  }

  /** ... and the periodic one again. */
  lemma TurnAgain(x: Timer, fired: seq<nat>)
    requires Periodic(x) && Restarted(x, 100) == x
    ensures Good(Pass([x], x.id, fired)) && Turn(Pass([x], x.id, fired), 100) == Pass([x], -1, fired + [x.id])
  {
    PlaceLast(x, x);
    assert [x][1..] == [];
    FirstTurn(Pass([x], x.id, fired), 100);
  }

  /** The second timer is called between two calls of the first, which is due again as `x`. */
  predicate DueTwice(a: Timer, b: Timer, x: Timer) {
    && a.id != b.id && x.id == a.id && Periodic(a) && Periodic(x) && b.armed && !Periodic(b)
    && Restarted(a, 100) == x && Restarted(x, 100) == x && CompareTime(x.expiry, b.expiry) >= 0
    && Due(a, 100) && Due(b, 100) && Due(x, 100)
  }

  lemma AfterOne(a: Timer, b: Timer, x: Timer)
    requires DueTwice(a, b, x)
    ensures Good(Start([a, b])) && Run(Start([a, b]), 100, [100]) == Pass([b, x], b.id, [a.id])
  {
    TurnBehind(a, b, x);
    RunMore(Start([a, b]), 100, [], 100);
    assert [] + [100 as Word32] == [100];
  }

  lemma AfterTwo(a: Timer, b: Timer, x: Timer)
    requires DueTwice(a, b, x)
    ensures Good(Start([a, b])) && Run(Start([a, b]), 100, [100, 100]) == Pass([x], x.id, [a.id, b.id])
  {
    AfterOne(a, b, x);
    TurnOnce(b, x, [a.id]);
    RunMore(Start([a, b]), 100, [100], 100);
    assert [100 as Word32] + [100] == [100, 100];
    assert [a.id] + [b.id] == [a.id, b.id];
  }

  lemma AfterThree(a: Timer, b: Timer, x: Timer)
    requires DueTwice(a, b, x)
    ensures Good(Start([a, b])) && Run(Start([a, b]), 100, [100, 100, 100]) == Pass([x], -1, [a.id, b.id, a.id])
  {
    AfterTwo(a, b, x);
    TurnAgain(x, [a.id, b.id]);
    RunMore(Start([a, b]), 100, [100, 100], 100);
    assert [100 as Word32, 100] + [100] == [100, 100, 100];
    assert [a.id, b.id] + [x.id] == [a.id, b.id, a.id];
  }

  /** Two timers, the first with a negative period: it goes behind the second and is called twice in one pass. */
  lemma CalledTwice(a: Timer, b: Timer)
    requires a == Timer(1, 10, -5, true) && b == Timer(2, 20, 0, true)
    ensures Good(Start([a, b]))
    ensures var end := Run(Start([a, b]), 100, [100, 100, 100]);
            Ended(end, 100) && end.fired == [1, 2, 1] && end.q == [a.(expiry := 95)]
  {
    BackTo95(a, b, a.(expiry := 95));
    AfterThree(a, b, a.(expiry := 95));
  }

  lemma RunMore(p: Pass, now: Word32, ticks: seq<Word32>, tick: Word32)
    requires Good(p) && !Ended(Run(p, now, ticks), now)
    ensures Run(p, now, ticks + [tick]) == Turn(Run(p, now, ticks), tick)
  {
    assert (ticks + [tick])[..|ticks|] == ticks;
  }

  /** Two timers that are due again at once take turns. */
  lemma TurnsBack(a: Timer, b: Timer, fired: seq<nat>, tick: Word32)
    requires a.id != b.id && Periodic(a) && Restarted(a, tick) == a && CompareTime(a.expiry, b.expiry) >= 0
    ensures Good(Pass([a, b], a.id, fired)) && Turn(Pass([a, b], a.id, fired), tick) == Pass([b, a], b.id, fired + [a.id])
  {
    PlaceLast(b, a);
    assert [a, b][1..] == [b];
    FirstTurn(Pass([a, b], a.id, fired), tick);
  }

  function Same(n: nat, tick: Word32): seq<Word32> {
    if n == 0 then [] else Same(n - 1, tick) + [tick]
  }

  lemma {:induction false} TakeTurns(a: Timer, b: Timer, now: Word32, n: nat)
    requires a.id != b.id && Periodic(a) && Periodic(b) && Restarted(a, now) == a && Restarted(b, now) == b
    requires CompareTime(a.expiry, b.expiry) >= 0 && CompareTime(b.expiry, a.expiry) >= 0 && Due(a, now) && Due(b, now)
    ensures Good(Start([a, b])) && Taking(a, b, Run(Start([a, b]), now, Same(n, now)))
  {
    if n > 0 {
      TakeTurns(a, b, now, n - 1);
      var p := Run(Start([a, b]), now, Same(n - 1, now));
      if p.cur == a.id {
        TakeTurn(a, b, p, now);
      } else {
        TakeTurn(b, a, p, now);
      }
      RunMore(Start([a, b]), now, Same(n - 1, now), now);
    }
  }

  /** The first of the two timers in the list is next. */
  predicate Taking(a: Timer, b: Timer, p: Pass) {
    (p.q == [a, b] && p.cur == a.id) || (p.q == [b, a] && p.cur == b.id)
  }

  lemma TakeTurn(a: Timer, b: Timer, p: Pass, now: Word32)
    requires a.id != b.id && Periodic(a) && Restarted(a, now) == a && CompareTime(a.expiry, b.expiry) >= 0 && Due(a, now)
    requires p.q == [a, b] && p.cur == a.id
    ensures Good(p) && !Ended(p, now) && Turn(p, now).q == [b, a] && Turn(p, now).cur == b.id
  {
    TurnsBack(a, b, p.fired, now);
    assert p == Pass([a, b], a.id, p.fired);
  }

  /** While the clock stands still, a pass over two timers with negative periods never ends. */
  lemma Endless(a: Timer, b: Timer, n: nat)
    requires a == Timer(1, 95, -5, true) && b == Timer(2, 95, -5, true)
    ensures Good(Start([a, b])) && !Ended(Run(Start([a, b]), 100, Same(n, 100)), 100)
  {
    TakeTurns(a, b, 100, n);
  }
}
