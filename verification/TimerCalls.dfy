/**
  The timer calls of a thread.
 */
module TimerCalls {
  import opened ThreadTimer
  import opened TimerPass

  class Timers {
    var q: seq<Timer>

    constructor ()
      ensures q == []
    {
      q := [];
    }

    /** `_thread_timer_remove`. */
    method RemoveTimer(id: nat)
      modifies this`q
      ensures q == Remove(old(q), id)
      ensures (forall i :: 0 <= i < |old(q)| ==> old(q)[i].id != id) ==> q == old(q)
      ensures forall n :: 0 <= n < |old(q)| && old(q)[n].id == id && (forall i :: 0 <= i < n ==> old(q)[i].id != id) ==>
                q == old(q)[..n] + old(q)[n + 1..]
    {
      RemovesFirst(q, id);
      Unlink(id);
    }

    method Unlink(id: nat)
      modifies this`q
      ensures q == Remove(old(q), id)
    {
      ghost var all := q;
      var i := 0;
      while i < |q|
        invariant q == all && i <= |q|
        invariant Remove(all, id) == all[..i] + Remove(all[i..], id)
      {
        if q[i].id == id {
          q := q[..i] + q[i + 1..];
          return;
        }
        i := i + 1;
      }
    }

    /** `_thread_timer_insert`. */
    method InsertTimer(t: Timer)
      modifies this`q
      ensures q == Insert(old(q), t)
    {
      var i := 0;
      while i < |q|
        invariant q == old(q) && i <= |q|
        invariant forall k :: 0 <= k < i ==> CompareTime(t.expiry, q[k].expiry) >= 0
      {
        if CompareTime(t.expiry, q[i].expiry) < 0 {
          PlaceUnique(q, t, i);
          q := q[..i] + [t] + q[i..];
          return;
        }
        i := i + 1;
      }
      PlaceUnique(q, t, i);
      q := q + [t];
    }

    /** `thread_timer_start` at time `tick`. */
    method Start(t: Timer, duration: Signed32, period: Signed32, tick: Word32)
      modifies this`q
      ensures q == Insert(Remove(old(q), t.id), t.(expiry := (tick + duration) % WRAP, period := period))
    {
      RemoveTimer(t.id);
      InsertTimer(t.(expiry := (tick + duration) % WRAP, period := period));
    }

    method Restart(t: Timer, tick: Word32)
      modifies this`q
      ensures q == Insert(Remove(old(q), t.id), Restarted(t, tick))
    {
      Start(t, t.period, t.period, tick);
    }

    /** The body of the loop, for the timer at index `i`; `called` are the timers called before. */
    method FireAt(i: nat, tick: Word32, called: seq<nat>) returns (next: int, more: seq<nat>)
      requires i < |q| && DistinctIds(q) && HasId(q, q[i].id) && IndexOf(q, q[i].id) == i
      modifies this
      ensures Pass(q, next, more) == Turn(Pass(old(q), old(q[i].id), called), tick)
    {
      next, more := After(q, i), called;
      var t := q[i];
      q := q[..i] + q[i + 1..];
      if t.armed {
        if t.period != 0 {
          Restart(t, tick);
        }
        more := more + [t.id];
      }
    }

    /**
      `thread_timer_handle_expired` at time `now`; `ticks` are the clock readings of the turns, as many as the pass
      needs. Nothing is asked of periods and times but that the pass ends.
     */
    method HandleExpired(now: Word32, ticks: seq<Word32>) returns (called: seq<nat>)
      requires DistinctIds(q) && Ended(Run(TimerPass.Start(q), now, ticks), now)
      modifies this
      ensures q == Run(TimerPass.Start(old(q)), now, ticks).q && DistinctIds(q)
      ensures called == Run(TimerPass.Start(old(q)), now, ticks).fired
    {
      ghost var p := TimerPass.Start(q);
      var cur, j := if q == [] then -1 else q[0].id, 0;
      called := [];
      while cur != -1
        invariant 0 <= j <= |ticks| && Pass(q, cur, called) == Run(p, now, ticks[..j])
        decreases |ticks| - j
      {
        var i := IndexOf(q, cur);
        if !Due(q[i], now) {
          break;
        }
        NotYet(p, now, ticks, j);
        cur, called := FireAt(i, ticks[j], called);
        j := j + 1;
      }
      EndedStays(p, now, ticks, j);
    }
  }

  lemma RemovesFirst(q: seq<Timer>, id: nat)
    ensures (forall i :: 0 <= i < |q| ==> q[i].id != id) ==> Remove(q, id) == q
    ensures forall n :: 0 <= n < |q| && q[n].id == id && (forall i :: 0 <= i < n ==> q[i].id != id) ==>
              Remove(q, id) == q[..n] + q[n + 1..]
  {
    if forall i :: 0 <= i < |q| ==> q[i].id != id {
      RemoveAbsent(q, id);
    }
    forall n | 0 <= n < |q| && q[n].id == id && (forall i :: 0 <= i < n ==> q[i].id != id)
      ensures Remove(q, id) == q[..n] + q[n + 1..]
    {
      RemoveIs(q, id, n);
    }
  }

  lemma NotYet(p: Pass, now: Word32, ticks: seq<Word32>, j: nat)
    requires Good(p) && j <= |ticks| && !Ended(Run(p, now, ticks[..j]), now) && Ended(Run(p, now, ticks), now)
    ensures j < |ticks| && Run(p, now, ticks[..j + 1]) == Turn(Run(p, now, ticks[..j]), ticks[j])
  {
    assert ticks[..|ticks|] == ticks;
    if j < |ticks| {
      RunNext(p, now, ticks, j);
    }
  }
}
