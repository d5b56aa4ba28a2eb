/**
  Message queues: a ring of messages and one wait queue that senders and receivers share.
  Each call up to the point where it pends or returns is one step, and so is each timeout.
 */
module MsgqProtocol {
  import opened WaitQueue

  type Msg = seq<bv8>

  /** A waiting thread and the memory that its `swap_data` points to: a message to send, or a receive buffer. */
  datatype Waiter = Waiter(tid: nat, sends: bool, buffer: Msg)

  /** A message and the thread that sent it. */
  datatype Sent = Sent(tid: nat, msg: Msg)

  /** How a message left the queue: received by a thread, or purged. */
  datatype Fate = Delivered(sent: Sent, receiver: nat) | Purged(sent: Sent)

  /**
    `accepted` records the messages whose senders were told that they succeeded, in that order, `passed`
    what became of those that are no longer in the ring, and `refused` the waiting threads
    that a purge or a timeout sent away.
   */
  datatype State = State(
    max: nat, ring: seq<Sent>, waiters: Queue<Waiter>,
    accepted: seq<Sent>, passed: seq<Fate>, refused: seq<Waiter>)

  // ---------- steps ----------

  /** `k_msgq_put`: to the first waiting thread, into the ring, or wait. */
  function PutStep(st: State, tid: nat, prio: int, msg: Msg, wait: bool): State {
    if |st.ring| < st.max then
      var s := st.(accepted := st.accepted + [Sent(tid, msg)]);
      if st.waiters != [] then
        s.(waiters := st.waiters[1..], passed := st.passed + [Delivered(Sent(tid, msg), st.waiters[0].item.tid)])
      else s.(ring := st.ring + [Sent(tid, msg)])
    else if wait then st.(waiters := Insert(st.waiters, Waiting(prio, Waiter(tid, true, msg))))
    else st
  }

  /** `k_msgq_get`: the oldest message, and the first waiting thread's memory goes into the ring; or wait. */
  function GetStep(st: State, tid: nat, prio: int, buffer: Msg, wait: bool): State {
    if st.ring != [] then
      var s := st.(ring := st.ring[1..], passed := st.passed + [Delivered(st.ring[0], tid)]);
      if st.waiters != [] then
        var w := st.waiters[0].item;
        s.(waiters := st.waiters[1..], ring := s.ring + [Sent(w.tid, w.buffer)],
           accepted := st.accepted + [Sent(w.tid, w.buffer)])
      else s
    else if wait then st.(waiters := Insert(st.waiters, Waiting(prio, Waiter(tid, false, buffer))))
    else st
  }

  function Items(q: Queue<Waiter>): seq<Waiter> {
    seq(|q|, i requires 0 <= i < |q| => q[i].item)
  }

  function AllPurged(ring: seq<Sent>): seq<Fate> {
    seq(|ring|, i requires 0 <= i < |ring| => Purged(ring[i]))
  }

  /** `k_msgq_purge`: all waiting threads fail and the ring is emptied. */
  function PurgeStep(st: State): State {
    st.(waiters := [], ring := [], passed := st.passed + AllPurged(st.ring), refused := st.refused + Items(st.waiters))
  }

  function TimeoutStep(st: State, n: nat): State
    requires n < |st.waiters|
  {
    st.(waiters := Without(st.waiters, n), refused := st.refused + [st.waiters[n].item])
  }

  datatype Step =
    | Put(tid: nat, prio: int, msg: Msg, wait: bool)
    | Get(tid: nat, prio: int, buffer: Msg, wait: bool)
    | Purge
    | Timeout(n: nat)

  predicate Enabled(st: State, step: Step) {
    step.Timeout? ==> step.n < |st.waiters|
  }

  function Next(st: State, step: Step): State
    requires Enabled(st, step)
  {
    match step
    case Put(tid, prio, msg, wait) => PutStep(st, tid, prio, msg, wait)
    case Get(tid, prio, buffer, wait) => GetStep(st, tid, prio, buffer, wait)
    case Purge => PurgeStep(st)
    case Timeout(n) => TimeoutStep(st, n)
  }

  /** What a put does, by the room in the ring and the waiting threads. */
  lemma PutOutcome(st: State, tid: nat, prio: int, msg: Msg, wait: bool)
    ensures var u := PutStep(st, tid, prio, msg, wait);
            && u.max == st.max && u.refused == st.refused
            && (|st.ring| < st.max ==> u.accepted == st.accepted + [Sent(tid, msg)])
            && (|st.ring| < st.max && st.waiters == [] ==>
                  u.ring == st.ring + [Sent(tid, msg)] && u.waiters == [] && u.passed == st.passed)
            && (|st.ring| < st.max && st.waiters != [] ==>
                  u.ring == st.ring && u.waiters == st.waiters[1..] &&
                  u.passed == st.passed + [Delivered(Sent(tid, msg), st.waiters[0].item.tid)])
            && (|st.ring| >= st.max ==>
                  u.ring == st.ring && u.accepted == st.accepted && u.passed == st.passed &&
                  u.waiters == if wait then Insert(st.waiters, Waiting(prio, Waiter(tid, true, msg))) else st.waiters)
  {
  }

  /** A purge ends every message of the ring and refuses every waiting thread, in order. */
  lemma PurgeOutcome(st: State)
    ensures var u := PurgeStep(st);
            && u.max == st.max && u.ring == [] && u.waiters == [] && u.accepted == st.accepted
            && |u.passed| == |st.passed| + |st.ring| && u.passed[..|st.passed|] == st.passed
            && (forall i :: 0 <= i < |st.ring| ==> u.passed[|st.passed| + i] == Purged(st.ring[i]))
            && |u.refused| == |st.refused| + |st.waiters| && u.refused[..|st.refused|] == st.refused
            && forall i :: 0 <= i < |st.waiters| ==> u.refused[|st.refused| + i] == st.waiters[i].item
  {
  }

  // ---------- the shared wait queue ----------

  predicate AllSend(q: Queue<Waiter>) {
    forall i :: 0 <= i < |q| ==> q[i].item.sends
  }

  predicate AllReceive(q: Queue<Waiter>) {
    forall i :: 0 <= i < |q| ==> !q[i].item.sends
  }

  /** The waiting threads are all receivers and the ring is empty, or all senders and the ring is full. */
  predicate OneKind(st: State) {
    && |st.ring| <= st.max
    && (st.waiters != [] ==>
          || (AllReceive(st.waiters) && st.ring == [])
          || (AllSend(st.waiters) && |st.ring| == st.max))
  }

  lemma InsertKind(q: Queue<Waiter>, w: Waiting<Waiter>)
    ensures AllSend(Insert(q, w)) <==> AllSend(q) && w.item.sends
    ensures AllReceive(Insert(q, w)) <==> AllReceive(q) && !w.item.sends
  {
    var n := Place(q, w.prio);
    KindOfThree(q[..n], w, q[n..]);
    assert q == q[..n] + q[n..];
  }

  lemma KindOfThree(a: Queue<Waiter>, w: Waiting<Waiter>, b: Queue<Waiter>)
    ensures AllSend(a + [w] + b) <==> AllSend(a + b) && w.item.sends
    ensures AllReceive(a + [w] + b) <==> AllReceive(a + b) && !w.item.sends
  {
    KindOfTwo(a, b);
    KindOfTwo(a, [w]);
    KindOfTwo(a + [w], b);
    assert AllSend([w]) <==> [w][0].item.sends;
    assert AllReceive([w]) <==> ![w][0].item.sends;
  }

  lemma KindOfTwo(a: Queue<Waiter>, b: Queue<Waiter>)
    ensures AllSend(a + b) <==> AllSend(a) && AllSend(b)
    ensures AllReceive(a + b) <==> AllReceive(a) && AllReceive(b)
  {
    assert forall i :: 0 <= i < |a| ==> (a + b)[i] == a[i];
    assert forall i :: 0 <= i < |b| ==> (a + b)[|a| + i] == b[i];
  }

  lemma StepKeepsOneKind(st: State, step: Step)
    requires Enabled(st, step) && OneKind(st) && st.max > 0
    ensures OneKind(Next(st, step))
  {
    match step
    case Put(tid, prio, msg, _) => InsertKind(st.waiters, Waiting(prio, Waiter(tid, true, msg)));
    case Get(tid, prio, buffer, _) => InsertKind(st.waiters, Waiting(prio, Waiter(tid, false, buffer)));
    case Purge =>
    case Timeout(_) =>
  }

  // ---------- first in, first out ----------

  function Gone(passed: seq<Fate>): seq<Sent> {
    seq(|passed|, i requires 0 <= i < |passed| => passed[i].sent)
  }

  /** Accepted messages leave in the order of acceptance, and each once: what is not gone is in the ring. */
  predicate InOrder(st: State) {
    st.accepted == Gone(st.passed) + st.ring
  }

  lemma GoneAppend(passed: seq<Fate>, f: Fate)
    ensures Gone(passed + [f]) == Gone(passed) + [f.sent]
  {
  }

  lemma PutKeepsOrder(st: State, tid: nat, prio: int, msg: Msg, wait: bool)
    requires (st.max > 0 ==> OneKind(st)) && InOrder(st)
    ensures InOrder(PutStep(st, tid, prio, msg, wait))
  {
    if |st.ring| < st.max && st.waiters != [] {
      assert st.ring == [] by { assert st.waiters[0].item.sends || !st.waiters[0].item.sends; }
      GoneAppend(st.passed, Delivered(Sent(tid, msg), st.waiters[0].item.tid));
    }
  }

  lemma GetKeepsOrder(st: State, tid: nat, prio: int, buffer: Msg, wait: bool)
    requires InOrder(st)
    ensures InOrder(GetStep(st, tid, prio, buffer, wait))
  {
    if st.ring != [] {
      GoneAppend(st.passed, Delivered(st.ring[0], tid));
      assert st.ring == [st.ring[0]] + st.ring[1..];
    }
  }

  lemma StepKeepsOrder(st: State, step: Step)
    requires Enabled(st, step) && (st.max > 0 ==> OneKind(st)) && InOrder(st)
    ensures InOrder(Next(st, step))
  {
    match step
    case Put(tid, prio, msg, wait) => PutKeepsOrder(st, tid, prio, msg, wait);
    case Get(tid, prio, buffer, wait) => GetKeepsOrder(st, tid, prio, buffer, wait);
    case Purge => assert Gone(st.passed + AllPurged(st.ring)) == Gone(st.passed) + st.ring;
    case Timeout(_) =>
  }

  /** The last message that each thread received: the contents of its receive buffer. */
  function Latest(passed: seq<Fate>): map<nat, Msg> {
    if passed == [] then map[]
    else
      var last, rest := passed[|passed| - 1], Latest(passed[..|passed| - 1]);
      if last.Delivered? then rest[last.receiver := last.sent.msg] else rest
  }

  lemma LatestDelivered(passed: seq<Fate>, sent: Sent, receiver: nat)
    ensures Latest(passed + [Delivered(sent, receiver)]) == Latest(passed)[receiver := sent.msg]
  {
    assert (passed + [Delivered(sent, receiver)])[..|passed|] == passed;
  }

  lemma {:induction false} LatestPurged(passed: seq<Fate>, ring: seq<Sent>)
    ensures Latest(passed + AllPurged(ring)) == Latest(passed)
  {
    if ring == [] {
      assert passed + AllPurged(ring) == passed;
    } else {
      var n := |ring| - 1;
      LatestPurged(passed, ring[..n]);
      var all := passed + AllPurged(ring);
      assert all[..|all| - 1] == passed + AllPurged(ring[..n]);
    }
  }

  /** A put hands its message to a waiting receiver, a get makes room for a waiting sender: never the other way round. */
  lemma RightKind(st: State)
    requires OneKind(st) && st.waiters != []
    ensures |st.ring| < st.max ==> !st.waiters[0].item.sends
    ensures st.ring != [] ==> st.waiters[0].item.sends
  {
  }

  // ---------- whole runs ----------

  function Init(max: nat): State {
    State(max, [], [], [], [], [])
  }

  ghost predicate Run(st: State, steps: seq<Step>, end: State)
    decreases |steps|
  {
    if steps == [] then end == st
    else Enabled(st, steps[0]) && Run(Next(st, steps[0]), steps[1..], end)
  }

  /** Every run delivers in order, and with room for a message the waiting threads are of one kind. */
  lemma {:induction false} RunKeeps(st: State, steps: seq<Step>, end: State)
    requires (st.max > 0 ==> OneKind(st)) && InOrder(st) && Run(st, steps, end)
    ensures end.max == st.max && (end.max > 0 ==> OneKind(end)) && InOrder(end)
    decreases |steps|
  {
    if steps != [] {
      if st.max > 0 {
        StepKeepsOneKind(st, steps[0]);
      }
      StepKeepsOrder(st, steps[0]);
      RunKeeps(Next(st, steps[0]), steps[1..], end);
    }
  }

  // ---------- the records are those of the calls ----------

  function If(b: bool): nat {
    if b then 1 else 0
  }

  /** How many of the put calls have the thread and message `x`, and how many of the get calls the thread `tid`. */
  function PutCalls(steps: seq<Step>, x: Sent): nat {
    if steps == [] then 0
    else If(steps[0].Put? && Sent(steps[0].tid, steps[0].msg) == x) + PutCalls(steps[1..], x)
  }

  function GetCalls(steps: seq<Step>, tid: nat): nat {
    if steps == [] then 0 else If(steps[0].Get? && steps[0].tid == tid) + GetCalls(steps[1..], tid)
  }

  function Senders(ws: seq<Waiter>, x: Sent): nat {
    if ws == [] then 0 else If(ws[0].sends && Sent(ws[0].tid, ws[0].buffer) == x) + Senders(ws[1..], x)
  }

  function Receivers(ws: seq<Waiter>, tid: nat): nat {
    if ws == [] then 0 else If(!ws[0].sends && ws[0].tid == tid) + Receivers(ws[1..], tid)
  }

  /** How many messages a thread has received. */
  function Served(passed: seq<Fate>, tid: nat): nat {
    if passed == [] then 0
    else
      var last := passed[|passed| - 1];
      Served(passed[..|passed| - 1], tid) + If(last.Delivered? && last.receiver == tid)
  }

  lemma {:induction false} WaitersConcat(a: seq<Waiter>, b: seq<Waiter>, x: Sent, tid: nat)
    ensures Senders(a + b, x) == Senders(a, x) + Senders(b, x)
    ensures Receivers(a + b, tid) == Receivers(a, tid) + Receivers(b, tid)
  {
    if a == [] {
      assert a + b == b;
    } else {
      WaitersConcat(a[1..], b, x, tid);
      assert (a + b)[1..] == a[1..] + b;
    }
  }

  lemma ItemsSplice(a: Queue<Waiter>, w: Waiting<Waiter>, b: Queue<Waiter>)
    ensures Items(a + [w] + b) == Items(a) + [w.item] + Items(b)
    ensures Items(a + b) == Items(a) + Items(b)
  {
  }

  /** One waiting thread more or less. */
  lemma WaitersSplice(a: Queue<Waiter>, w: Waiting<Waiter>, b: Queue<Waiter>, x: Sent, tid: nat)
    ensures Senders(Items(a + [w] + b), x) == Senders(Items(a + b), x) + Senders([w.item], x)
    ensures Receivers(Items(a + [w] + b), tid) == Receivers(Items(a + b), tid) + Receivers([w.item], tid)
  {
    ItemsSplice(a, w, b);
    WaitersConcat(Items(a) + [w.item], Items(b), x, tid);
    WaitersConcat(Items(a), [w.item], x, tid);
    WaitersConcat(Items(a), Items(b), x, tid);
  }

  lemma WaitersInsert(q: Queue<Waiter>, w: Waiting<Waiter>, x: Sent, tid: nat)
    ensures Senders(Items(Insert(q, w)), x) == Senders(Items(q), x) + Senders([w.item], x)
    ensures Receivers(Items(Insert(q, w)), tid) == Receivers(Items(q), tid) + Receivers([w.item], tid)
  {
    var n := Place(q, w.prio);
    WaitersSplice(q[..n], w, q[n..], x, tid);
    assert q[..n] + q[n..] == q;
  }

  lemma WaitersWithout(q: Queue<Waiter>, n: nat, x: Sent, tid: nat)
    requires n < |q|
    ensures Senders(Items(q), x) == Senders(Items(Without(q, n)), x) + Senders([q[n].item], x)
    ensures Receivers(Items(q), tid) == Receivers(Items(Without(q, n)), tid) + Receivers([q[n].item], tid)
  {
    WaitersSplice(q[..n], q[n], q[n + 1..], x, tid);
    assert q[..n] + [q[n]] + q[n + 1..] == q;
  }

  lemma WaitersRest(q: Queue<Waiter>, x: Sent, tid: nat)
    requires q != []
    ensures Senders(Items(q), x) == Senders(Items(q[1..]), x) + If(q[0].item.sends && Sent(q[0].item.tid, q[0].item.buffer) == x)
    ensures Receivers(Items(q), tid) == Receivers(Items(q[1..]), tid) + If(!q[0].item.sends && q[0].item.tid == tid)
  {
    assert Items(q)[1..] == Items(q[1..]);
  }

  lemma ServedMore(passed: seq<Fate>, f: Fate, tid: nat)
    ensures Served(passed + [f], tid) == Served(passed, tid) + If(f.Delivered? && f.receiver == tid)
  {
    assert (passed + [f])[..|passed|] == passed;
  }

  lemma PurgedLast(passed: seq<Fate>, ring: seq<Sent>)
    requires ring != []
    ensures var n := |ring| - 1;
            passed + AllPurged(ring) == passed + AllPurged(ring[..n]) + [Purged(ring[n])]
  {
  }

  lemma {:induction false} ServedPurged(passed: seq<Fate>, ring: seq<Sent>, tid: nat)
    ensures Served(passed + AllPurged(ring), tid) == Served(passed, tid)
  {
    if ring == [] {
      assert passed + AllPurged(ring) == passed;
    } else {
      var n := |ring| - 1;
      ServedPurged(passed, ring[..n], tid);
      ServedMore(passed + AllPurged(ring[..n]), Purged(ring[n]), tid);
      PurgedLast(passed, ring);
    }
  }

  /** How often a put is recorded: accepted, waiting, or sent away. */
  function PutLedger(st: State, x: Sent): nat {
    Occurs(st.accepted, x) + Senders(Items(st.waiters), x) + Senders(st.refused, x)
  }

  function GetLedger(st: State, tid: nat): nat {
    Served(st.passed, tid) + Receivers(Items(st.waiters), tid) + Receivers(st.refused, tid)
  }

  /** A put that finds no room and a get that finds no message fail at once if they must not wait. */
  predicate FailsAtOnce(st: State, step: Step) {
    || (step.Put? && !step.wait && |st.ring| >= st.max)
    || (step.Get? && !step.wait && st.ring == [])
  }

  lemma PutRecorded(st: State, tid: nat, prio: int, msg: Msg, wait: bool, x: Sent, y: nat)
    requires st.max > 0 ==> OneKind(st)
    ensures var u := PutStep(st, tid, prio, msg, wait);
            && PutLedger(u, x) == PutLedger(st, x) + If((wait || |st.ring| < st.max) && Sent(tid, msg) == x)
            && GetLedger(u, y) == GetLedger(st, y)
  {
    if |st.ring| < st.max {
      OccursAppend(st.accepted, Sent(tid, msg), x);
      if st.waiters != [] {
        RightKind(st);
        WaitersRest(st.waiters, x, y);
        ServedMore(st.passed, Delivered(Sent(tid, msg), st.waiters[0].item.tid), y);
      }
    } else if wait {
      WaitersInsert(st.waiters, Waiting(prio, Waiter(tid, true, msg)), x, y);
    }
  }

  lemma GetRecorded(st: State, tid: nat, prio: int, buffer: Msg, wait: bool, x: Sent, y: nat)
    requires (st.max > 0 ==> OneKind(st)) && |st.ring| <= st.max
    ensures var u := GetStep(st, tid, prio, buffer, wait);
            && PutLedger(u, x) == PutLedger(st, x)
            && GetLedger(u, y) == GetLedger(st, y) + If((wait || st.ring != []) && tid == y)
  {
    if st.ring != [] {
      ServedMore(st.passed, Delivered(st.ring[0], tid), y);
      if st.waiters != [] {
        var w := st.waiters[0].item;
        RightKind(st);
        WaitersRest(st.waiters, x, y);
        OccursAppend(st.accepted, Sent(w.tid, w.buffer), x);
      }
    } else if wait {
      WaitersInsert(st.waiters, Waiting(prio, Waiter(tid, false, buffer)), x, y);
    }
  }

  /** Each call that does not fail at once is recorded, with its own thread and message, and nothing else is. */
  lemma StepRecorded(st: State, step: Step, x: Sent, tid: nat)
    requires Enabled(st, step) && (st.max > 0 ==> OneKind(st)) && |st.ring| <= st.max
    ensures var u := Next(st, step);
            && PutLedger(u, x) == PutLedger(st, x) + (if FailsAtOnce(st, step) then 0 else PutCalls([step], x))
            && GetLedger(u, tid) == GetLedger(st, tid) + (if FailsAtOnce(st, step) then 0 else GetCalls([step], tid))
            && |u.ring| <= u.max
  {
    assert [step][1..] == [];
    match step
    case Put(id, prio, msg, wait) => PutRecorded(st, id, prio, msg, wait, x, tid);
    case Get(id, prio, buffer, wait) => GetRecorded(st, id, prio, buffer, wait, x, tid);
    case Purge =>
      WaitersConcat(st.refused, Items(st.waiters), x, tid);
      ServedPurged(st.passed, st.ring, tid);
    case Timeout(n) =>
      WaitersConcat(st.refused, [st.waiters[n].item], x, tid);
      WaitersWithout(st.waiters, n, x, tid);
  }

  /** The calls of a run that did not fail at once. */
  function Entered(st: State, steps: seq<Step>): seq<Step>
    decreases |steps|
  {
    if steps == [] || !Enabled(st, steps[0]) then []
    else (if FailsAtOnce(st, steps[0]) then [] else [steps[0]]) + Entered(Next(st, steps[0]), steps[1..])
  }

  lemma CallsConcat(step: Step, steps: seq<Step>, x: Sent, tid: nat)
    ensures PutCalls([step] + steps, x) == PutCalls([step], x) + PutCalls(steps, x)
    ensures GetCalls([step] + steps, tid) == GetCalls([step], tid) + GetCalls(steps, tid)
  {
    assert [step][1..] == [] && ([step] + steps)[1..] == steps;
  }

  lemma {:induction false} RunRecorded(st: State, steps: seq<Step>, end: State, x: Sent, tid: nat)
    requires (st.max > 0 ==> OneKind(st)) && |st.ring| <= st.max && Run(st, steps, end)
    ensures PutLedger(end, x) == PutLedger(st, x) + PutCalls(Entered(st, steps), x)
    ensures GetLedger(end, tid) == GetLedger(st, tid) + GetCalls(Entered(st, steps), tid)
    decreases |steps|
  {
    if steps != [] {
      var mid, rest := Next(st, steps[0]), Entered(Next(st, steps[0]), steps[1..]);
      StepRecorded(st, steps[0], x, tid);
      if st.max > 0 {
        StepKeepsOneKind(st, steps[0]);
      }
      RunRecorded(mid, steps[1..], end, x, tid);
      CallsConcat(steps[0], rest, x, tid);
      if FailsAtOnce(st, steps[0]) {
        assert [] + rest == rest;
      }
    }
  }

  /**
    Over every run of an initialised queue: the accepted messages, the waiting senders and those sent away are, with
    their threads and messages, the put calls that did not fail at once; and the receivers likewise the get calls.
   */
  lemma CallsRecorded(max: nat, steps: seq<Step>, end: State, x: Sent, tid: nat)
    requires Run(Init(max), steps, end)
    ensures Occurs(end.accepted, x) + Senders(Items(end.waiters), x) + Senders(end.refused, x)
         == PutCalls(Entered(Init(max), steps), x)
    ensures Served(end.passed, tid) + Receivers(Items(end.waiters), tid) + Receivers(end.refused, tid)
         == GetCalls(Entered(Init(max), steps), tid)
  {
    RunRecorded(Init(max), steps, end, x, tid);
    assert Items([]) == [];
  }

  lemma {:induction false} EnteredOnly(st: State, steps: seq<Step>, x: Sent)
    ensures PutCalls(Entered(st, steps), x) <= PutCalls(steps, x)
    decreases |steps|
  {
    if steps != [] && Enabled(st, steps[0]) {
      var rest := Entered(Next(st, steps[0]), steps[1..]);
      EnteredOnly(Next(st, steps[0]), steps[1..], x);
      CallsConcat(steps[0], rest, x, 0);
      CallsConcat(steps[0], steps[1..], x, 0);
      assert [steps[0]] + steps[1..] == steps && [] + rest == rest;
    }
  }

  lemma {:induction false} CallFound(steps: seq<Step>, x: Sent) returns (j: nat)
    requires PutCalls(steps, x) > 0
    ensures j < |steps| && steps[j].Put? && steps[j].tid == x.tid && steps[j].msg == x.msg
  {
    if steps[0].Put? && Sent(steps[0].tid, steps[0].msg) == x {
      j := 0;
    } else {
      j := CallFound(steps[1..], x);
      j := j + 1;
    }
  }

  /** Every accepted message is that of a put call of the run, also if it had to wait for a get. */
  lemma AcceptedFromCall(max: nat, steps: seq<Step>, end: State, i: nat) returns (j: nat)
    requires Run(Init(max), steps, end) && i < |end.accepted|
    ensures j < |steps| && steps[j].Put? && end.accepted[i] == Sent(steps[j].tid, steps[j].msg)
  {
    var x := end.accepted[i];
    CallsRecorded(max, steps, end, x, 0);
    EnteredOnly(Init(max), steps, x);
    assert x in multiset(end.accepted);
    j := CallFound(steps, x);
  }

  /** Who made a waiting thread wait: a call with its priority, its buffer and leave to wait. */
  predicate CalledBy(step: Step, w: Waiting<Waiter>) {
    if w.item.sends then step == Put(w.item.tid, w.prio, w.item.buffer, true)
    else step == Get(w.item.tid, w.prio, w.item.buffer, true)
  }

  lemma WaitersCalled(st: State, step: Step, w: Waiting<Waiter>)
    requires Enabled(st, step) && w in Next(st, step).waiters
    ensures w in st.waiters || CalledBy(step, w)
  {
    match step
    case Put(tid, prio, msg, wait) => InsertMember(st.waiters, Waiting(prio, Waiter(tid, true, msg)), w);
    case Get(tid, prio, buffer, wait) => InsertMember(st.waiters, Waiting(prio, Waiter(tid, false, buffer)), w);
    case Purge =>
    case Timeout(_) =>
  }

  /** Every waiting thread of a run waits with the priority and the buffer of its own call. */
  lemma {:induction false} RunWaitersCalled(st: State, steps: seq<Step>, end: State, w: Waiting<Waiter>)
    requires Run(st, steps, end) && w in end.waiters
    ensures w in st.waiters || exists j :: 0 <= j < |steps| && CalledBy(steps[j], w)
    decreases |steps|
  {
    if steps != [] {
      var mid := Next(st, steps[0]);
      RunWaitersCalled(mid, steps[1..], end, w);
      if w in mid.waiters {
        WaitersCalled(st, steps[0], w);
      } else {
        var j :| 0 <= j < |steps[1..]| && CalledBy(steps[1..][j], w);
        assert CalledBy(steps[j + 1], w);
      }
    }
  }

  /** A queue without room: a sender and a receiver end up waiting next to each other. */
  lemma NoRoomNoMeeting(msg: Msg)
    ensures var steps := [Put(1, 0, msg, true), Get(2, 0, [], true)];
            exists end :: Run(Init(0), steps, end) && !OneKind(end)
  {
    var steps := [Put(1, 0, msg, true), Get(2, 0, [], true)];
    var s0 := Init(0);
    var s1 := PutStep(s0, 1, 0, msg, true);
    var end := GetStep(s1, 2, 0, [], true);
    assert s1.waiters == [Waiting(0, Waiter(1, true, msg))];
    assert end.waiters[0].item.sends && !end.waiters[1].item.sends;
    assert Run(end, [], end);
    assert steps[1..] == [Get(2, 0, [], true)];
    assert steps[1..][1..] == [];
    assert Run(s1, steps[1..], end);
    assert Run(s0, steps, end);
  }

  /** All waiting threads are of one kind in every run exactly if the queue has room for a message. */
  lemma OneKindIff(max: nat)
    ensures (forall steps, end :: Run(Init(max), steps, end) ==> OneKind(end)) <==> max > 0
  {
    if max > 0 {
      forall steps, end | Run(Init(max), steps, end)
        ensures OneKind(end)
      {
        RunKeeps(Init(max), steps, end);
      }
    } else {
      NoRoomNoMeeting([]);
    }
  }
}
