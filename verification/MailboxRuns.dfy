/**
  Whole runs of a mailbox: what holds in every state that any threads can reach, and why
  a thread resumes.
 */
module MailboxRuns {
  import opened Arithmetic
  import opened WaitQueue
  import opened MailboxProtocol

  /** Both queues are ordered by priority. */
  predicate Queued(st: State) {
    Ordered(st.txQueue) && Ordered(st.rxQueue)
  }

  lemma PutKeepsQueued(st: State, tx: Tx, prio: int, wait: bool)
    requires Queued(st)
    ensures Queued(PutStep(st, tx, prio, wait))
  {
    InsertOrdered(st.txQueue, Waiting(prio, tx));
    var n := FirstRx(st.rxQueue, tx);
    if n < |st.rxQueue| {
      WithoutOrdered(st.rxQueue, n);
    }
  }

  lemma GetKeepsQueued(st: State, rx: Rx, prio: int, wait: bool)
    requires Queued(st)
    ensures Queued(GetStep(st, rx, prio, wait))
  {
    InsertOrdered(st.rxQueue, Waiting(prio, rx));
    var n := FirstTx(st.txQueue, rx);
    if n < |st.txQueue| {
      WithoutOrdered(st.txQueue, n);
    }
  }

  lemma StepKeepsQueued(st: State, step: Step)
    requires Enabled(st, step) && Queued(st)
    ensures Queued(Next(st, step))
  {
    match step
    case Put(tx, prio, wait) => PutKeepsQueued(st, tx, prio, wait);
    case AsyncPut(tx, prio) => PutKeepsQueued(st, tx, prio, true);
    case Get(rx, prio, wait) => GetKeepsQueued(st, rx, prio, wait);
    case TxExpires(n) => WithoutOrdered(st.txQueue, n);
    case ClearAt(n, _) => WithoutOrdered(st.txQueue, n);
    case RxExpires(n) => WithoutOrdered(st.rxQueue, n);
    case _ =>
  }

  ghost predicate Inv(st: State) {
    NoPair(st) && Placed(st) && Accounted(st) && Intact(st) && Queued(st)
  }

  lemma StepKeepsInv(st: State, step: Step)
    requires Enabled(st, step) && Inv(st)
    ensures Inv(Next(st, step))
  {
    StepKeepsNoPair(st, step);
    StepKeepsPlaced(st, step);
    StepKeepsIntact(st, step);
    StepKeepsQueued(st, step);
    forall no
      ensures Fates(Next(st, step), no) == Posted(Next(st, step), no)
    {
      StepKeepsFates(st, step, no);
    }
  }

  /** `init_mbox_module` and `k_mbox_init`: the threads are ready and `n` descriptors free. */
  function Init(threads: set<Party>, n: nat): State {
    State([], [], [], threads, seq(n, i requires 0 <= i < n => Descriptor(i)), map[], [], [], [], [])
  }

  lemma {:induction false} InitOccurs(n: nat, p: Party)
    ensures Occurs(seq(n, i requires 0 <= i < n => Descriptor(i)), p)
         == if p.Descriptor? && p.id < n then 1 else 0
  {
    var s: seq<Party> := seq(n, i requires 0 <= i < n => Descriptor(i));
    if n > 0 {
      var t: seq<Party> := seq(n - 1, i requires 0 <= i < n - 1 => Descriptor(i));
      InitOccurs(n - 1, p);
      assert s == t + [Descriptor(n - 1)];
      OccursAppend(t, Descriptor(n - 1), p);
    }
  }

  lemma InitInv(threads: set<Party>, n: nat)
    requires forall p :: p in threads ==> p.Thread?
    ensures Inv(Init(threads, n))
  {
    forall p
      ensures Places(Init(threads, n), p) <= 1
    {
      InitOccurs(n, p);
    }
  }

  /** A run: each step is possible where it is taken, so messages are cleared while they wait. */
  ghost predicate Run(st: State, steps: seq<Step>, end: State)
    decreases |steps|
  {
    if steps == [] then end == st
    else Enabled(st, steps[0]) && Run(Next(st, steps[0]), steps[1..], end)
  }

  lemma {:induction false} RunKeepsInv(st: State, steps: seq<Step>, end: State)
    requires Inv(st) && Run(st, steps, end)
    ensures Inv(end)
    ensures forall p :: Places(end, p) == Places(st, p)
    decreases |steps|
  {
    if steps != [] {
      StepKeepsInv(st, steps[0]);
      RunKeepsInv(Next(st, steps[0]), steps[1..], end);
      forall p
        ensures Places(end, p) == Places(st, p)
      {
        StepKeepsPlaces(st, steps[0], p);
      }
    }
  }

  /**
    In every reachable state each asynchronous descriptor is in exactly one place: free,
    taken to send, in the transmit queue, or in one received message.
   */
  lemma DescriptorInOnePlace(threads: set<Party>, n: nat, steps: seq<Step>, end: State, id: nat)
    requires (forall p :: p in threads ==> p.Thread?) && Run(Init(threads, n), steps, end) && id < n
    ensures Inv(end)
    ensures var p := Descriptor(id);
            Occurs(end.free, p) + Member(end.sending.Keys, p) + Count(SenderOf, end.txQueue, p) +
            CountIn(DeliverySender, end.received, p) == 1
  {
    var p := Descriptor(id);
    InitInv(threads, n);
    RunKeepsInv(Init(threads, n), steps, end);
    InitOccurs(n, p);
    assert Places(end, p) == 1;
    NoDescriptorReceives(end.rxQueue, id);
  }

  lemma {:induction false} NoDescriptorReceives(q: Queue<Rx>, id: nat)
    ensures Count(ReceiverOf, q, Descriptor(id)) == 0
  {
    if q != [] {
      NoDescriptorReceives(q[1..], id);
    }
  }

  /** Every message of a run is waiting, received, disposed of, cleared or given up, once. */
  lemma MessageHasOneFate(threads: set<Party>, n: nat, steps: seq<Step>, end: State, no: nat)
    requires (forall p :: p in threads ==> p.Thread?) && Run(Init(threads, n), steps, end) && no < |end.posted|
    ensures Count(NoOf, end.txQueue, no) + CountIn(DeliveryNo, end.received, no) +
            CountIn(FinishedNo, end.finished, no) + CountIn(FinishedNo, end.cleared, no) + Occurs(end.withdrawn, no) == 1
  {
    InitInv(threads, n);
    RunKeepsInv(Init(threads, n), steps, end);
    assert Fates(end, no) == Posted(end, no);
  }

  /** In a reachable state a received message can always be consumed. */
  lemma ReceivedCanBeConsumed(st: State, k: nat, keep: bool)
    requires Inv(st) && k < |st.received|
    ensures Enabled(st, Consume(k, keep))
  {
    ConsumeKeepsIntact(st, k, keep);
  }

  // ---------- the outcome of each call ----------

  /** The message of `tx` may go to `rx`: each names the other or anybody. */
  predicate Accepts(tx: Tx, rx: Rx) {
    (tx.target.None? || tx.target.value == rx.receiver) && (rx.source.None? || rx.source.value == tx.source)
  }

  /** A send with a waiting receiver that accepts: the first such receiver has the message and runs, the sender does not. */
  lemma SendHandsOver(st: State, tx: Tx, prio: int, wait: bool, n: nat)
    requires n < |st.rxQueue| && Accepts(tx, st.rxQueue[n].item) && HoldsTx(tx)
    requires forall i :: 0 <= i < n ==> !Accepts(tx, st.rxQueue[i].item)
    ensures var u, rx := PutStep(st, tx, prio, wait), st.rxQueue[n].item;
            && u.rxQueue == st.rxQueue[..n] + st.rxQueue[n + 1..] && u.txQueue == st.txQueue
            && u.ready == st.ready - {tx.sender} + {Thread(rx.receiver)} && u.free == st.free
            && u.posted == st.posted + [tx] && u.withdrawn == st.withdrawn
            && u.finished == st.finished && u.cleared == st.cleared
            && |u.received| == |st.received| + 1 && u.received[..|st.received|] == st.received
            && var d := u.received[|st.received|];
               Faithful(tx, d) && d.asked == rx && d.tx == tx.(target := Some(rx.receiver), info := rx.info)
  {
    assert FirstRx(st.rxQueue, tx) == n by {
      var m := FirstRx(st.rxQueue, tx);
      assert m < n ==> Accepts(tx, st.rxQueue[m].item);
      assert n < m ==> !Compatible(tx, st.rxQueue[n].item);
    }
    ExchangeFaithful(tx, st.rxQueue[n].item);
  }

  /** A send without one: the sender waits with its priority, or gives up at once. */
  lemma SendFindsNobody(st: State, tx: Tx, prio: int, wait: bool)
    requires forall i :: 0 <= i < |st.rxQueue| ==> !Accepts(tx, st.rxQueue[i].item)
    ensures var u := PutStep(st, tx, prio, wait);
            && u.rxQueue == st.rxQueue && u.received == st.received && u.free == st.free && u.posted == st.posted + [tx]
            && u.finished == st.finished && u.cleared == st.cleared
            && u.txQueue == (if wait then Insert(st.txQueue, Waiting(prio, tx)) else st.txQueue)
            && u.ready == (if wait then st.ready - {tx.sender} else st.ready)
            && u.withdrawn == if wait then st.withdrawn else st.withdrawn + [tx.no]
  {
    var m := FirstRx(st.rxQueue, tx);
    assert m < |st.rxQueue| ==> Accepts(tx, st.rxQueue[m].item);
  }

  /** A receive with a waiting message that it accepts takes the first such message; its sender is not woken. */
  lemma ReceiveTakes(st: State, rx: Rx, prio: int, wait: bool, n: nat)
    requires n < |st.txQueue| && Accepts(st.txQueue[n].item, rx) && HoldsTx(st.txQueue[n].item)
    requires forall i :: 0 <= i < n ==> !Accepts(st.txQueue[i].item, rx)
    ensures var u, tx := GetStep(st, rx, prio, wait), st.txQueue[n].item;
            && u.txQueue == st.txQueue[..n] + st.txQueue[n + 1..] && u.rxQueue == st.rxQueue
            && u.ready == st.ready && u.free == st.free && u.sending == st.sending
            && u.posted == st.posted && u.withdrawn == st.withdrawn
            && u.finished == st.finished && u.cleared == st.cleared
            && |u.received| == |st.received| + 1 && u.received[..|st.received|] == st.received
            && var d := u.received[|st.received|];
               Faithful(tx, d) && d.asked == rx && d.tx == tx.(target := Some(rx.receiver), info := rx.info)
  {
    assert FirstTx(st.txQueue, rx) == n by {
      var m := FirstTx(st.txQueue, rx);
      assert m < n ==> Accepts(st.txQueue[m].item, rx);
      assert n < m ==> !Compatible(st.txQueue[n].item, rx);
    }
    ExchangeFaithful(st.txQueue[n].item, rx);
  }

  lemma ReceiveFindsNothing(st: State, rx: Rx, prio: int, wait: bool)
    requires forall i :: 0 <= i < |st.txQueue| ==> !Accepts(st.txQueue[i].item, rx)
    ensures GetStep(st, rx, prio, wait)
         == if wait then
              st.(rxQueue := Insert(st.rxQueue, Waiting(prio, rx)), ready := st.ready - {Thread(rx.receiver)})
            else st
  {
    var m := FirstTx(st.txQueue, rx);
    assert m < |st.txQueue| ==> Accepts(st.txQueue[m].item, rx);
  }

  /**
    Disposing of a received message: into a buffer, both sides learn the size of what was copied, which is the front
    of the sender's data; to discard it, both learn 0. The sender goes on, or its descriptor is free again.
   */
  lemma ConsumeOutcome(st: State, k: nat, keep: bool)
    requires Intact(st) && k < |st.received|
    ensures Holds(st.received[k].rx) && st.received[k].tx.no < |st.posted|
    ensures var u, d, p := ConsumeStep(st, k, keep), st.received[k], st.posted[st.received[k].tx.no];
            var n := if keep then Min(p.size, d.asked.size) else 0;
            && u.received == st.received[..k] + st.received[k + 1..]
            && u.ready == (if p.sender.Thread? then st.ready + {p.sender} else st.ready)
            && u.free == (if p.sender.Descriptor? then st.free + [p.sender] else st.free)
            && |u.finished| == |st.finished| + 1 && u.finished[..|st.finished|] == st.finished
            && var f := u.finished[|st.finished|];
               && f.delivery.tx.no == d.tx.no && f.delivery.asked == d.asked
               && f.delivery.tx.size == n && f.delivery.rx.size == n
               && (keep && p.data.Some? ==> f.copied == p.data.value[..n])
               && (keep && p.data.None? && p.block.Some? ==> f.copied == p.block.value.bytes[..n])
               && (!keep || (p.data.None? && p.block.None?) ==> f.copied == [])
  {
    var d := st.received[k];
    assert d in st.received;
    assert Faithful(st.posted[d.tx.no], d);
  }

  // ---------- the records are those of the calls ----------

  function Sent(step: Step): seq<Tx> {
    if step.Put? || step.AsyncPut? then [step.tx] else []
  }

  /** The messages of the send calls of a run, in order. */
  function Sends(steps: seq<Step>): seq<Tx> {
    if steps == [] then [] else Sent(steps[0]) + Sends(steps[1..])
  }

  lemma StepPosts(st: State, step: Step)
    requires Enabled(st, step)
    ensures Next(st, step).posted == st.posted + Sent(step)
  {
  }

  /** The record of messages is the list of messages that the calls of the run sent. */
  lemma {:induction false} PostedByCalls(st: State, steps: seq<Step>, end: State)
    requires Run(st, steps, end)
    ensures end.posted == st.posted + Sends(steps)
    decreases |steps|
  {
    if steps == [] {
    } else {
      StepPosts(st, steps[0]);
      PostedByCalls(Next(st, steps[0]), steps[1..], end);
      Regroup(st.posted, Sent(steps[0]), Sends(steps[1..]));
    }
  }

  lemma Regroup(a: seq<Tx>, b: seq<Tx>, c: seq<Tx>)
    ensures (a + b) + c == a + (b + c)
  {
  }

  predicate SentBy(step: Step, w: Waiting<Tx>) {
    step == Put(w.item, w.prio, true) || step == AsyncPut(w.item, w.prio)
  }

  /** Every waiting message of a run waits as it was sent, with the priority of its call. */
  lemma {:induction false} WaitingBySend(st: State, steps: seq<Step>, end: State, w: Waiting<Tx>)
    requires Run(st, steps, end) && w in end.txQueue
    ensures w in st.txQueue || exists j :: 0 <= j < |steps| && SentBy(steps[j], w)
    decreases |steps|
  {
    if steps != [] {
      var mid := Next(st, steps[0]);
      WaitingBySend(mid, steps[1..], end, w);
      if w in mid.txQueue {
        NewInTxQueue(st, steps[0], w);
      } else {
        var j :| 0 <= j < |steps[1..]| && SentBy(steps[1..][j], w);
        assert SentBy(steps[j + 1], w);
      }
    }
  }

  lemma NewInTxQueue(st: State, step: Step, w: Waiting<Tx>)
    requires Enabled(st, step) && w in Next(st, step).txQueue
    ensures w in st.txQueue || SentBy(step, w)
  {
    if step.Put? || step.AsyncPut? {
      InsertMember(st.txQueue, Waiting(step.prio, step.tx), w);
    }
  }

  /** Every waiting receiver waits as it asked, with the priority of its call. */
  lemma {:induction false} WaitingByGet(st: State, steps: seq<Step>, end: State, w: Waiting<Rx>)
    requires Run(st, steps, end) && w in end.rxQueue
    ensures w in st.rxQueue || exists j :: 0 <= j < |steps| && steps[j] == Get(w.item, w.prio, true)
    decreases |steps|
  {
    if steps != [] {
      var mid := Next(st, steps[0]);
      WaitingByGet(mid, steps[1..], end, w);
      if w in mid.rxQueue {
        NewInRxQueue(st, steps[0], w);
      } else {
        var j :| 0 <= j < |steps[1..]| && steps[1..][j] == Get(w.item, w.prio, true);
        assert steps[j + 1] == Get(w.item, w.prio, true);
      }
    }
  }

  lemma NewInRxQueue(st: State, step: Step, w: Waiting<Rx>)
    requires Enabled(st, step) && w in Next(st, step).rxQueue
    ensures w in st.rxQueue || step == Get(w.item, w.prio, true)
  {
    if step.Get? {
      InsertMember(st.rxQueue, Waiting(step.prio, step.rx), w);
    }
  }

  /** A receive descriptor as it was before its message came: one that waits, or that a message was received with. */
  ghost predicate Asks(st: State, rx: Rx) {
    || (exists w :: w in st.rxQueue && w.item == rx)
    || (exists d :: d in st.received && d.asked == rx)
    || (exists f :: f in st.finished && f.delivery.asked == rx)
  }

  lemma NewlyAsked(st: State, step: Step, rx: Rx)
    requires Enabled(st, step) && Asks(Next(st, step), rx)
    ensures Asks(st, rx) || (step.Get? && step.rx == rx)
  {
    var u := Next(st, step);
    if w :| w in u.rxQueue && w.item == rx {
      NewInRxQueue(st, step, w);
    } else if d :| d in u.received && d.asked == rx {
      if d !in st.received && (step.Put? || step.AsyncPut?) {
        assert st.rxQueue[FirstRx(st.rxQueue, step.tx)] in st.rxQueue;
      }
    } else if f :| f in u.finished && f.delivery.asked == rx {
      if f !in st.finished {
        assert st.received[step.k] in st.received;
      }
    }
  }

  /** Every receiver of a run asked with a receive call: what it waits for and received is what that call said. */
  lemma {:induction false} AskedByCalls(st: State, steps: seq<Step>, end: State, rx: Rx)
    requires Run(st, steps, end) && Asks(end, rx)
    ensures Asks(st, rx) || exists j :: 0 <= j < |steps| && steps[j].Get? && steps[j].rx == rx
    decreases |steps|
  {
    if steps != [] {
      var mid := Next(st, steps[0]);
      AskedByCalls(mid, steps[1..], end, rx);
      if Asks(mid, rx) {
        NewlyAsked(st, steps[0], rx);
      } else {
        var j :| 0 <= j < |steps[1..]| && steps[1..][j].Get? && steps[1..][j].rx == rx;
        assert steps[j + 1].Get? && steps[j + 1].rx == rx;
      }
    }
  }

  // ---------- who is chosen ----------

  /** A message goes to the receiver of highest priority among those it is compatible with, the longest waiting among equals. */
  lemma BestReceiver(st: State, tx: Tx, i: nat)
    requires Queued(st) && i < |st.rxQueue| && Compatible(tx, st.rxQueue[i].item)
    ensures var n := FirstRx(st.rxQueue, tx); n <= i && st.rxQueue[n].prio <= st.rxQueue[i].prio
  {
  }

  lemma BestSender(st: State, rx: Rx, i: nat)
    requires Queued(st) && i < |st.txQueue| && Compatible(st.txQueue[i].item, rx)
    ensures var n := FirstTx(st.txQueue, rx); n <= i && st.txQueue[n].prio <= st.txQueue[i].prio
  {
  }

  // ---------- why a thread resumes ----------

  ghost predicate WaitsToSend(st: State, tid: nat) {
    exists w :: w in st.txQueue && w.item.sender == Thread(tid)
  }

  ghost predicate WaitsToReceive(st: State, tid: nat) {
    exists w :: w in st.rxQueue && w.item.receiver == tid
  }

  ghost predicate WaitsForDisposal(st: State, tid: nat) {
    exists d :: d in st.received && d.tx.sender == Thread(tid)
  }

  /** A thread that waits for disposal neither runs nor waits for anything else. */
  lemma OnlyForDisposal(st: State, tid: nat)
    requires Placed(st) && WaitsForDisposal(st, tid)
    ensures Thread(tid) !in st.ready && !WaitsToSend(st, tid) && !WaitsToReceive(st, tid)
  {
    var d :| d in st.received && d.tx.sender == Thread(tid);
    var i :| 0 <= i < |st.received| && st.received[i] == d;
    CountInMember(DeliverySender, st.received, i);
    assert Places(st, Thread(tid)) <= 1;
    NotWaitingRx(st, tid);
    NotWaitingTx(st, tid);
  }

  /** A sender whose message was received resumes only when that message is disposed of. */
  lemma HeldUntilDisposal(st: State, step: Step, tid: nat)
    requires Enabled(st, step) && Inv(st) && WaitsForDisposal(st, tid)
    ensures Thread(tid) !in st.ready
    ensures Thread(tid) in Next(st, step).ready <==>
              step.Consume? && st.received[step.k].tx.sender == Thread(tid)
  {
    OnlyForDisposal(st, tid);
    StaysHeld(st, step, tid);
  }

  lemma StaysHeld(st: State, step: Step, tid: nat)
    requires Enabled(st, step) && Thread(tid) !in st.ready && !WaitsToSend(st, tid) && !WaitsToReceive(st, tid)
    ensures Thread(tid) in Next(st, step).ready <==>
              step.Consume? && st.received[step.k].tx.sender == Thread(tid)
  {
    assert forall i :: 0 <= i < |st.rxQueue| ==> st.rxQueue[i] in st.rxQueue;
    assert forall i :: 0 <= i < |st.txQueue| ==> st.txQueue[i] in st.txQueue;
  }

  lemma NotWaitingRx(st: State, tid: nat)
    requires Count(ReceiverOf, st.rxQueue, Thread(tid)) == 0
    ensures forall i :: 0 <= i < |st.rxQueue| ==> st.rxQueue[i].item.receiver != tid
  {
    forall i | 0 <= i < |st.rxQueue|
      ensures st.rxQueue[i].item.receiver != tid
    {
      CountMember(ReceiverOf, st.rxQueue, i);
    }
  }

  lemma NotWaitingTx(st: State, tid: nat)
    requires Count(SenderOf, st.txQueue, Thread(tid)) == 0
    ensures forall i :: 0 <= i < |st.txQueue| ==> st.txQueue[i].item.sender != Thread(tid)
  {
    forall i | 0 <= i < |st.txQueue|
      ensures st.txQueue[i].item.sender != Thread(tid)
    {
      CountMember(SenderOf, st.txQueue, i);
    }
  }
}
