/**
  The mailbox calls, as they scan and update the queues and descriptors.
 */
module Mailbox {
  import opened Arithmetic
  import opened WaitQueue
  import opened MailboxProtocol
  import opened MailboxRuns
  import opened MailboxClear

  datatype Result = Success | NoMessage | Pends

  /**
    `_mbox_message_match`: either nothing changes, or sender and receiver have met (each learns
    who the other is and gets the other's information word), the size is the smaller one, and the
    receiver can reach the data.
   */
  method MessageMatch(tx: Tx, rx: Rx) returns (ok: bool, tx': Tx, rx': Rx)
    ensures ok <==> Compatible(tx, rx)
    ensures if ok then Delivery(rx', tx', rx) == Exchange(tx, rx) else tx' == tx && rx' == rx
    ensures ok && HoldsTx(tx) ==> Faithful(tx, Delivery(rx', tx', rx))
  {
    tx', rx' := tx, rx;
    if (tx.target == None || tx.target == Some(rx.receiver)) && (rx.source == None || rx.source == Some(tx.source)) {
      rx' := rx'.(source := Some(tx'.source));
      tx' := tx'.(target := Some(rx'.receiver));
      var temp := rx'.info;
      rx' := rx'.(info := tx'.info);
      tx' := tx'.(info := temp);
      if rx'.size > tx'.size {
        rx' := rx'.(size := tx'.size);
      }
      rx' := rx'.(data := tx'.data);
      rx' := rx'.(block := tx'.block);
      if rx'.data.Some? {
        rx' := rx'.(block := None);
      } else if rx'.block.Some? {
        rx' := rx'.(data := Some(rx'.block.value.bytes));
      }
      rx' := rx'.(syncing := Some(tx'.sender));
      return true, tx', rx';
    }
    return false, tx', rx';
  }

  class Mbox {
    var txQueue: Queue<Tx>
    var rxQueue: Queue<Rx>
    var received: seq<Delivery>
    var ready: set<Party>
    var free: seq<Party>
    var sending: map<Party, nat>
    var sent: nat
    ghost var posted: seq<Tx>
    ghost var finished: seq<Finished>
    ghost var cleared: seq<Finished>
    ghost var withdrawn: seq<nat>

    ghost function St(): State
      reads this
    {
      State(txQueue, rxQueue, received, ready, free, sending, posted, finished, cleared, withdrawn)
    }

    ghost predicate Valid()
      reads this
    {
      Inv(St()) && sent == |posted|
    }

    constructor (threads: set<Party>, n: nat)
      requires forall p :: p in threads ==> p.Thread?
      ensures Valid() && St() == Init(threads, n)
    {
      txQueue, rxQueue, received, ready, sending, sent := [], [], [], threads, map[], 0;
      free := seq(n, i requires 0 <= i < n => Descriptor(i));
      posted, finished, cleared, withdrawn := [], [], [], [];
      new;
      InitInv(threads, n);
    }

    /** The walk through the receive queue, up to the first receiver that matches. */
    method FindReceiver(tx: Tx) returns (n: nat, d: Option<Delivery>)
      ensures n == FirstRx(rxQueue, tx)
      ensures d == if n < |rxQueue| then Some(Exchange(tx, rxQueue[n].item)) else None
    {
      n := 0;
      while n < |rxQueue|
        invariant n <= |rxQueue| && forall i :: 0 <= i < n ==> !Compatible(tx, rxQueue[i].item)
      {
        var ok, tx', rx' := MessageMatch(tx, rxQueue[n].item);
        if ok {
          FirstRxIs(rxQueue, tx, n);
          return n, Some(Delivery(rx', tx', rxQueue[n].item));
        }
        n := n + 1;
      }
      FirstRxIs(rxQueue, tx, n);
      return n, None;
    }

    /** `_mbox_message_put`. */
    method MessagePut(tx: Tx, prio: int, wait: bool) returns (result: Result)
      requires sent == |posted| && tx.no == sent
      modifies this
      ensures sent == |posted| && St() == PutStep(old(St()), tx, prio, wait)
      ensures result == NoMessage <==> !wait && FirstRx(old(rxQueue), tx) == |old(rxQueue)|
      ensures result == Pends <==> tx.sender.Thread? && result != NoMessage
    {
      var n, d := FindReceiver(tx);
      posted := posted + [tx];
      sent := sent + 1;
      if d.Some? {
        HandTo(n, d.value, tx.sender);
      } else if !wait {
        withdrawn := withdrawn + [tx.no];
        return NoMessage;
      } else {
        txQueue := PendThread(txQueue, Waiting(prio, tx));
        ready, sending := ready - {tx.sender}, sending - {tx.sender};
      }
      return if tx.sender.Thread? then Pends else Success;
    }

    /** The receiver at index `n` has the message and runs; the sender waits for its disposal. */
    method HandTo(n: nat, d: Delivery, sender: Party)
      requires n < |rxQueue|
      modifies this`rxQueue, this`received, this`ready, this`sending
      ensures rxQueue == Without(old(rxQueue), n) && received == old(received) + [d]
      ensures ready == old(ready) - {sender} + {Thread(old(rxQueue)[n].item.receiver)}
      ensures sending == old(sending) - {sender}
    {
      var receiver := rxQueue[n].item.receiver;
      received := received + [d];
      rxQueue := rxQueue[..n] + rxQueue[n + 1..];
      ready, sending := ready - {sender} + {Thread(receiver)}, sending - {sender};
    }

    /** `k_mbox_put`: the caller sends and, unless nobody may wait, is held until the message is disposed of. */
    method Put(tid: nat, prio: int, target: Option<nat>, info: int, size: nat,
               data: Option<seq<bv8>>, block: Option<Block>, wait: bool) returns (result: Result)
      requires Valid() && Thread(tid) in ready
      requires HoldsTx(Tx(sent, Thread(tid), tid, target, info, size, data, block, None))
      modifies this
      ensures Valid()
      ensures St() == PutStep(old(St()), Tx(old(sent), Thread(tid), tid, target, info, size, data, block, None), prio, wait)
      ensures posted == old(posted) + [Tx(old(sent), Thread(tid), tid, target, info, size, data, block, None)]
      ensures result == NoMessage <==> !wait && forall i :: 0 <= i < |old(rxQueue)| ==>
                var rx := old(rxQueue)[i].item;
                !((target.None? || target.value == rx.receiver) && (rx.source.None? || rx.source.value == tid))
      ensures result != NoMessage ==> result == Pends && Thread(tid) !in ready
      ensures result == NoMessage ==> ready == old(ready) && txQueue == old(txQueue) && rxQueue == old(rxQueue)
    {
      var tx := Tx(sent, Thread(tid), tid, target, info, size, data, block, None);
      StepKeepsInv(St(), Step.Put(tx, prio, wait));
      if wait || FirstRx(rxQueue, tx) < |rxQueue| {
        HandedOver(St(), tx, prio, wait);
      }
      NobodyIff(rxQueue, tx);
      result := MessagePut(tx, prio, wait);
    }

    /** The first half of `k_mbox_async_put`: take a descriptor from the stack; with none free the caller waits. */
    method AsyncAlloc(tid: nat) returns (d: Option<Party>)
      requires Valid() && Thread(tid) in ready
      modifies this
      ensures Valid()
      ensures if old(free) == [] then d == None && St() == old(St())
              else
                && d.Some? && d.value == old(free)[|old(free)| - 1] && free == old(free)[..|old(free)| - 1]
                && sending == old(sending)[d.value := tid] && St() == AllocStep(old(St()), tid)
    {
      if free == [] {
        return None;
      }
      StepKeepsInv(St(), Alloc(tid));
      var n := |free| - 1;
      d := Some(free[n]);
      free, sending := free[..n], sending[free[n] := tid];
    }

    /** The second half: the descriptor's dummy thread sends, and its caller goes on. */
    method AsyncPut(d: Party, prio: int, target: Option<nat>, info: int, size: nat,
                    data: Option<seq<bv8>>, block: Option<Block>, sem: Option<nat>)
      requires Valid() && d in sending
      requires HoldsTx(Tx(sent, d, sending[d], target, info, size, data, block, sem))
      modifies this
      ensures Valid()
      ensures St() == PutStep(old(St()), Tx(old(sent), d, old(sending[d]), target, info, size, data, block, sem), prio, true)
      ensures old(ready) <= ready
    {
      var tx := Tx(sent, d, sending[d], target, info, size, data, block, sem);
      StepKeepsInv(St(), Step.AsyncPut(tx, prio));
      var result := MessagePut(tx, prio, true);
    }

    method FindSender(rx: Rx) returns (n: nat, d: Option<Delivery>)
      ensures n == FirstTx(txQueue, rx)
      ensures d == if n < |txQueue| then Some(Exchange(txQueue[n].item, rx)) else None
    {
      n := 0;
      while n < |txQueue|
        invariant n <= |txQueue| && forall i :: 0 <= i < n ==> !Compatible(txQueue[i].item, rx)
      {
        var ok, tx', rx' := MessageMatch(txQueue[n].item, rx);
        if ok {
          FirstTxIs(txQueue, rx, n);
          return n, Some(Delivery(rx', tx', rx));
        }
        n := n + 1;
      }
      FirstTxIs(txQueue, rx, n);
      return n, None;
    }

    /** `k_mbox_get`, up to the point where the data is looked at. */
    method Get(handle: nat, tid: nat, prio: int, source: Option<nat>, info: int, size: nat, wait: bool)
      returns (result: Result)
      requires Valid() && Thread(tid) in ready && Unused(St(), handle)
      modifies this
      ensures Valid()
      ensures St() == GetStep(old(St()), Rx(handle, tid, source, info, size, None, None, None), prio, wait)
      ensures result != Success <==> forall i :: 0 <= i < |old(txQueue)| ==>
                var tx := old(txQueue)[i].item;
                !((tx.target.None? || tx.target.value == tid) && (source.None? || source.value == tx.source))
      ensures result != Success ==> result == if wait then Pends else NoMessage
      ensures result == Success <==> |received| == |old(received)| + 1
      ensures result == NoMessage ==> St() == old(St())
    {
      var rx := Rx(handle, tid, source, info, size, None, None, None);
      NothingIff(txQueue, rx);
      StepKeepsInv(St(), Step.Get(rx, prio, wait));
      result := MessageGet(rx, prio, wait);
    }

    method MessageGet(rx: Rx, prio: int, wait: bool) returns (result: Result)
      modifies this`txQueue, this`rxQueue, this`received, this`ready
      ensures St() == GetStep(old(St()), rx, prio, wait)
      ensures result == Success <==> FirstTx(old(txQueue), rx) < |old(txQueue)|
      ensures result == NoMessage <==> FirstTx(old(txQueue), rx) == |old(txQueue)| && !wait
    {
      var n, d := FindSender(rx);
      if d.Some? {
        txQueue := txQueue[..n] + txQueue[n + 1..];
        received := received + [d.value];
        return Success;
      }
      if !wait {
        return NoMessage;
      }
      rxQueue := PendThread(rxQueue, Waiting(prio, rx));
      ready := ready - {Thread(rx.receiver)};
      return Pends;
    }

    /** Waking the sender of a message that is disposed of, or freeing its descriptor. */
    method ReleaseSender(p: Party)
      modifies this`ready, this`free
      ensures St() == Release(old(St()), p)
    {
      if p.Descriptor? {
        free := free + [p];
      } else {
        ready := ready + {p};
      }
    }

    /**
      `k_mbox_data_get` on a received message, into a buffer or (without `keep`) to discard it. The caller gets the front
      of the sender's data, and the sender is told how many bytes that are.
     */
    method DataGet(k: nat, keep: bool) returns (copied: seq<bv8>)
      requires Valid() && k < |received|
      modifies this
      ensures Valid() && Holds(old(received[k].rx)) && St() == ConsumeStep(old(St()), k, keep)
      ensures old(received[k].tx.no) < |posted| && |finished| == |old(finished)| + 1
      ensures var d, p, f := old(received[k]), posted[old(received[k].tx.no)], finished[|old(finished)|];
              && f.delivery.tx.no == d.tx.no && f.delivery.tx.size == f.delivery.rx.size
              && f.delivery.tx.size == (if keep then Min(p.size, d.asked.size) else 0)
              && copied == f.copied
              && (keep && p.data.Some? ==> copied == p.data.value[..f.delivery.tx.size])
              && (keep && p.data.None? && p.block.Some? ==> copied == p.block.value.bytes[..f.delivery.tx.size])
              && (!keep || (p.data.None? && p.block.None?) ==> copied == [])
              && (p.sender.Thread? ==> ready == old(ready) + {p.sender} && free == old(free))
              && (p.sender.Descriptor? ==> ready == old(ready) && free == old(free) + [p.sender])
    {
      ReceivedCanBeConsumed(St(), k, keep);
      StepKeepsInv(St(), Consume(k, keep));
      ConsumeOutcome(St(), k, keep);
      copied := DataGetInternal(k, keep);
    }

    method DataGetInternal(k: nat, keep: bool) returns (copied: seq<bv8>)
      requires k < |received| && Holds(received[k].rx)
      modifies this`received, this`finished, this`ready, this`free
      ensures St() == ConsumeStep(old(St()), k, keep) && |finished| == |old(finished)| + 1
      ensures copied == finished[|old(finished)|].copied
    {
      var d := received[k];
      var size := 0;
      copied := [];
      if keep {
        size := d.rx.size;
        if d.rx.data.Some? && size > 0 {
          copied := d.rx.data.value[..size];
        }
      }
      received := received[..k] + received[k + 1..];
      finished := finished + [Finish(d, size, copied)];
      ReleaseSender(d.tx.sender);
    }

    /** `_mbox_message_data_check`: a message stays received exactly if it has data and no buffer was given. */
    method DataCheck(k: nat, buffer: bool) returns (copied: seq<bv8>)
      requires Valid() && k < |received|
      modifies this
      ensures Valid() && Holds(old(received[k].rx))
      ensures St() == if buffer || old(received[k].rx.size) == 0 then ConsumeStep(old(St()), k, buffer) else old(St())
      ensures old(received[k].tx.no) < |posted|
      ensures var d, p := old(received[k]), posted[old(received[k].tx.no)];
              if buffer || Min(p.size, d.asked.size) == 0 then
                && |finished| == |old(finished)| + 1
                && finished[|old(finished)|].delivery.tx.size == (if buffer then Min(p.size, d.asked.size) else 0)
                && copied == finished[|old(finished)|].copied
              else received == old(received) && finished == old(finished) && ready == old(ready) && free == old(free)
    {
      ConsumeOutcome(St(), k, buffer);
      SizeOfReceived(St(), k);
      ReceivedCanBeConsumed(St(), k, buffer);
      copied := [];
      if buffer {
        copied := DataGet(k, true);
      } else if received[k].rx.size == 0 {
        copied := DataGet(k, false);
      }
    }

    /** `k_mbox_clear_msg`. */
    method ClearMsg(handle: nat)
      requires Valid()
      modifies this
      ensures Valid() && St() == ClearAll(old(St()), handle) && txQueue == []
      ensures ClearedInOrder(cleared, old(cleared), old(txQueue))
    {
      ClearAllEmpties(St(), handle);
      ClearEach(handle);
    }

    method ClearEach(handle: nat)
      modifies this`txQueue, this`cleared, this`ready, this`free
      ensures St() == ClearAll(old(St()), handle)
    {
      ghost var goal := ClearAll(St(), handle);
      while txQueue != []
        invariant ClearAll(St(), handle) == goal
        decreases |txQueue|
      {
        ClearOne(handle);
      }
    }

    method ClearOne(handle: nat)
      requires txQueue != []
      modifies this`txQueue, this`cleared, this`ready, this`free
      ensures St() == ClearStep(old(St()), 0, handle)
    {
      var tx := txQueue[0].item.(target := None);
      var rx := Rx(handle, 0, None, tx.size, tx.size, None, None, None);
      var ok, tx', rx' := MessageMatch(tx, rx);
      assert Without(txQueue, 0) == txQueue[1..];
      txQueue := txQueue[1..];
      cleared := cleared + [Finish(Delivery(rx', tx'.(target := None), rx), 0, [])];
      ReleaseSender(tx.sender);
    }

    method SenderTimesOut(n: nat)
      requires Valid() && n < |txQueue| && txQueue[n].item.sender.Thread?
      modifies this
      ensures Valid() && St() == TxTimeout(old(St()), n)
      ensures txQueue == old(txQueue)[..n] + old(txQueue)[n + 1..] && ready == old(ready) + {old(txQueue)[n].item.sender}
      ensures withdrawn == old(withdrawn) + [old(txQueue)[n].item.no] && received == old(received) && rxQueue == old(rxQueue)
    {
      StepKeepsInv(St(), TxExpires(n));
      withdrawn := withdrawn + [txQueue[n].item.no];
      ready := ready + {txQueue[n].item.sender};
      txQueue := txQueue[..n] + txQueue[n + 1..];
    }

    method ReceiverTimesOut(n: nat)
      requires Valid() && n < |rxQueue|
      modifies this
      ensures Valid() && St() == RxTimeout(old(St()), n)
      ensures rxQueue == old(rxQueue)[..n] + old(rxQueue)[n + 1..]
      ensures ready == old(ready) + {Thread(old(rxQueue)[n].item.receiver)} && received == old(received) && txQueue == old(txQueue)
    {
      StepKeepsInv(St(), RxExpires(n));
      ready := ready + {Thread(rxQueue[n].item.receiver)};
      rxQueue := rxQueue[..n] + rxQueue[n + 1..];
    }
  }

  /** The search ends at the end of the queue exactly if no receiver there accepts the message. */
  lemma NobodyIff(q: Queue<Rx>, tx: Tx)
    ensures FirstRx(q, tx) == |q| <==> forall i :: 0 <= i < |q| ==>
              var rx := q[i].item;
              !((tx.target.None? || tx.target.value == rx.receiver) && (rx.source.None? || rx.source.value == tx.source))
  {
    var n := FirstRx(q, tx);
    assert forall i :: 0 <= i < |q| ==> (Compatible(tx, q[i].item) <==> Accepts(tx, q[i].item));
  }

  lemma NothingIff(q: Queue<Tx>, rx: Rx)
    ensures FirstTx(q, rx) == |q| <==> forall i :: 0 <= i < |q| ==>
              var tx := q[i].item;
              !((tx.target.None? || tx.target.value == rx.receiver) && (rx.source.None? || rx.source.value == tx.source))
  {
    var n := FirstTx(q, rx);
    assert forall i :: 0 <= i < |q| ==> (Compatible(q[i].item, rx) <==> Accepts(q[i].item, rx));
  }

  lemma SizeOfReceived(st: State, k: nat)
    requires Intact(st) && k < |st.received|
    ensures st.received[k].tx.no < |st.posted|
    ensures st.received[k].rx.size == Min(st.posted[st.received[k].tx.no].size, st.received[k].asked.size)
  {
    assert st.received[k] in st.received;
  }

  /** A synchronous sender does not run on. */
  lemma HandedOver(st: State, tx: Tx, prio: int, wait: bool)
    requires Placed(st) && tx.sender in st.ready
    requires wait || FirstRx(st.rxQueue, tx) < |st.rxQueue|
    ensures tx.sender !in PutStep(st, tx, prio, wait).ready
  {
    var n := FirstRx(st.rxQueue, tx);
    if n < |st.rxQueue| {
      CountMember(ReceiverOf, st.rxQueue, n);
      assert Places(st, tx.sender) <= 1;
    }
  }

  lemma FirstRxIs(q: Queue<Rx>, tx: Tx, n: nat)
    requires n <= |q| && (forall i :: 0 <= i < n ==> !Compatible(tx, q[i].item))
    requires n < |q| ==> Compatible(tx, q[n].item)
    ensures FirstRx(q, tx) == n
  {
  }

  lemma FirstTxIs(q: Queue<Tx>, rx: Rx, n: nat)
    requires n <= |q| && (forall i :: 0 <= i < n ==> !Compatible(q[i].item, rx))
    requires n < |q| ==> Compatible(q[n].item, rx)
    ensures FirstTx(q, rx) == n
  {
  }
}
