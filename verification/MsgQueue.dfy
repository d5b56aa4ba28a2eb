/**
  The message queue calls on the ring in memory, one array element per message slot.
 */
module MsgQueue {
  import opened WaitQueue
  import opened MsgqProtocol

  datatype Result = Done(data: Msg) | NoMessage | Pends

  /** The slot that is `i` slots behind `read`. */
  function Slot(read: nat, i: nat, max: nat): (s: nat)
    requires read < max && i <= max
    ensures s < max
  {
    if read + i < max then read + i else read + i - max
  }

  /** The ring, read from memory. */
  ghost predicate Stores(slots: seq<Msg>, read: nat, write: nat, ring: seq<Sent>) {
    && |ring| <= |slots|
    && (slots == [] ==> read == 0 && write == 0)
    && (slots != [] ==>
          && read < |slots| && write == Slot(read, |ring|, |slots|)
          && forall i :: 0 <= i < |ring| ==> slots[Slot(read, i, |slots|)] == ring[i].msg)
  }

  function Advance(at: nat, max: nat): nat {
    if at + 1 == max then 0 else at + 1
  }

  lemma StoreOne(slots: seq<Msg>, read: nat, write: nat, ring: seq<Sent>, sent: Sent)
    requires Stores(slots, read, write, ring) && |ring| < |slots|
    ensures write < |slots|
    ensures Stores(slots[write := sent.msg], read, Advance(write, |slots|), ring + [sent])
  {
  }

  lemma TakeOne(slots: seq<Msg>, read: nat, write: nat, ring: seq<Sent>)
    requires Stores(slots, read, write, ring) && ring != []
    ensures read < |slots| && slots[read] == ring[0].msg
    ensures Stores(slots, Advance(read, |slots|), write, ring[1..])
  {
    var next := Advance(read, |slots|);
    forall i | 0 <= i < |ring| - 1
      ensures slots[Slot(next, i, |slots|)] == ring[1..][i].msg
    {
      assert Slot(next, i, |slots|) == Slot(read, i + 1, |slots|);
    }
  }

  class Msgq {
    const slots: array<Msg>
    var readPtr: nat
    var writePtr: nat
    var usedMsgs: nat
    var waitQ: Queue<Waiter>
    /** The receive buffers of the threads, once something was copied there. */
    var memory: map<nat, Msg>
    ghost var ring: seq<Sent>
    ghost var accepted: seq<Sent>
    ghost var passed: seq<Fate>
    ghost var refused: seq<Waiter>

    ghost function St(): State
      reads this
    {
      State(slots.Length, ring, waitQ, accepted, passed, refused)
    }

    /** The ring in memory is the ring of the state. */
    ghost predicate Holds()
      reads this, slots
    {
      usedMsgs == |ring| && Stores(slots[..], readPtr, writePtr, ring)
    }

    /** Every receive buffer holds the message that was delivered to its thread last. */
    ghost predicate Copied()
      reads this
    {
      memory == Latest(passed)
    }

    ghost predicate Valid()
      reads this, slots
    {
      Holds() && Copied() && (slots.Length > 0 ==> OneKind(St())) && InOrder(St())
    }

    /** `k_msgq_init`. */
    constructor (max: nat)
      ensures Valid() && St() == MsgqProtocol.Init(max) && fresh(slots)
    {
      slots := new Msg[max](_ => []);
      readPtr, writePtr, usedMsgs, waitQ, memory := 0, 0, 0, [], map[];
      ring, accepted, passed, refused := [], [], [], [];
    }

    /** Copy a message behind the ring's last. */
    method Store(sent: Sent)
      requires Holds() && usedMsgs < slots.Length
      modifies this`writePtr, this`usedMsgs, this`ring, slots
      ensures Holds() && ring == old(ring) + [sent]
    {
      StoreOne(slots[..], readPtr, writePtr, ring, sent);
      ghost var was := slots[..];
      slots[writePtr] := sent.msg;
      assert slots[..] == was[writePtr := sent.msg];
      writePtr := Advance(writePtr, slots.Length);
      usedMsgs := usedMsgs + 1;
      ring := ring + [sent];
    }

    /** Copy the oldest message out of the ring. */
    method Take() returns (msg: Msg)
      requires Holds() && usedMsgs > 0
      modifies this`readPtr, this`usedMsgs, this`ring
      ensures Holds() && msg == old(ring)[0].msg && ring == old(ring)[1..]
    {
      TakeOne(slots[..], readPtr, writePtr, ring);
      msg := slots[readPtr];
      readPtr := Advance(readPtr, slots.Length);
      usedMsgs := usedMsgs - 1;
      ring := ring[1..];
    }

    /**
      `k_msgq_put`, up to the point where it pends or returns. With room in the ring the caller's message is the last of
      the accepted ones, in the first waiting thread's buffer or at the end of the ring; without, the caller fails or
      waits with its priority and its message.
     */
    method Put(tid: nat, prio: int, msg: Msg, wait: bool) returns (result: Result)
      requires Valid()
      modifies this, slots
      ensures result.Done? <==> |old(ring)| < slots.Length
      ensures result.Done? ==> accepted == old(accepted) + [Sent(tid, msg)]
      ensures result.Done? && old(waitQ) == [] ==>
                ring == old(ring) + [Sent(tid, msg)] && waitQ == [] && passed == old(passed) && memory == old(memory)
      ensures result.Done? && old(waitQ) != [] ==>
                var first := old(waitQ)[0].item.tid;
                && ring == old(ring) && waitQ == old(waitQ)[1..]
                && passed == old(passed) + [Delivered(Sent(tid, msg), first)] && memory == old(memory)[first := msg]
      ensures !result.Done? ==>
                && result == (if wait then Pends else NoMessage)
                && accepted == old(accepted) && ring == old(ring) && passed == old(passed) && memory == old(memory)
                && waitQ == if wait then Insert(old(waitQ), Waiting(prio, Waiter(tid, true, msg))) else old(waitQ)
      ensures refused == old(refused)
      ensures Valid() && St() == PutStep(old(St()), tid, prio, msg, wait)
    {
      if slots.Length > 0 {
        StepKeepsOneKind(St(), MsgqProtocol.Put(tid, prio, msg, wait));
      }
      PutKeepsOrder(St(), tid, prio, msg, wait);
      PutOutcome(St(), tid, prio, msg, wait);
      result := PutInternal(tid, prio, msg, wait);
    }

    method PutInternal(tid: nat, prio: int, msg: Msg, wait: bool) returns (result: Result)
      requires Holds() && Copied()
      modifies this, slots
      ensures Holds() && Copied() && St() == PutStep(old(St()), tid, prio, msg, wait)
      ensures result.Done? <==> |old(ring)| < slots.Length
      ensures result.Done? && old(waitQ) != [] ==> memory == old(memory)[old(waitQ)[0].item.tid := msg]
      ensures !(result.Done? && old(waitQ) != []) ==> memory == old(memory)
      ensures !result.Done? ==> result == if wait then Pends else NoMessage
    {
      if usedMsgs < slots.Length {
        accepted := accepted + [Sent(tid, msg)];
        if waitQ != [] {
          HandOver(Sent(tid, msg));
        } else {
          Store(Sent(tid, msg));
        }
        return Done(msg);
      } else if !wait {
        return NoMessage;
      }
      waitQ := PendThread(waitQ, Waiting(prio, Waiter(tid, true, msg)));
      return Pends;
    }

    /** The message goes to the first waiting receiver. */
    method HandOver(sent: Sent)
      requires Copied() && waitQ != []
      modifies this`waitQ, this`passed, this`memory
      ensures Copied() && waitQ == old(waitQ)[1..] && memory == old(memory)[old(waitQ)[0].item.tid := sent.msg]
      ensures passed == old(passed) + [Delivered(sent, old(waitQ)[0].item.tid)]
    {
      var tid := waitQ[0].item.tid;
      LatestDelivered(passed, sent, tid);
      passed := passed + [Delivered(sent, tid)];
      memory := memory[tid := sent.msg];
      waitQ := waitQ[1..];
    }

    /**
      `k_msgq_get`, up to the point where it pends or returns. The caller gets the oldest message, and the first waiting
      thread's message is accepted in its place; without a message the caller fails or waits with its priority.
     */
    method Get(tid: nat, prio: int, buffer: Msg, wait: bool) returns (result: Result)
      requires Valid()
      modifies this, slots
      ensures result.Done? <==> old(ring) != []
      ensures result.Done? ==>
                && result.data == old(ring)[0].msg && memory == old(memory)[tid := result.data]
                && passed == old(passed) + [Delivered(old(ring)[0], tid)]
      ensures result.Done? && old(waitQ) == [] ==> ring == old(ring)[1..] && waitQ == [] && accepted == old(accepted)
      ensures result.Done? && old(waitQ) != [] ==>
                var w := old(waitQ)[0].item;
                && w.sends && waitQ == old(waitQ)[1..] && ring == old(ring)[1..] + [Sent(w.tid, w.buffer)]
                && accepted == old(accepted) + [Sent(w.tid, w.buffer)]
      ensures !result.Done? ==>
                && result == (if wait then Pends else NoMessage)
                && accepted == old(accepted) && ring == old(ring) && passed == old(passed) && memory == old(memory)
                && waitQ == if wait then Insert(old(waitQ), Waiting(prio, Waiter(tid, false, buffer))) else old(waitQ)
      ensures refused == old(refused)
      ensures Valid() && St() == GetStep(old(St()), tid, prio, buffer, wait)
    {
      if slots.Length > 0 {
        StepKeepsOneKind(St(), MsgqProtocol.Get(tid, prio, buffer, wait));
      }
      GetKeepsOrder(St(), tid, prio, buffer, wait);
      if waitQ != [] && ring != [] {
        RightKind(St());
      }
      result := GetInternal(tid, prio, buffer, wait);
    }

    method GetInternal(tid: nat, prio: int, buffer: Msg, wait: bool) returns (result: Result)
      requires Holds() && Copied()
      modifies this, slots
      ensures Holds() && Copied() && St() == GetStep(old(St()), tid, prio, buffer, wait)
      ensures result.Done? <==> old(ring) != []
      ensures result.Done? ==> result.data == old(ring)[0].msg && memory == old(memory)[tid := result.data]
      ensures !result.Done? ==> memory == old(memory)
      ensures !result.Done? ==> result == if wait then Pends else NoMessage
    {
      if usedMsgs > 0 {
        var data := Deliver(tid);
        if waitQ != [] {
          AdmitSender();
        }
        return Done(data);
      } else if !wait {
        return NoMessage;
      }
      waitQ := PendThread(waitQ, Waiting(prio, Waiter(tid, false, buffer)));
      return Pends;
    }

    /** The oldest message goes to a thread. */
    method Deliver(tid: nat) returns (data: Msg)
      requires Holds() && Copied() && usedMsgs > 0
      modifies this`readPtr, this`usedMsgs, this`ring, this`passed, this`memory
      ensures Holds() && Copied() && data == old(ring)[0].msg && ring == old(ring)[1..]
      ensures passed == old(passed) + [Delivered(old(ring)[0], tid)] && memory == old(memory)[tid := data]
    {
      LatestDelivered(passed, ring[0], tid);
      passed := passed + [Delivered(ring[0], tid)];
      data := Take();
      memory := memory[tid := data];
    }

    /** The message of the first waiting sender goes into the ring. */
    method AdmitSender()
      requires Holds() && waitQ != [] && usedMsgs < slots.Length
      modifies this`waitQ, this`accepted, this`writePtr, this`usedMsgs, this`ring, slots
      ensures Holds() && waitQ == old(waitQ)[1..]
      ensures var w := old(waitQ)[0].item;
              ring == old(ring) + [Sent(w.tid, w.buffer)] && accepted == old(accepted) + [Sent(w.tid, w.buffer)]
    {
      var w := waitQ[0].item;
      waitQ := waitQ[1..];
      accepted := accepted + [Sent(w.tid, w.buffer)];
      Store(Sent(w.tid, w.buffer));
    }

    /** `k_msgq_purge`. */
    method Purge()
      requires Valid()
      modifies this
      ensures ring == [] && waitQ == [] && accepted == old(accepted) && memory == old(memory)
      ensures |passed| == |old(passed)| + |old(ring)| && |refused| == |old(refused)| + |old(waitQ)|
      ensures Valid() && St() == PurgeStep(old(St()))
    {
      PurgeOutcome(St());
      StepKeepsOrder(St(), MsgqProtocol.Purge);
      PurgeInternal();
    }

    method PurgeInternal()
      requires Holds() && Copied()
      modifies this`waitQ, this`refused, this`passed, this`ring, this`usedMsgs, this`readPtr
      ensures Holds() && Copied()
      ensures ring == [] && waitQ == []
      ensures passed == old(passed) + AllPurged(old(ring)) && refused == old(refused) + Items(old(waitQ))
    {
      LatestPurged(passed, ring);
      RefuseAll();
      passed := passed + AllPurged(ring);
      ring := [];
      usedMsgs := 0;
      readPtr := writePtr;
    }

    /** Every waiting thread is woken with a failure. */
    method RefuseAll()
      modifies this`waitQ, this`refused
      ensures waitQ == [] && refused == old(refused) + Items(old(waitQ))
    {
      ghost var all := waitQ;
      while waitQ != []
        invariant |waitQ| <= |all| && waitQ == all[|all| - |waitQ|..]
        invariant refused == old(refused) + Items(all[..|all| - |waitQ|])
        decreases |waitQ|
      {
        refused := refused + [waitQ[0].item];
        waitQ := waitQ[1..];
      }
      assert all[..|all|] == all;
    }

    /** The timeout of the waiting thread at index `n`. */
    method Expire(n: nat)
      requires Valid() && n < |waitQ|
      modifies this
      ensures waitQ == old(waitQ)[..n] + old(waitQ)[n + 1..] && refused == old(refused) + [old(waitQ)[n].item]
      ensures ring == old(ring) && accepted == old(accepted) && passed == old(passed) && memory == old(memory)
      ensures Valid() && St() == TimeoutStep(old(St()), n)
    {
      if slots.Length > 0 {
        StepKeepsOneKind(St(), Timeout(n));
      }
      refused := refused + [waitQ[n].item];
      waitQ := waitQ[..n] + waitQ[n + 1..];
    }
  }
}
