/**
  Mailboxes: senders and receivers meet, a message is exchanged, and the sender is held
  back until the receiver has disposed of it. Each section under the interrupt lock is
  one step; any threads may take steps in any order.
 */
module MailboxProtocol {
  import opened Arithmetic
  import opened WaitQueue

  datatype Option<T> = None | Some(value: T)

  /** What stands for a sender: a thread, or the dummy thread of an asynchronous descriptor. */
  datatype Party = Thread(tid: nat) | Descriptor(id: nat)

  datatype Block = Block(id: nat, bytes: seq<bv8>)

  /** A transmit descriptor; a target of `None` is K_ANY. */
  datatype Tx = Tx(no: nat, sender: Party, source: nat, target: Option<nat>, info: int, size: nat,
                   data: Option<seq<bv8>>, block: Option<Block>, sem: Option<nat>)

  /** A receive descriptor. */
  datatype Rx = Rx(handle: nat, receiver: nat, source: Option<nat>, info: int, size: nat,
                   data: Option<seq<bv8>>, block: Option<Block>, syncing: Option<Party>)

  /** The condition under which a message is exchanged. */
  predicate Compatible(tx: Tx, rx: Rx) {
    && (tx.target == None || tx.target == Some(rx.receiver))
    && (rx.source == None || rx.source == Some(tx.source))
  }

  /** The receive descriptor after the exchange. */
  function MatchedRx(tx: Tx, rx: Rx): Rx {
    rx.(source := Some(tx.source), info := tx.info,
        size := if rx.size > tx.size then tx.size else rx.size,
        data := if tx.data.None? && tx.block.Some? then Some(tx.block.value.bytes) else tx.data,
        block := if tx.data.Some? then None else tx.block,
        syncing := Some(tx.sender))
  }

  /** The transmit descriptor after the exchange. */
  function MatchedTx(tx: Tx, rx: Rx): Tx {
    tx.(target := Some(rx.receiver), info := rx.info)
  }

  /** A received message that is not disposed of; `asked` is the receive descriptor as it was before. */
  datatype Delivery = Delivery(rx: Rx, tx: Tx, asked: Rx)

  /** A message that was disposed of. */
  datatype Finished = Finished(delivery: Delivery, copied: seq<bv8>, released: Option<nat>, signalled: Option<nat>)

  /**
    `ready` are the threads that can run, `free` the stack of unused descriptors and
    `sending` the descriptors that a thread has taken to send with. `posted`, `finished`,
    `cleared` and `withdrawn` record the history: all messages, those that a receiver
    disposed of, those that were cleared away, and those that were given up.
   */
  datatype State = State(
    txQueue: Queue<Tx>, rxQueue: Queue<Rx>, received: seq<Delivery>,
    ready: set<Party>, free: seq<Party>, sending: map<Party, nat>,
    posted: seq<Tx>, finished: seq<Finished>, cleared: seq<Finished>, withdrawn: seq<nat>)

  // ---------- steps ----------

  /** The first receiver that a message is compatible with. */
  function FirstRx(q: Queue<Rx>, tx: Tx): (n: nat)
    ensures n <= |q|
    ensures forall i :: 0 <= i < n ==> !Compatible(tx, q[i].item)
    ensures n < |q| ==> Compatible(tx, q[n].item)
  {
    if q == [] || Compatible(tx, q[0].item) then 0 else 1 + FirstRx(q[1..], tx)
  }

  function FirstTx(q: Queue<Tx>, rx: Rx): (n: nat)
    ensures n <= |q|
    ensures forall i :: 0 <= i < n ==> !Compatible(q[i].item, rx)
    ensures n < |q| ==> Compatible(q[n].item, rx)
  {
    if q == [] || Compatible(q[0].item, rx) then 0 else 1 + FirstTx(q[1..], rx)
  }

  function Exchange(tx: Tx, rx: Rx): Delivery {
    Delivery(MatchedRx(tx, rx), MatchedTx(tx, rx), rx)
  }

  /** `_mbox_message_put`: hand over to a waiting receiver, wait for one, or give up. */
  function PutStep(st: State, tx: Tx, prio: int, wait: bool): State {
    var n := FirstRx(st.rxQueue, tx);
    var s := st.(posted := st.posted + [tx], ready := st.ready - {tx.sender}, sending := st.sending - {tx.sender});
    if n < |st.rxQueue| then
      var rx := st.rxQueue[n].item;
      s.(rxQueue := Without(st.rxQueue, n), received := st.received + [Exchange(tx, rx)],
         ready := s.ready + {Thread(rx.receiver)})
    else if wait then s.(txQueue := Insert(st.txQueue, Waiting(prio, tx)))
    else st.(posted := st.posted + [tx], withdrawn := st.withdrawn + [tx.no])
  }

  /** `k_mbox_get` up to its data check: take a waiting message, wait for one, or give up. */
  function GetStep(st: State, rx: Rx, prio: int, wait: bool): State {
    var n := FirstTx(st.txQueue, rx);
    if n < |st.txQueue| then
      st.(txQueue := Without(st.txQueue, n), received := st.received + [Exchange(st.txQueue[n].item, rx)])
    else if wait then
      st.(rxQueue := Insert(st.rxQueue, Waiting(prio, rx)), ready := st.ready - {Thread(rx.receiver)})
    else st
  }

  /** `_mbox_async_alloc`. */
  function AllocStep(st: State, tid: nat): State
    requires st.free != []
  {
    var n := |st.free| - 1;
    st.(free := st.free[..n], sending := st.sending[st.free[n] := tid])
  }

  /** The end of a message: `_mbox_message_dispose`. */
  function Finish(d: Delivery, size: nat, copied: seq<bv8>): Finished {
    var rx := d.rx.(size := size, syncing := None, block := None);
    var tx := d.tx.(size := size);
    Finished(Delivery(rx, tx, d.asked), copied,
             if d.rx.block.Some? then Some(d.rx.block.value.id) else None,
             if d.tx.sender.Descriptor? then d.tx.sem else None)
  }

  function Release(st: State, p: Party): State {
    if p.Thread? then st.(ready := st.ready + {p}) else st.(free := st.free + [p])
  }

  /** What is copied out of a received message. */
  function Copied(rx: Rx): seq<bv8>
    requires rx.data.Some? ==> |rx.data.value| >= rx.size
  {
    if rx.data.Some? && rx.size > 0 then rx.data.value[..rx.size] else []
  }

  /** `k_mbox_data_get` on the received message `k`, into a buffer or to discard it. */
  function ConsumeStep(st: State, k: nat, keep: bool): State
    requires k < |st.received| && Holds(st.received[k].rx)
  {
    var d := st.received[k];
    var s := st.(received := st.received[..k] + st.received[k + 1..],
                 finished := st.finished + [if keep then Finish(d, d.rx.size, Copied(d.rx)) else Finish(d, 0, [])]);
    Release(s, d.tx.sender)
  }

  /**
    One turn of `k_mbox_clear_msg` on a message that waits: it is opened to anybody, matched with a receive descriptor of
    no thread, and disposed of. Between two turns other threads may run; `MailboxClear` says when the message of the
    next turn still waits.
   */
  function ClearStep(st: State, n: nat, handle: nat): State
    requires n < |st.txQueue|
  {
    var tx := st.txQueue[n].item.(target := None);
    var rx := Rx(handle, 0, None, tx.size, tx.size, None, None, None);
    var d := Delivery(MatchedRx(tx, rx), tx.(info := rx.info), rx);
    Release(st.(txQueue := Without(st.txQueue, n), cleared := st.cleared + [Finish(d, 0, [])]), tx.sender)
  }

  function TxTimeout(st: State, n: nat): State
    requires n < |st.txQueue|
  {
    var tx := st.txQueue[n].item;
    st.(txQueue := Without(st.txQueue, n), ready := st.ready + {tx.sender}, withdrawn := st.withdrawn + [tx.no])
  }

  function RxTimeout(st: State, n: nat): State
    requires n < |st.rxQueue|
  {
    st.(rxQueue := Without(st.rxQueue, n), ready := st.ready + {Thread(st.rxQueue[n].item.receiver)})
  }

  /** The sender's buffer holds as many bytes as the message has. */
  predicate HoldsTx(tx: Tx) {
    && (tx.data.Some? ==> |tx.data.value| >= tx.size)
    && (tx.data.None? && tx.block.Some? ==> |tx.block.value.bytes| >= tx.size)
  }

  predicate Holds(rx: Rx) {
    rx.data.Some? ==> |rx.data.value| >= rx.size
  }

  datatype Step =
    | Put(tx: Tx, prio: int, wait: bool)
    | AsyncPut(tx: Tx, prio: int)
    | Get(rx: Rx, prio: int, wait: bool)
    | Alloc(tid: nat)
    | Consume(k: nat, keep: bool)
    | ClearAt(n: nat, handle: nat)
    | TxExpires(n: nat)
    | RxExpires(n: nat)

  /** A handle that no waiting receiver and no received message uses. */
  predicate Unused(st: State, handle: nat) {
    && (forall i :: 0 <= i < |st.rxQueue| ==> st.rxQueue[i].item.handle != handle)
    && forall i :: 0 <= i < |st.received| ==> st.received[i].rx.handle != handle
  }

  predicate Fresh(st: State, tx: Tx) {
    tx.no == |st.posted| && HoldsTx(tx)
  }

  /** Calls are made by ready threads, timeouts only befall waiting threads. */
  predicate Enabled(st: State, step: Step) {
    match step
    case Put(tx, _, _) => Fresh(st, tx) && tx.sender == Thread(tx.source) && tx.sender in st.ready
    case AsyncPut(tx, _) => Fresh(st, tx) && tx.sender.Descriptor? && tx.sender in st.sending &&
                            st.sending[tx.sender] == tx.source
    case Get(rx, _, _) => Thread(rx.receiver) in st.ready && Unused(st, rx.handle) &&
                          rx.data.None? && rx.block.None? && rx.syncing.None?
    case Alloc(tid) => Thread(tid) in st.ready && st.free != []
    case Consume(k, _) => k < |st.received| && Holds(st.received[k].rx)
    case ClearAt(n, _) => n < |st.txQueue|
    case TxExpires(n) => n < |st.txQueue| && st.txQueue[n].item.sender.Thread?
    case RxExpires(n) => n < |st.rxQueue|
  }

  function Next(st: State, step: Step): State
    requires Enabled(st, step)
  {
    match step
    case Put(tx, prio, wait) => PutStep(st, tx, prio, wait)
    case AsyncPut(tx, prio) => PutStep(st, tx, prio, true)
    case Get(rx, prio, wait) => GetStep(st, rx, prio, wait)
    case Alloc(tid) => AllocStep(st, tid)
    case Consume(k, keep) => ConsumeStep(st, k, keep)
    case ClearAt(n, handle) => ClearStep(st, n, handle)
    case TxExpires(n) => TxTimeout(st, n)
    case RxExpires(n) => RxTimeout(st, n)
  }

  // ---------- nobody waits next to a partner ----------

  ghost predicate NoPair(st: State) {
    forall t, r :: t in st.txQueue && r in st.rxQueue ==> !Compatible(t.item, r.item)
  }

  lemma FirstRxNone(q: Queue<Rx>, tx: Tx, r: Waiting<Rx>)
    requires FirstRx(q, tx) == |q| && r in q
    ensures !Compatible(tx, r.item)
  {
  }

  lemma FirstTxNone(q: Queue<Tx>, rx: Rx, t: Waiting<Tx>)
    requires FirstTx(q, rx) == |q| && t in q
    ensures !Compatible(t.item, rx)
  {
  }

  lemma PutKeepsNoPair(st: State, tx: Tx, prio: int, wait: bool)
    requires NoPair(st)
    ensures NoPair(PutStep(st, tx, prio, wait))
  {
    var u := PutStep(st, tx, prio, wait);
    var n := FirstRx(st.rxQueue, tx);
    forall t, r | t in u.txQueue && r in u.rxQueue
      ensures !Compatible(t.item, r.item)
    {
      if n == |st.rxQueue| && wait {
        InsertMember(st.txQueue, Waiting(prio, tx), t);
        FirstRxNone(st.rxQueue, tx, r);
      } else {
        assert r in st.rxQueue;
      }
    }
  }

  lemma GetKeepsNoPair(st: State, rx: Rx, prio: int, wait: bool)
    requires NoPair(st)
    ensures NoPair(GetStep(st, rx, prio, wait))
  {
    var u := GetStep(st, rx, prio, wait);
    var n := FirstTx(st.txQueue, rx);
    forall t, r | t in u.txQueue && r in u.rxQueue
      ensures !Compatible(t.item, r.item)
    {
      if n == |st.txQueue| && wait {
        InsertMember(st.rxQueue, Waiting(prio, rx), r);
        FirstTxNone(st.txQueue, rx, t);
      } else {
        assert t in st.txQueue;
      }
    }
  }

  lemma StepKeepsNoPair(st: State, step: Step)
    requires Enabled(st, step) && NoPair(st)
    ensures NoPair(Next(st, step))
  {
    match step
    case Put(tx, prio, wait) => PutKeepsNoPair(st, tx, prio, wait);
    case AsyncPut(tx, prio) => PutKeepsNoPair(st, tx, prio, true);
    case Get(rx, prio, wait) => GetKeepsNoPair(st, rx, prio, wait);
    case _ =>
  }

  // ---------- everybody is in one place ----------

  function SenderOf(tx: Tx): Party { tx.sender }

  function ReceiverOf(rx: Rx): Party { Thread(rx.receiver) }

  function NoOf(tx: Tx): nat { tx.no }

  function DeliverySender(d: Delivery): Party { d.tx.sender }

  function Member(s: set<Party>, p: Party): nat {
    if p in s then 1 else 0
  }

  /**
    In how many places somebody is: ready, free, taken to send, waiting to send, waiting to
    receive, or held by a received message.
   */
  function Places(st: State, p: Party): nat {
    Member(st.ready, p) + Occurs(st.free, p) + Member(st.sending.Keys, p) +
    Count(SenderOf, st.txQueue, p) + Count(ReceiverOf, st.rxQueue, p) + CountIn(DeliverySender, st.received, p)
  }

  /** Threads are ready, descriptors are free or taken; nobody is in two places. */
  ghost predicate Placed(st: State) {
    && (forall p :: p in st.ready ==> p.Thread?)
    && (forall p :: p in st.free ==> p.Descriptor?)
    && (forall p :: p in st.sending ==> p.Descriptor?)
    && forall p :: Places(st, p) <= 1
  }

  lemma PutPlaces(st: State, tx: Tx, prio: int, wait: bool, p: Party)
    requires Places(st, tx.sender) <= 1 && (tx.sender in st.ready || tx.sender in st.sending)
    requires Places(st, p) <= 1
    ensures Places(PutStep(st, tx, prio, wait), p) == Places(st, p)
  {
    var n := FirstRx(st.rxQueue, tx);
    if n < |st.rxQueue| {
      CountWithout(ReceiverOf, st.rxQueue, n, p);
      CountAppend(DeliverySender, st.received, Exchange(tx, st.rxQueue[n].item), p);
    } else if wait {
      CountInsert(SenderOf, st.txQueue, Waiting(prio, tx), p);
    }
  }

  lemma GetPlaces(st: State, rx: Rx, prio: int, wait: bool, p: Party)
    requires Thread(rx.receiver) in st.ready
    ensures Places(GetStep(st, rx, prio, wait), p) == Places(st, p)
  {
    var n := FirstTx(st.txQueue, rx);
    if n < |st.txQueue| {
      CountWithout(SenderOf, st.txQueue, n, p);
      CountAppend(DeliverySender, st.received, Exchange(st.txQueue[n].item, rx), p);
    } else if wait {
      CountInsert(ReceiverOf, st.rxQueue, Waiting(prio, rx), p);
    }
  }

  lemma ReleasePlaces(st: State, q: Party, p: Party)
    requires q !in st.ready
    ensures Places(Release(st, q), p) == Places(st, p) + if p == q then 1 else 0
  {
    OccursAppend(st.free, q, p);
  }

  lemma ConsumePlaces(st: State, k: nat, keep: bool, p: Party)
    requires k < |st.received| && Holds(st.received[k].rx) && Places(st, st.received[k].tx.sender) <= 1
    ensures Places(ConsumeStep(st, k, keep), p) == Places(st, p)
  {
    var d := st.received[k];
    var s := st.(received := st.received[..k] + st.received[k + 1..],
                 finished := st.finished + [if keep then Finish(d, d.rx.size, Copied(d.rx)) else Finish(d, 0, [])]);
    CountRemove(DeliverySender, st.received, k, p);
    CountRemove(DeliverySender, st.received, k, d.tx.sender);
    ReleasePlaces(s, d.tx.sender, p);
  }

  lemma ClearPlaces(st: State, n: nat, handle: nat, p: Party)
    requires n < |st.txQueue| && Places(st, st.txQueue[n].item.sender) <= 1
    ensures Places(ClearStep(st, n, handle), p) == Places(st, p)
  {
    var tx := st.txQueue[n].item.(target := None);
    var rx := Rx(handle, 0, None, tx.size, tx.size, None, None, None);
    var d := Delivery(MatchedRx(tx, rx), tx.(info := rx.info), rx);
    var s := st.(txQueue := Without(st.txQueue, n), cleared := st.cleared + [Finish(d, 0, [])]);
    CountWithout(SenderOf, st.txQueue, n, p);
    CountWithout(SenderOf, st.txQueue, n, tx.sender);
    ReleasePlaces(s, tx.sender, p);
  }

  lemma AllocPlaces(st: State, tid: nat, p: Party)
    requires st.free != [] && Places(st, st.free[|st.free| - 1]) <= 1
    ensures Places(AllocStep(st, tid), p) == Places(st, p)
  {
    var n := |st.free| - 1;
    assert st.free[..n] + [st.free[n]] == st.free;
    OccursAppend(st.free[..n], st.free[n], p);
    OccursAppend(st.free[..n], st.free[n], st.free[n]);
  }

  lemma TimeoutPlaces(st: State, n: nat, p: Party)
    ensures n < |st.txQueue| && Places(st, st.txQueue[n].item.sender) <= 1 ==>
              Places(TxTimeout(st, n), p) == Places(st, p)
    ensures n < |st.rxQueue| && Places(st, Thread(st.rxQueue[n].item.receiver)) <= 1 ==>
              Places(RxTimeout(st, n), p) == Places(st, p)
  {
    if n < |st.txQueue| {
      CountWithout(SenderOf, st.txQueue, n, p);
      CountWithout(SenderOf, st.txQueue, n, st.txQueue[n].item.sender);
    }
    if n < |st.rxQueue| {
      CountWithout(ReceiverOf, st.rxQueue, n, p);
      CountWithout(ReceiverOf, st.rxQueue, n, Thread(st.rxQueue[n].item.receiver));
    }
  }

  /** No step creates, loses or duplicates a thread or a descriptor. */
  lemma StepKeepsPlaces(st: State, step: Step, p: Party)
    requires Enabled(st, step) && Placed(st)
    ensures Places(Next(st, step), p) == Places(st, p)
  {
    match step
    case Put(tx, prio, wait) => PutPlaces(st, tx, prio, wait, p);
    case AsyncPut(tx, prio) => PutPlaces(st, tx, prio, true, p);
    case Get(rx, prio, wait) => GetPlaces(st, rx, prio, wait, p);
    case Alloc(tid) => AllocPlaces(st, tid, p);
    case Consume(k, keep) => ConsumePlaces(st, k, keep, p);
    case ClearAt(n, handle) => ClearPlaces(st, n, handle, p);
    case TxExpires(n) => TimeoutPlaces(st, n, p);
    case RxExpires(n) => TimeoutPlaces(st, n, p);
  }

  lemma StepKeepsPlaced(st: State, step: Step)
    requires Enabled(st, step) && Placed(st)
    ensures Placed(Next(st, step))
  {
    forall p
      ensures Places(Next(st, step), p) <= 1
    {
      StepKeepsPlaces(st, step, p);
    }
  }

  // ---------- every message is accounted for ----------

  function DeliveryNo(d: Delivery): nat { d.tx.no }

  function FinishedNo(f: Finished): nat { f.delivery.tx.no }

  /** How often a message is waiting, received, disposed of, cleared or given up. */
  function Fates(st: State, no: nat): nat {
    Count(NoOf, st.txQueue, no) + CountIn(DeliveryNo, st.received, no) + CountIn(FinishedNo, st.finished, no) +
    CountIn(FinishedNo, st.cleared, no) + Occurs(st.withdrawn, no)
  }

  function Posted(st: State, no: nat): nat {
    if no < |st.posted| then 1 else 0
  }

  ghost predicate Accounted(st: State) {
    forall no :: Fates(st, no) == Posted(st, no)
  }

  lemma PutFates(st: State, tx: Tx, prio: int, wait: bool, no: nat)
    requires tx.no == |st.posted|
    ensures var u := PutStep(st, tx, prio, wait);
            Fates(u, no) - Posted(u, no) == Fates(st, no) - Posted(st, no)
  {
    var n := FirstRx(st.rxQueue, tx);
    if n < |st.rxQueue| {
      CountAppend(DeliveryNo, st.received, Exchange(tx, st.rxQueue[n].item), no);
    } else if wait {
      CountInsert(NoOf, st.txQueue, Waiting(prio, tx), no);
    } else {
      OccursAppend(st.withdrawn, tx.no, no);
    }
  }

  lemma GetFates(st: State, rx: Rx, prio: int, wait: bool, no: nat)
    ensures Fates(GetStep(st, rx, prio, wait), no) == Fates(st, no)
  {
    var n := FirstTx(st.txQueue, rx);
    if n < |st.txQueue| {
      CountWithout(NoOf, st.txQueue, n, no);
      CountAppend(DeliveryNo, st.received, Exchange(st.txQueue[n].item, rx), no);
    }
  }

  lemma ConsumeFates(st: State, k: nat, keep: bool, no: nat)
    requires k < |st.received| && Holds(st.received[k].rx)
    ensures Fates(ConsumeStep(st, k, keep), no) == Fates(st, no)
  {
    var d := st.received[k];
    CountRemove(DeliveryNo, st.received, k, no);
    CountAppend(FinishedNo, st.finished, if keep then Finish(d, d.rx.size, Copied(d.rx)) else Finish(d, 0, []), no);
  }

  lemma ClearFates(st: State, n: nat, handle: nat, no: nat)
    requires n < |st.txQueue|
    ensures Fates(ClearStep(st, n, handle), no) == Fates(st, no)
  {
    var u := ClearStep(st, n, handle);
    CountWithout(NoOf, st.txQueue, n, no);
    CountAppend(FinishedNo, st.cleared, u.cleared[|st.cleared|], no);
  }

  lemma TimeoutFates(st: State, n: nat, no: nat)
    requires n < |st.txQueue|
    ensures Fates(TxTimeout(st, n), no) == Fates(st, no)
  {
    CountWithout(NoOf, st.txQueue, n, no);
    OccursAppend(st.withdrawn, st.txQueue[n].item.no, no);
  }

  /** No step loses or duplicates a message. */
  lemma StepKeepsFates(st: State, step: Step, no: nat)
    requires Enabled(st, step)
    ensures var u := Next(st, step); Fates(u, no) - Posted(u, no) == Fates(st, no) - Posted(st, no)
  {
    match step
    case Put(tx, prio, wait) => PutFates(st, tx, prio, wait, no);
    case AsyncPut(tx, prio) => PutFates(st, tx, prio, true, no);
    case Get(rx, prio, wait) => GetFates(st, rx, prio, wait, no);
    case Alloc(_) =>
    case Consume(k, keep) => ConsumeFates(st, k, keep, no);
    case ClearAt(n, handle) => ClearFates(st, n, handle, no);
    case TxExpires(n) => TimeoutFates(st, n, no);
    case RxExpires(_) =>
  }

  // ---------- messages arrive as they were sent ----------

  predicate HasData(tx: Tx) {
    tx.data.Some? || tx.block.Some?
  }

  function Payload(tx: Tx): seq<bv8>
    requires HasData(tx)
  {
    if tx.data.Some? then tx.data.value else tx.block.value.bytes
  }

  /** Sender and receiver accepted each other, learn who the other is, and swap their information words. */
  predicate Met(p: Tx, d: Delivery) {
    && (p.target == None || p.target == Some(d.rx.receiver))
    && (d.asked.source == None || d.asked.source == Some(p.source))
    && d.rx.handle == d.asked.handle && d.rx.receiver == d.asked.receiver
    && d.rx.source == Some(p.source) && d.tx.target == Some(d.rx.receiver)
    && d.rx.info == p.info && d.tx.info == d.asked.info
    && d.tx.sender == p.sender && d.tx.sem == p.sem
  }

  /** A received message: the receiver sees the sender's data, and the sender is still held. */
  predicate Faithful(p: Tx, d: Delivery) {
    && Met(p, d)
    && d.rx.syncing == Some(p.sender)
    && d.rx.size == Min(p.size, d.asked.size)
    && HoldsTx(p)
    && d.rx.data == (if HasData(p) then Some(Payload(p)) else None)
    && d.rx.block == (if p.data.Some? then None else p.block)
  }

  /**
    A message that was disposed of: it was discarded, or the receiver has the first bytes of
    the sender's data; the sender learns how many; the sender's block is released, and
    its semaphore given, exactly if there is one.
   */
  predicate Concluded(p: Tx, f: Finished) {
    && Met(p, f.delivery)
    && f.delivery.rx.syncing == None && f.delivery.tx.size == f.delivery.rx.size
    && HoldsTx(p)
    && (|| (f.delivery.rx.size == 0 && f.copied == [])
        || (&& f.delivery.rx.size == Min(p.size, f.delivery.asked.size)
            && f.copied == if HasData(p) then Payload(p)[..f.delivery.rx.size] else []))
    && f.released == (if p.data.None? && p.block.Some? then Some(p.block.value.id) else None)
    && f.signalled == (if p.sender.Descriptor? then p.sem else None)
  }

  /**
    A message that was cleared away: its sender learns that nothing was received, and by nobody, and finds its own size
    in the information word; its block is released and its semaphore given, exactly if there is one.
   */
  predicate ClearedAway(p: Tx, f: Finished) {
    && f.delivery.tx.sender == p.sender && f.delivery.tx.size == 0 && f.delivery.rx.size == 0 && f.copied == []
    && f.delivery.rx.syncing == None && f.delivery.tx.target == None && f.delivery.tx.info == p.size
    && f.released == (if p.data.None? && p.block.Some? then Some(p.block.value.id) else None)
    && f.signalled == (if p.sender.Descriptor? then p.sem else None)
  }

  ghost predicate Intact(st: State) {
    && (forall w :: w in st.txQueue ==> w.item.no < |st.posted| && st.posted[w.item.no] == w.item && HoldsTx(w.item))
    && (forall d :: d in st.received ==> d.tx.no < |st.posted| && Faithful(st.posted[d.tx.no], d))
    && (forall f :: f in st.finished ==> f.delivery.tx.no < |st.posted| && Concluded(st.posted[f.delivery.tx.no], f))
    && forall f :: f in st.cleared ==> f.delivery.tx.no < |st.posted| && ClearedAway(st.posted[f.delivery.tx.no], f)
  }

  lemma ExchangeFaithful(tx: Tx, rx: Rx)
    requires Compatible(tx, rx) && HoldsTx(tx)
    ensures Faithful(tx, Exchange(tx, rx))
  {
  }

  lemma FinishConcludes(p: Tx, d: Delivery)
    requires Faithful(p, d)
    ensures Holds(d.rx)
    ensures Concluded(p, Finish(d, d.rx.size, Copied(d.rx))) && Concluded(p, Finish(d, 0, []))
  {
  }

  lemma PutKeepsIntact(st: State, tx: Tx, prio: int, wait: bool)
    requires Intact(st) && Fresh(st, tx)
    ensures Intact(PutStep(st, tx, prio, wait))
  {
    var n := FirstRx(st.rxQueue, tx);
    var u := PutStep(st, tx, prio, wait);
    assert forall i :: 0 <= i < |st.posted| ==> u.posted[i] == st.posted[i];
    if n < |st.rxQueue| {
      ExchangeFaithful(tx, st.rxQueue[n].item);
    } else if wait {
      forall w | w in u.txQueue
        ensures w.item.no < |u.posted| && u.posted[w.item.no] == w.item && HoldsTx(w.item)
      {
        InsertMember(st.txQueue, Waiting(prio, tx), w);
      }
    }
  }

  lemma GetKeepsIntact(st: State, rx: Rx, prio: int, wait: bool)
    requires Intact(st)
    ensures Intact(GetStep(st, rx, prio, wait))
  {
    var n := FirstTx(st.txQueue, rx);
    if n < |st.txQueue| {
      assert st.txQueue[n] in st.txQueue;
      ExchangeFaithful(st.txQueue[n].item, rx);
    }
  }

  lemma ConsumeKeepsIntact(st: State, k: nat, keep: bool)
    requires Intact(st) && k < |st.received|
    ensures Holds(st.received[k].rx) && Intact(ConsumeStep(st, k, keep))
  {
    var d := st.received[k];
    assert d in st.received;
    FinishConcludes(st.posted[d.tx.no], d);
  }

  lemma ClearKeepsIntact(st: State, n: nat, handle: nat)
    requires Intact(st) && n < |st.txQueue|
    ensures Intact(ClearStep(st, n, handle))
  {
    assert st.txQueue[n] in st.txQueue;
  }

  lemma StepKeepsIntact(st: State, step: Step)
    requires Enabled(st, step) && Intact(st)
    ensures Intact(Next(st, step))
  {
    match step
    case Put(tx, prio, wait) => PutKeepsIntact(st, tx, prio, wait);
    case AsyncPut(tx, prio) => PutKeepsIntact(st, tx, prio, true);
    case Get(rx, prio, wait) => GetKeepsIntact(st, rx, prio, wait);
    case Consume(k, keep) => ConsumeKeepsIntact(st, k, keep);
    case ClearAt(n, handle) => ClearKeepsIntact(st, n, handle);
    case _ =>
  }
}
