/**
  `k_mbox_clear_msg` as it runs between other threads. It remembers the next sender before it
  disposes of a message, and disposing may switch to another thread; when it goes on, it clears the
  sender that it remembers without looking at the queue again. When that is right, and what an
  interrupted call still guarantees.
 */
module MailboxClear {
  import opened WaitQueue
  import opened MailboxProtocol
  import opened MailboxRuns

  /** A call that has disposed of a message and will go on with sender `next`. */
  datatype Clearing = Clearing(handle: nat, next: Waiting<Tx>)

  /** The mailbox and the calls that are under way, by thread. */
  datatype System = System(st: State, calls: map<nat, Clearing>)

  /**
    A step of the mailbox; the start of a call with its first turn; or a further turn. If the sender
    that a turn goes on with no longer waits, `follows` is what its links lead to.
   */
  datatype Action =
    | Do(step: Step)
    | Begin(caller: nat, handle: nat)
    | Turn(caller: nat, follows: Option<Waiting<Tx>>)

  // ---------- actions ----------

  /** Where an entry is in the queue. */
  function IndexOf(q: Queue<Tx>, w: Waiting<Tx>): (n: nat)
    ensures n <= |q|
    ensures n < |q| ==> q[n] == w
    ensures n == |q| ==> w !in q
  {
    if q == [] || q[0] == w then 0 else 1 + IndexOf(q[1..], w)
  }

  /** A call with its remembered sender: the end of the list ends it. */
  function Saved(calls: map<nat, Clearing>, caller: nat, handle: nat, next: Option<Waiting<Tx>>): map<nat, Clearing> {
    match next
    case Some(w) => calls[caller := Clearing(handle, w)]
    case None => calls - {caller}
  }

  /** The turn for the entry at `n`: the one behind it is remembered first. */
  function ClearAndSave(sys: System, caller: nat, handle: nat, n: nat): System
    requires n < |sys.st.txQueue|
  {
    var q := sys.st.txQueue;
    System(ClearStep(sys.st, n, handle), Saved(sys.calls, caller, handle, if n + 1 < |q| then Some(q[n + 1]) else None))
  }

  /**
    The turn for a sender that no longer waits: its message is made a received one and disposed of once more, so
    that its thread becomes ready or its descriptor free. What it does to the links of queues is not modelled.
   */
  function StaleTurn(st: State, w: Waiting<Tx>, handle: nat): State {
    var tx := w.item.(target := None);
    var rx := Rx(handle, 0, None, tx.size, tx.size, None, None, None);
    var d := Delivery(MatchedRx(tx, rx), tx.(info := rx.info), rx);
    Release(st.(cleared := st.cleared + [Finish(d, 0, [])]), tx.sender)
  }

  /** The thread that takes a step; timeouts are taken by none. */
  function Actor(st: State, step: Step): Option<nat>
    requires Enabled(st, step)
  {
    match step
    case Put(tx, _, _) => Some(tx.source)
    case AsyncPut(tx, _) => Some(tx.source)
    case Get(rx, _, _) => Some(rx.receiver)
    case Alloc(tid) => Some(tid)
    case Consume(k, _) => Some(st.received[k].rx.receiver)
    case _ => None
  }

  /** A thread that is clearing does nothing else, and messages are cleared only by calls. */
  predicate Possible(sys: System, act: Action) {
    match act
    case Do(step) =>
      && Enabled(sys.st, step) && !step.ClearAt?
      && (Actor(sys.st, step).Some? ==> Actor(sys.st, step).value !in sys.calls)
    case Begin(caller, _) => Thread(caller) in sys.st.ready && caller !in sys.calls
    case Turn(caller, _) => caller in sys.calls
  }

  function Act(sys: System, act: Action): System
    requires Possible(sys, act)
  {
    match act
    case Do(step) => sys.(st := Next(sys.st, step))
    case Begin(caller, handle) =>
      if sys.st.txQueue == [] then sys else ClearAndSave(sys, caller, handle, 0)
    case Turn(caller, follows) =>
      var c := sys.calls[caller];
      var n := IndexOf(sys.st.txQueue, c.next);
      if n < |sys.st.txQueue| then ClearAndSave(sys, caller, c.handle, n)
      else System(StaleTurn(sys.st, c.next, c.handle), Saved(sys.calls, caller, c.handle, follows))
  }

  ghost predicate ActsTo(sys: System, acts: seq<Action>, end: System)
    decreases |acts|
  {
    if acts == [] then end == sys
    else Possible(sys, acts[0]) && ActsTo(Act(sys, acts[0]), acts[1..], end)
  }

  // ---------- right turns ----------

  /** A turn clears a message that waits. */
  predicate RightTurn(sys: System, act: Action) {
    act.Turn? && act.caller in sys.calls ==> sys.calls[act.caller].next in sys.st.txQueue
  }

  /** Every turn of a run does. */
  ghost predicate AllRight(sys: System, acts: seq<Action>)
    decreases |acts|
  {
    acts != [] ==>
      RightTurn(sys, acts[0]) && (Possible(sys, acts[0]) ==> AllRight(Act(sys, acts[0]), acts[1..]))
  }

  /** What a right action is among the steps of a mailbox. */
  function AsSteps(sys: System, act: Action): seq<Step>
    requires Possible(sys, act)
  {
    match act
    case Do(step) => [step]
    case Begin(_, handle) => if sys.st.txQueue == [] then [] else [ClearAt(0, handle)]
    case Turn(caller, _) => [ClearAt(IndexOf(sys.st.txQueue, sys.calls[caller].next), sys.calls[caller].handle)]
  }

  function AllSteps(sys: System, acts: seq<Action>): seq<Step>
    decreases |acts|
  {
    if acts == [] || !Possible(sys, acts[0]) then []
    else AsSteps(sys, acts[0]) + AllSteps(Act(sys, acts[0]), acts[1..])
  }

  lemma StepsThenRun(st: State, steps: seq<Step>, rest: seq<Step>, end: State)
    requires |steps| <= 1 && (steps == [] ==> Run(st, rest, end))
    requires steps != [] ==> Enabled(st, steps[0]) && Run(Next(st, steps[0]), rest, end)
    ensures Run(st, steps + rest, end)
  {
    if steps == [] {
      assert steps + rest == rest;
    } else {
      assert (steps + rest)[1..] == rest;
    }
  }

  /** A run in which every turn is right is a run of the mailbox, and so keeps all its invariants. */
  lemma {:induction false} RightRun(sys: System, acts: seq<Action>, end: System)
    requires ActsTo(sys, acts, end) && AllRight(sys, acts)
    ensures Run(sys.st, AllSteps(sys, acts), end.st)
    decreases |acts|
  {
    if acts != [] {
      RightRun(Act(sys, acts[0]), acts[1..], end);
      StepsThenRun(sys.st, AsSteps(sys, acts[0]), AllSteps(Act(sys, acts[0]), acts[1..]), end.st);
    }
  }

  function Start(threads: set<Party>, n: nat): System {
    System(Init(threads, n), map[])
  }

  predicate OnlyThreads(threads: set<Party>) {
    forall p :: p in threads ==> p.Thread?
  }

  /** In a run from the start in which every turn is right, all invariants hold. */
  lemma RightRunKeepsInv(threads: set<Party>, n: nat, acts: seq<Action>, end: System)
    requires OnlyThreads(threads) && ActsTo(Start(threads, n), acts, end)
    requires AllRight(Start(threads, n), acts)
    ensures Inv(end.st) && exists steps :: Run(Init(threads, n), steps, end.st)
  {
    InitInv(threads, n);
    RightRun(Start(threads, n), acts, end);
    RunKeepsInv(Init(threads, n), AllSteps(Start(threads, n), acts), end.st);
  }

  // ---------- a call that nobody interrupts ----------

  /** The messages of the queue were added to the log of cleared messages. */
  predicate ClearedInOrder(after: seq<Finished>, before: seq<Finished>, q: Queue<Tx>) {
    && |after| == |before| + |q| && before <= after
    && forall i :: 0 <= i < |q| ==> after[|before| + i].delivery.tx.no == q[i].item.no
  }

  /** Clearing a mailbox, message by message. */
  function ClearAll(st: State, handle: nat): State
    decreases |st.txQueue|
  {
    if st.txQueue == [] then st else ClearAll(ClearStep(st, 0, handle), handle)
  }

  lemma {:induction false} ClearAllKeepsInv(st: State, handle: nat)
    requires Inv(st)
    ensures Inv(ClearAll(st, handle))
    decreases |st.txQueue|
  {
    if st.txQueue != [] {
      StepKeepsInv(st, ClearAt(0, handle));
      ClearAllKeepsInv(ClearStep(st, 0, handle), handle);
    }
  }

  lemma {:induction false} ClearAllOrder(st: State, handle: nat)
    ensures var u := ClearAll(st, handle);
            && u.txQueue == [] && u.rxQueue == st.rxQueue && u.received == st.received && u.posted == st.posted
            && ClearedInOrder(u.cleared, st.cleared, st.txQueue)
    decreases |st.txQueue|
  {
    if st.txQueue != [] {
      var v, u := ClearStep(st, 0, handle), ClearAll(st, handle);
      ClearAllOrder(v, handle);
      ClearedFirst(u.cleared, v.cleared, st.cleared, st.txQueue, v.txQueue);
    }
  }

  lemma ClearedFirst(after: seq<Finished>, mid: seq<Finished>, before: seq<Finished>, q: Queue<Tx>, rest: Queue<Tx>)
    requires q != [] && rest == q[1..] && ClearedInOrder(after, mid, rest)
    requires |mid| == |before| + 1 && before <= mid && mid[|before|].delivery.tx.no == q[0].item.no
    ensures ClearedInOrder(after, before, q)
  {
    forall i | 0 <= i < |q|
      ensures after[|before| + i].delivery.tx.no == q[i].item.no
    {
      if i > 0 {
        assert after[|mid| + (i - 1)].delivery.tx.no == rest[i - 1].item.no;
      } else {
        assert after[|before|] == mid[|before|];
      }
    }
  }

  lemma {:induction false} ClearAllReleases(st: State, handle: nat)
    ensures var u := ClearAll(st, handle); st.ready <= u.ready && st.free <= u.free
    ensures forall w :: w in st.txQueue ==>
              var u := ClearAll(st, handle); w.item.sender in u.ready || w.item.sender in u.free
    decreases |st.txQueue|
  {
    if st.txQueue != [] {
      var v := ClearStep(st, 0, handle);
      ClearAllReleases(v, handle);
      var u := ClearAll(st, handle);
      forall w | w in st.txQueue
        ensures w.item.sender in u.ready || w.item.sender in u.free
      {
        assert w == st.txQueue[0] || w in v.txQueue;
        if w == st.txQueue[0] {
          assert w.item.sender in v.ready || w.item.sender in v.free;
        }
      }
    }
  }

  /**
    Afterwards no message waits, the waiting messages were cleared in their order (so, by the invariant, their
    blocks are released and their semaphores given), and their senders are released.
   */
  lemma ClearAllEmpties(st: State, handle: nat)
    requires Inv(st)
    ensures var u := ClearAll(st, handle);
            && Inv(u) && u.txQueue == [] && u.rxQueue == st.rxQueue && u.received == st.received && u.posted == st.posted
            && ClearedInOrder(u.cleared, st.cleared, st.txQueue)
            && forall w :: w in st.txQueue ==> w.item.sender in u.ready || w.item.sender in u.free
  {
    ClearAllKeepsInv(st, handle);
    ClearAllOrder(st, handle);
    ClearAllReleases(st, handle);
  }

  lemma NoMoreTurns(sys: System, caller: nat, acts: seq<Action>, end: System)
    requires caller !in sys.calls && ActsTo(sys, acts, end)
    requires forall i :: 0 <= i < |acts| ==> acts[i].Turn? && acts[i].caller == caller
    ensures acts == [] && end == sys
  {
  }

  /** The turns of a call behind its first, when only they are taken, clear what is left. */
  lemma {:induction false} TurnsClear(sys: System, caller: nat, handle: nat, acts: seq<Action>, end: System)
    requires sys.st.txQueue != [] && sys.calls == map[caller := Clearing(handle, sys.st.txQueue[0])]
    requires ActsTo(sys, acts, end) && end.calls == map[]
    requires forall i :: 0 <= i < |acts| ==> acts[i].Turn? && acts[i].caller == caller
    ensures end.st == ClearAll(sys.st, handle)
    decreases |acts|
  {
    assert acts != [] by {
      assert caller in sys.calls;
    }
    var q, next := sys.st.txQueue, Act(sys, acts[0]);
    HeadTurn(sys, caller, handle, acts[0]);
    if |q| > 1 {
      TurnsClear(next, caller, handle, acts[1..], end);
    } else {
      NoMoreTurns(next, caller, acts[1..], end);
    }
  }

  lemma HeadTurn(sys: System, caller: nat, handle: nat, act: Action)
    requires sys.st.txQueue != [] && sys.calls == map[caller := Clearing(handle, sys.st.txQueue[0])]
    requires act.Turn? && act.caller == caller
    ensures var q, next := sys.st.txQueue, Act(sys, act);
            && next.st == ClearStep(sys.st, 0, handle) && next.st.txQueue == q[1..]
            && next.calls == if |q| > 1 then map[caller := Clearing(handle, q[1])] else map[]
  {
    var q := sys.st.txQueue;
    assert IndexOf(q, q[0]) == 0;
    assert Without(q, 0) == q[1..];
  }

  /** A call that is not interrupted clears the whole mailbox. */
  lemma CallIsClearAll(sys: System, caller: nat, handle: nat, acts: seq<Action>, end: System)
    requires sys.calls == map[] && ActsTo(sys, acts, end) && end.calls == map[] && acts != [] && acts[0] == Begin(caller, handle)
    requires forall i :: 0 < i < |acts| ==> acts[i].Turn? && acts[i].caller == caller
    ensures end.st == ClearAll(sys.st, handle)
  {
    var q, next := sys.st.txQueue, Act(sys, acts[0]);
    StartOfCall(sys, caller, handle);
    if |q| > 1 {
      TurnsClear(next, caller, handle, acts[1..], end);
    } else {
      NoMoreTurns(next, caller, acts[1..], end);
    }
  }

  lemma StartOfCall(sys: System, caller: nat, handle: nat)
    requires sys.calls == map[] && Possible(sys, Begin(caller, handle))
    ensures var q, next := sys.st.txQueue, Act(sys, Begin(caller, handle));
            && (q != [] ==> next.st == ClearStep(sys.st, 0, handle) && next.st.txQueue == q[1..])
            && (q == [] ==> next.st == sys.st)
            && next.calls == if |q| > 1 then map[caller := Clearing(handle, q[1])] else map[]
  {
    var q := sys.st.txQueue;
    assert q != [] ==> Without(q, 0) == q[1..];
  }

  // ---------- kinds of interruptions ----------

  datatype Kind = Puts | AsyncPuts | Gets | Allocs | Consumes | Clears | TxTimeouts | RxTimeouts

  function KindOf(act: Action): Kind {
    match act
    case Do(step) => (
      match step
      case Put(_, _, _) => Puts
      case AsyncPut(_, _) => AsyncPuts
      case Get(_, _, _) => Gets
      case Alloc(_) => Allocs
      case Consume(_, _) => Consumes
      case ClearAt(_, _) => Clears
      case TxExpires(_) => TxTimeouts
      case RxExpires(_) => RxTimeouts)
    case Begin(_, _) => Clears
    case Turn(_, _) => Clears
  }

  /** The action interrupts a call of another thread. */
  predicate Interrupts(sys: System, act: Action) {
    exists c :: c in sys.calls && !(act.Turn? && act.caller == c)
  }

  /** Calls are only interrupted by actions of the given kinds. */
  ghost predicate Interrupted(sys: System, acts: seq<Action>, kinds: set<Kind>)
    decreases |acts|
  {
    acts != [] ==>
      && (Interrupts(sys, acts[0]) ==> KindOf(acts[0]) in kinds)
      && (Possible(sys, acts[0]) ==> Interrupted(Act(sys, acts[0]), acts[1..], kinds))
  }

  /** Every turn is right, in all runs from the start with such interruptions. */
  ghost predicate Reliable(kinds: set<Kind>) {
    forall threads: set<Party>, n: nat, acts, end ::
      OnlyThreads(threads) && ActsTo(Start(threads, n), acts, end) && Interrupted(Start(threads, n), acts, kinds) ==>
        AllRight(Start(threads, n), acts)
  }

  /** Every remembered sender waits. */
  ghost predicate AllWait(sys: System) {
    forall c :: c in sys.calls ==> sys.calls[c].next in sys.st.txQueue
  }

  predicate Harmless(kinds: set<Kind>) {
    Gets !in kinds && TxTimeouts !in kinds && Clears !in kinds
  }

  /** Steps of the other kinds leave every waiting message in the queue. */
  lemma StaysWaiting(st: State, step: Step, w: Waiting<Tx>)
    requires Enabled(st, step) && w in st.txQueue && !step.Get? && !step.TxExpires? && !step.ClearAt?
    ensures w in Next(st, step).txQueue
  {
    match step
    case Put(tx, prio, _) => InsertMember(st.txQueue, Waiting(prio, tx), w);
    case AsyncPut(tx, prio) => InsertMember(st.txQueue, Waiting(prio, tx), w);
    case _ =>
  }

  lemma OtherStays(q: Queue<Tx>, n: nat, k: nat)
    requires n < |q| && k < |q| && n != k
    ensures q[k] in Without(q, n)
  {
    assert Without(q, n)[if k < n then k else k - 1] == q[k];
  }

  lemma TurnKeepsWaiting(sys: System, caller: nat, handle: nat, n: nat)
    requires n < |sys.st.txQueue| && forall c :: c in sys.calls ==> c == caller
    ensures AllWait(ClearAndSave(sys, caller, handle, n))
  {
    if n + 1 < |sys.st.txQueue| {
      OtherStays(sys.st.txQueue, n, n + 1);
    }
  }

  lemma ActKeepsWaiting(sys: System, act: Action, kinds: set<Kind>)
    requires Possible(sys, act) && AllWait(sys) && Harmless(kinds) && (Interrupts(sys, act) ==> KindOf(act) in kinds)
    ensures AllWait(Act(sys, act))
  {
    match act
    case Do(step) =>
      forall c | c in sys.calls ensures sys.calls[c].next in Next(sys.st, step).txQueue {
        assert Interrupts(sys, act);
        StaysWaiting(sys.st, step, sys.calls[c].next);
      }
    case Begin(caller, handle) =>
      assert !Interrupts(sys, act);
      if sys.st.txQueue != [] {
        TurnKeepsWaiting(sys, caller, handle, 0);
      }
    case Turn(caller, _) =>
      assert !Interrupts(sys, act);
      TurnKeepsWaiting(sys, caller, sys.calls[caller].handle, IndexOf(sys.st.txQueue, sys.calls[caller].next));
  }

  lemma {:induction false} HarmlessAllRight(sys: System, acts: seq<Action>, end: System, kinds: set<Kind>)
    requires AllWait(sys) && Harmless(kinds) && ActsTo(sys, acts, end) && Interrupted(sys, acts, kinds)
    ensures AllRight(sys, acts)
    decreases |acts|
  {
    if acts != [] {
      ActKeepsWaiting(sys, acts[0], kinds);
      HarmlessAllRight(Act(sys, acts[0]), acts[1..], end, kinds);
    }
  }

  // ---------- a call that goes on with a sender that left ----------

  /** Thread 1 sends to a thread that is not there, ... */
  const FIRST: Tx := Tx(0, Thread(1), 1, Some(99), 0, 1, Some([7]), None, None)

  /** ... thread 5 to anybody, ... */
  const SECOND: Tx := Tx(1, Thread(5), 5, None, 0, 1, Some([8]), None, None)

  const THREADS: set<Party> := {Thread(1), Thread(5), Thread(10)}

  /** ... and thread 10 clears the mailbox. The first sender has a higher priority and runs as soon as it is released. */
  /** The first message is cleared; the call will go on with the second. */
  const MIDWAY: System :=
    System(State([Waiting(5, SECOND)], [], [], {Thread(1), Thread(10)}, [], map[], [FIRST, SECOND], [], [CLEARED], []),
           map[10 := Clearing(0, Waiting(5, SECOND))])

  const CLEARED: Finished :=
    Finished(Delivery(Rx(0, 0, Some(1), 0, 0, Some([7]), None, None), Tx(0, Thread(1), 1, None, 1, 0, Some([7]), None, None),
                      Rx(0, 0, None, 1, 1, None, None, None)), [], None, None)

  const FIRST_WAITS: System :=
    System(State([Waiting(1, FIRST)], [], [], {Thread(5), Thread(10)}, [], map[], [FIRST], [], [], []), map[])

  const BOTH_WAIT: System :=
    System(State([Waiting(1, FIRST), Waiting(5, SECOND)], [], [], {Thread(10)}, [], map[], [FIRST, SECOND], [], [], []), map[])

  /** The action leads from one system to the other and interrupts no call. */
  predicate Leads(sys: System, act: Action, next: System) {
    Possible(sys, act) && Act(sys, act) == next && !Interrupts(sys, act)
  }

  lemma FirstPut()
    ensures Leads(Start(THREADS, 0), Do(Put(FIRST, 1, true)), FIRST_WAITS)
  {
    var s := Act(Start(THREADS, 0), Do(Put(FIRST, 1, true)));
    assert s.st.ready == FIRST_WAITS.st.ready && s.st.txQueue == FIRST_WAITS.st.txQueue;
  }

  lemma SecondPut()
    ensures Leads(FIRST_WAITS, Do(Put(SECOND, 5, true)), BOTH_WAIT)
  {
    var s := Act(FIRST_WAITS, Do(Put(SECOND, 5, true)));
    assert Place(FIRST_WAITS.st.txQueue, 5) == 1;
    assert s.st.ready == BOTH_WAIT.st.ready && s.st.txQueue == BOTH_WAIT.st.txQueue;
  }

  lemma FirstTurn()
    ensures Leads(BOTH_WAIT, Begin(10, 0), MIDWAY)
  {
    var s := Act(BOTH_WAIT, Begin(10, 0));
    assert s.st.ready == MIDWAY.st.ready && s.st.txQueue == MIDWAY.st.txQueue;
  }

  lemma ReachMidway(acts: seq<Action>, end: System, kinds: set<Kind>)
    requires ActsTo(MIDWAY, acts, end) && Interrupted(MIDWAY, acts, kinds)
    ensures ActsTo(Start(THREADS, 0), PreludeThen(acts), end) && Interrupted(Start(THREADS, 0), PreludeThen(acts), kinds)
    ensures AllRight(Start(THREADS, 0), PreludeThen(acts)) ==> AllRight(MIDWAY, acts)
  {
    FirstPut();
    SecondPut();
    FirstTurn();
    ActsThree(Start(THREADS, 0), Do(Put(FIRST, 1, true)), FIRST_WAITS, Do(Put(SECOND, 5, true)), BOTH_WAIT,
              Begin(10, 0), MIDWAY, acts, end, kinds);
  }

  lemma ActsThree(s0: System, a0: Action, s1: System, a1: Action, s2: System, a2: Action, s3: System,
                  acts: seq<Action>, end: System, kinds: set<Kind>)
    requires Leads(s0, a0, s1) && Leads(s1, a1, s2) && Leads(s2, a2, s3)
    requires ActsTo(s3, acts, end) && Interrupted(s3, acts, kinds)
    ensures var all := [a0] + ([a1] + ([a2] + acts));
            ActsTo(s0, all, end) && Interrupted(s0, all, kinds) && (AllRight(s0, all) ==> AllRight(s3, acts))
  {
    ActsFirst(s2, a2, s3, acts, end, kinds);
    ActsFirst(s1, a1, s2, [a2] + acts, end, kinds);
    ActsFirst(s0, a0, s1, [a1] + ([a2] + acts), end, kinds);
  }

  function PreludeThen(acts: seq<Action>): seq<Action> {
    [Do(Put(FIRST, 1, true))] + ([Do(Put(SECOND, 5, true))] + ([Begin(10, 0)] + acts))
  }

  lemma ActsFirst(sys: System, act: Action, next: System, acts: seq<Action>, end: System, kinds: set<Kind>)
    requires Possible(sys, act) && Act(sys, act) == next && ActsTo(next, acts, end) && Interrupted(next, acts, kinds)
    requires Interrupts(sys, act) ==> KindOf(act) in kinds
    ensures ActsTo(sys, [act] + acts, end) && Interrupted(sys, [act] + acts, kinds)
    ensures AllRight(sys, [act] + acts) ==> AllRight(next, acts)
  {
    assert ([act] + acts)[1..] == acts;
  }

  /** Any action that takes the second message out of the queue makes the next turn a wrong one. */
  lemma Missed(act: Action, kinds: set<Kind>)
    requires Possible(MIDWAY, act) && KindOf(act) in kinds
    requires Act(MIDWAY, act).calls == MIDWAY.calls && Act(MIDWAY, act).st.txQueue == []
    ensures !Reliable(kinds)
  {
    var next, turn := Act(MIDWAY, act), Turn(10, None);
    var end := WrongTurn(next);
    ActsTwo(MIDWAY, act, next, turn, end, kinds);
    ReachMidway([act] + ([turn] + []), end, kinds);
    assert OnlyThreads(THREADS);
  }

  lemma WrongTurn(sys: System) returns (end: System)
    requires sys.calls == MIDWAY.calls && sys.st.txQueue == []
    ensures Leads(sys, Turn(10, None), end) && !RightTurn(sys, Turn(10, None))
    ensures end == System(StaleTurn(sys.st, Waiting(5, SECOND), 0), map[])
  {
    end := Act(sys, Turn(10, None));
    assert MIDWAY.calls - {10} == map[];
  }

  lemma ActsTwo(s0: System, a0: Action, s1: System, a1: Action, s2: System, kinds: set<Kind>)
    requires Possible(s0, a0) && Act(s0, a0) == s1 && KindOf(a0) in kinds && Leads(s1, a1, s2)
    ensures var all := [a0] + ([a1] + []);
            ActsTo(s0, all, s2) && Interrupted(s0, all, kinds) && (AllRight(s0, all) ==> RightTurn(s1, a1))
  {
    ActsFirst(s1, a1, s2, [], s2, kinds);
    ActsFirst(s0, a0, s1, [a1] + [], s2, kinds);
    assert ([a1] + [])[0] == a1;
  }

  /** Thread 1, released by the first turn, receives the second message without giving a buffer. */
  const ASKED: Rx := Rx(7, 1, None, 0, 1, None, None, None)

  lemma GetsMiss()
    ensures !Reliable({Gets})
  {
    Missed(Do(Get(ASKED, 1, false)), {Gets});
  }

  /** The second sender's timeout expires. */
  lemma TimeoutsMiss()
    ensures !Reliable({TxTimeouts})
  {
    Missed(Do(TxExpires(0)), {TxTimeouts});
  }

  /** Thread 1 clears the mailbox, too. */
  lemma ClearsMiss()
    ensures !Reliable({Clears})
  {
    Missed(Begin(1, 3), {Clears});
  }

  lemma MoreKinds(kinds: set<Kind>, more: set<Kind>)
    requires kinds <= more && Reliable(more)
    ensures Reliable(kinds)
  {
    forall threads: set<Party>, n: nat, acts, end |
      OnlyThreads(threads) && ActsTo(Start(threads, n), acts, end) && Interrupted(Start(threads, n), acts, kinds)
      ensures AllRight(Start(threads, n), acts)
    {
      InterruptedMore(Start(threads, n), acts, kinds, more);
    }
  }

  lemma {:induction false} InterruptedMore(sys: System, acts: seq<Action>, kinds: set<Kind>, more: set<Kind>)
    requires kinds <= more && Interrupted(sys, acts, kinds)
    ensures Interrupted(sys, acts, more)
    decreases |acts|
  {
    if acts != [] && Possible(sys, acts[0]) {
      InterruptedMore(Act(sys, acts[0]), acts[1..], kinds, more);
    }
  }

  /**
    Every turn of every call clears a message that waits, in all runs in which calls are interrupted only by actions of
    the given kinds, exactly if messages are not received, timed out or cleared by others meanwhile.
   */
  lemma ReliableIff(kinds: set<Kind>)
    ensures Reliable(kinds) <==> Harmless(kinds)
  {
    if Harmless(kinds) {
      forall threads: set<Party>, n: nat, acts, end |
        OnlyThreads(threads) && ActsTo(Start(threads, n), acts, end) && Interrupted(Start(threads, n), acts, kinds)
        ensures AllRight(Start(threads, n), acts)
      {
        HarmlessAllRight(Start(threads, n), acts, end, kinds);
      }
    } else if Reliable(kinds) {
      if Gets in kinds {
        MoreKinds({Gets}, kinds);
        GetsMiss();
      } else if TxTimeouts in kinds {
        MoreKinds({TxTimeouts}, kinds);
        TimeoutsMiss();
      } else {
        MoreKinds({Clears}, kinds);
        ClearsMiss();
      }
    }
  }

  /** In all runs with harmless interruptions, and so with none, all invariants hold. */
  lemma HarmlessKeepsInv(threads: set<Party>, n: nat, acts: seq<Action>, end: System, kinds: set<Kind>)
    requires OnlyThreads(threads) && ActsTo(Start(threads, n), acts, end) && Interrupted(Start(threads, n), acts, kinds)
    requires Harmless(kinds)
    ensures AllRight(Start(threads, n), acts) && Inv(end.st)
  {
    HarmlessAllRight(Start(threads, n), acts, end, kinds);
    RightRunKeepsInv(threads, n, acts, end);
  }

  // ---------- callers that are not preemptible ----------

  /** `_reschedule_threads` switches to another thread only if the caller is preemptible. */
  ghost predicate Scheduled(sys: System, acts: seq<Action>, preemptible: set<nat>)
    decreases |acts|
  {
    acts != [] ==>
      && (forall c :: c in sys.calls && c !in preemptible ==> acts[0].Turn? && acts[0].caller == c)
      && (Possible(sys, acts[0]) ==> Scheduled(Act(sys, acts[0]), acts[1..], preemptible))
  }

  lemma {:induction false} CooperativeUninterrupted(sys: System, acts: seq<Action>, preemptible: set<nat>)
    requires Scheduled(sys, acts, preemptible) && sys.calls.Keys !! preemptible
    requires forall i :: 0 <= i < |acts| && acts[i].Begin? ==> acts[i].caller !in preemptible
    ensures Interrupted(sys, acts, {})
    decreases |acts|
  {
    if acts != [] && Possible(sys, acts[0]) {
      CooperativeUninterrupted(Act(sys, acts[0]), acts[1..], preemptible);
    }
  }

  /** If only threads that are not preemptible clear the mailbox, every turn is right and all invariants hold. */
  lemma CooperativeKeepsInv(threads: set<Party>, n: nat, acts: seq<Action>, end: System, preemptible: set<nat>)
    requires OnlyThreads(threads) && ActsTo(Start(threads, n), acts, end) && Scheduled(Start(threads, n), acts, preemptible)
    requires forall i :: 0 <= i < |acts| && acts[i].Begin? ==> acts[i].caller !in preemptible
    ensures AllRight(Start(threads, n), acts) && Inv(end.st)
  {
    CooperativeUninterrupted(Start(threads, n), acts, preemptible);
    HarmlessKeepsInv(threads, n, acts, end, {});
  }

  const RECEIVED: System := MIDWAY.(st := MIDWAY.st.(txQueue := [], received := [Exchange(SECOND, ASKED)]))

  lemma SecondReceived()
    ensures Possible(MIDWAY, Do(Get(ASKED, 1, false))) && Act(MIDWAY, Do(Get(ASKED, 1, false))) == RECEIVED
  {
    assert Act(MIDWAY, Do(Get(ASKED, 1, false))).st.txQueue == [];
  }

  /** After the wrong turn the second sender runs although its message was received and not disposed of. */
  lemma ReleasedEarly() returns (end: System)
    ensures ActsTo(Start(THREADS, 0), PreludeThen([Do(Get(ASKED, 1, false))] + ([Turn(10, None)] + [])), end)
    ensures Thread(5) in end.st.ready && WaitsForDisposal(end.st, 5) && !Placed(end.st)
  {
    SecondReceived();
    end := WrongTurn(RECEIVED);
    ActsTwo(MIDWAY, Do(Get(ASKED, 1, false)), RECEIVED, Turn(10, None), end, {Gets});
    ReachMidway([Do(Get(ASKED, 1, false))] + ([Turn(10, None)] + []), end, {Gets});
    HeldAndReady(end.st);
  }

  lemma HeldAndReady(st: State)
    requires st.received == RECEIVED.st.received && Thread(5) in st.ready
    ensures WaitsForDisposal(st, 5) && !Placed(st)
  {
    assert st.received[0] in st.received;
    if Placed(st) {
      OnlyForDisposal(st, 5);
    }
  }

  // ---------- the same with a descriptor ----------

  /** Thread 5 sends asynchronously, with the only descriptor. */
  const ASYNC: Tx := Tx(1, Descriptor(0), 5, None, 0, 1, Some([8]), None, None)

  function AsyncPrelude(acts: seq<Action>): seq<Action> {
    [Do(Put(FIRST, 1, true))] + ([Do(Alloc(5))] + ([Do(AsyncPut(ASYNC, 5))] + ([Begin(10, 0)] + acts)))
  }

  /** Thread 1 receives that message and disposes of it while thread 10 is interrupted. */
  function AsyncRest(): seq<Action> {
    [Do(Get(ASKED, 1, false))] + ([Do(Consume(0, true))] + ([Turn(10, None)] + []))
  }

  const ASYNC_MIDWAY: System :=
    System(State([Waiting(5, ASYNC)], [], [], {Thread(1), Thread(5), Thread(10)}, [], map[], [FIRST, ASYNC], [], [CLEARED], []),
           map[10 := Clearing(0, Waiting(5, ASYNC))])

  const DESCRIPTOR_FREE: System := FIRST_WAITS.(st := FIRST_WAITS.st.(free := [Descriptor(0)]))

  const DESCRIPTOR_TAKEN: System := FIRST_WAITS.(st := FIRST_WAITS.st.(sending := map[Descriptor(0) := 5]))

  const ASYNC_WAITS: System :=
    System(State([Waiting(1, FIRST), Waiting(5, ASYNC)], [], [], {Thread(5), Thread(10)}, [], map[], [FIRST, ASYNC], [], [], []), map[])

  lemma AsyncFirstPut()
    ensures Leads(Start(THREADS, 1), Do(Put(FIRST, 1, true)), DESCRIPTOR_FREE)
  {
    var s := Act(Start(THREADS, 1), Do(Put(FIRST, 1, true)));
    assert s.st.free == [Descriptor(0)];
    assert s.st.ready == DESCRIPTOR_FREE.st.ready && s.st.txQueue == DESCRIPTOR_FREE.st.txQueue;
  }

  lemma AsyncTaken()
    ensures Leads(DESCRIPTOR_FREE, Do(Alloc(5)), DESCRIPTOR_TAKEN)
  {
    assert Act(DESCRIPTOR_FREE, Do(Alloc(5))).st.free == [];
  }

  lemma AsyncSent()
    ensures Leads(DESCRIPTOR_TAKEN, Do(AsyncPut(ASYNC, 5)), ASYNC_WAITS)
  {
    var s := Act(DESCRIPTOR_TAKEN, Do(AsyncPut(ASYNC, 5)));
    assert Place(DESCRIPTOR_TAKEN.st.txQueue, 5) == 1;
    assert s.st.ready == ASYNC_WAITS.st.ready && s.st.txQueue == ASYNC_WAITS.st.txQueue && s.st.sending == map[];
  }

  lemma AsyncFirstTurn()
    ensures Leads(ASYNC_WAITS, Begin(10, 0), ASYNC_MIDWAY)
  {
    var s := Act(ASYNC_WAITS, Begin(10, 0));
    assert s.st.ready == ASYNC_MIDWAY.st.ready && s.st.txQueue == ASYNC_MIDWAY.st.txQueue;
  }

  lemma AsyncReach(acts: seq<Action>, end: System, kinds: set<Kind>)
    requires ActsTo(ASYNC_MIDWAY, acts, end) && Interrupted(ASYNC_MIDWAY, acts, kinds)
    ensures ActsTo(Start(THREADS, 1), AsyncPrelude(acts), end)
  {
    AsyncFirstPut();
    AsyncTaken();
    AsyncSent();
    AsyncFirstTurn();
    ActsThree(DESCRIPTOR_FREE, Do(Alloc(5)), DESCRIPTOR_TAKEN, Do(AsyncPut(ASYNC, 5)), ASYNC_WAITS, Begin(10, 0), ASYNC_MIDWAY,
              acts, end, kinds);
    ActsFirst(Start(THREADS, 1), Do(Put(FIRST, 1, true)), DESCRIPTOR_FREE,
              [Do(Alloc(5))] + ([Do(AsyncPut(ASYNC, 5))] + ([Begin(10, 0)] + acts)), end, kinds);
  }

  const ASYNC_RECEIVED: System := ASYNC_MIDWAY.(st := ASYNC_MIDWAY.st.(txQueue := [], received := [Exchange(ASYNC, ASKED)]))

  lemma AsyncReceived()
    ensures Possible(ASYNC_MIDWAY, Do(Get(ASKED, 1, false)))
    ensures Act(ASYNC_MIDWAY, Do(Get(ASKED, 1, false))) == ASYNC_RECEIVED
  {
    assert Act(ASYNC_MIDWAY, Do(Get(ASKED, 1, false))).st.txQueue == [];
  }

  lemma AsyncDisposed() returns (next: System)
    ensures Possible(ASYNC_RECEIVED, Do(Consume(0, true))) && next == Act(ASYNC_RECEIVED, Do(Consume(0, true)))
    ensures next.st.free == [Descriptor(0)] && next.st.txQueue == [] && next.calls == ASYNC_MIDWAY.calls
  {
    next := Act(ASYNC_RECEIVED, Do(Consume(0, true)));
  }

  lemma AsyncEnd() returns (end: System)
    ensures ActsTo(ASYNC_MIDWAY, AsyncRest(), end) && Interrupted(ASYNC_MIDWAY, AsyncRest(), {Gets, Consumes})
    ensures end.st.free == [Descriptor(0), Descriptor(0)]
  {
    var kinds, turn := {Gets, Consumes}, Turn(10, None);
    AsyncReceived();
    var next := AsyncDisposed();
    end := Act(next, turn);
    ActsTwo(ASYNC_RECEIVED, Do(Consume(0, true)), next, turn, end, kinds);
    ActsFirst(ASYNC_MIDWAY, Do(Get(ASKED, 1, false)), ASYNC_RECEIVED, [Do(Consume(0, true))] + ([turn] + []), end, kinds);
  }

  /** Then the descriptor is on the stack of free descriptors twice. */
  lemma FreedTwice() returns (end: System)
    ensures ActsTo(Start(THREADS, 1), AsyncPrelude(AsyncRest()), end) && Occurs(end.st.free, Descriptor(0)) == 2
  {
    end := AsyncEnd();
    AsyncReach(AsyncRest(), end, {Gets, Consumes});
  }

  // ---------- what an interrupted call clears ----------

  /** None of these messages waits before entry `w`. */
  predicate NoneBefore(q: Queue<Tx>, w: Waiting<Tx>, left: set<nat>) {
    w in q && forall i :: 0 <= i < IndexOf(q, w) ==> q[i].item.no !in left
  }

  predicate NoneWaits(q: Queue<Tx>, left: set<nat>) {
    forall i :: 0 <= i < |q| ==> q[i].item.no !in left
  }

  /** The call of thread `c` has passed none of these messages, or they are all gone. */
  predicate Sweeping(sys: System, c: nat, left: set<nat>) {
    || (c in sys.calls && NoneBefore(sys.st.txQueue, sys.calls[c].next, left))
    || NoneWaits(sys.st.txQueue, left)
  }

  lemma {:induction false} IndexAtMost(q: Queue<Tx>, w: Waiting<Tx>, p: nat)
    requires p < |q| && q[p] == w
    ensures IndexOf(q, w) <= p
  {
    if p > 0 && q[0] != w {
      IndexAtMost(q[1..], w, p - 1);
    }
  }

  lemma InsertBefore(q: Queue<Tx>, x: Waiting<Tx>, w: Waiting<Tx>, left: set<nat>)
    requires NoneBefore(q, w, left) && x.item.no !in left
    ensures NoneBefore(Insert(q, x), w, left)
  {
    var k, n, r := IndexOf(q, w), Place(q, x.prio), Insert(q, x);
    var p := if n <= k then k + 1 else k;
    assert r[p] == w;
    IndexAtMost(r, w, p);
    forall i | 0 <= i < p ensures r[i].item.no !in left {
      assert r[i] == if i < n then q[i] else if i == n then x else q[i - 1];
    }
  }

  lemma InsertNone(q: Queue<Tx>, x: Waiting<Tx>, left: set<nat>)
    requires NoneWaits(q, left) && x.item.no !in left
    ensures NoneWaits(Insert(q, x), left)
  {
    forall i | 0 <= i < |Insert(q, x)| ensures Insert(q, x)[i].item.no !in left {
      InsertMember(q, x, Insert(q, x)[i]);
    }
  }

  /** Numbers of messages that exist. */
  predicate Old(st: State, left: set<nat>) {
    forall no :: no in left ==> no < |st.posted|
  }

  lemma StepSweeps(sys: System, step: Step, c: nat, left: set<nat>)
    requires Possible(sys, Do(step)) && Sweeping(sys, c, left) && Old(sys.st, left)
    requires c in sys.calls ==> !step.Get? && !step.TxExpires?
    ensures Sweeping(Act(sys, Do(step)), c, left) && Old(Next(sys.st, step), left)
  {
    var q := sys.st.txQueue;
    match step
    case Put(tx, prio, _) =>
      if NoneWaits(q, left) { InsertNone(q, Waiting(prio, tx), left); } else { InsertBefore(q, Waiting(prio, tx), sys.calls[c].next, left); }
    case AsyncPut(tx, prio) =>
      if NoneWaits(q, left) { InsertNone(q, Waiting(prio, tx), left); } else { InsertBefore(q, Waiting(prio, tx), sys.calls[c].next, left); }
    case _ =>
  }

  lemma RemoveNone(q: Queue<Tx>, n: nat, left: set<nat>)
    requires n < |q| && NoneWaits(q, left)
    ensures NoneWaits(Without(q, n), left)
  {
    forall i | 0 <= i < |q| - 1 ensures Without(q, n)[i].item.no !in left {
      assert Without(q, n)[i] == q[if i < n then i else i + 1];
    }
  }

  /** The turn of the call itself, on the entry that it remembers. */
  lemma TurnSweeps(sys: System, c: nat, handle: nat, n: nat, left: set<nat>)
    requires n < |sys.st.txQueue| && forall i :: 0 <= i < n ==> sys.st.txQueue[i].item.no !in left
    ensures Sweeping(ClearAndSave(sys, c, handle, n), c, left)
  {
    var q, r := sys.st.txQueue, Without(sys.st.txQueue, n);
    assert forall i :: 0 <= i < n ==> r[i] == q[i];
    if n + 1 < |q| {
      assert r[n] == q[n + 1];
      IndexAtMost(r, q[n + 1], n);
    }
  }

  lemma ActSweeps(sys: System, act: Action, kinds: set<Kind>, c: nat, left: set<nat>)
    requires Possible(sys, act) && AllWait(sys) && Harmless(kinds) && (Interrupts(sys, act) ==> KindOf(act) in kinds)
    requires Sweeping(sys, c, left) && Old(sys.st, left)
    ensures Sweeping(Act(sys, act), c, left) && Old(Act(sys, act).st, left)
  {
    match act
    case Do(step) =>
      assert c in sys.calls ==> Interrupts(sys, act);
      StepSweeps(sys, step, c, left);
    case Begin(caller, handle) =>
      assert !Interrupts(sys, act);
      if sys.st.txQueue != [] {
        RemoveNone(sys.st.txQueue, 0, left);
      }
    case Turn(caller, _) =>
      assert !Interrupts(sys, act);
      var n := IndexOf(sys.st.txQueue, sys.calls[caller].next);
      if NoneWaits(sys.st.txQueue, left) {
        RemoveNone(sys.st.txQueue, n, left);
      } else {
        TurnSweeps(sys, c, sys.calls[c].handle, n, left);
      }
  }

  lemma {:induction false} RunSweeps(sys: System, acts: seq<Action>, end: System, kinds: set<Kind>, c: nat, left: set<nat>)
    requires AllWait(sys) && Harmless(kinds) && ActsTo(sys, acts, end) && Interrupted(sys, acts, kinds)
    requires Sweeping(sys, c, left) && Old(sys.st, left)
    ensures Sweeping(end, c, left)
    decreases |acts|
  {
    if acts != [] {
      ActSweeps(sys, acts[0], kinds, c, left);
      ActKeepsWaiting(sys, acts[0], kinds);
      RunSweeps(Act(sys, acts[0]), acts[1..], end, kinds, c, left);
    }
  }

  function Numbers(q: Queue<Tx>): set<nat> {
    set i | 0 <= i < |q| :: q[i].item.no
  }

  /**
    With harmless interruptions, however long: when a call has ended, none of the messages that waited when it began
    still waits.
   */
  lemma CallSweeps(sys: System, caller: nat, handle: nat, acts: seq<Action>, end: System, kinds: set<Kind>)
    requires Inv(sys.st) && sys.calls == map[] && Harmless(kinds)
    requires ActsTo(sys, [Begin(caller, handle)] + acts, end) && Interrupted(sys, [Begin(caller, handle)] + acts, kinds)
    requires caller !in end.calls
    ensures forall i, j :: 0 <= i < |sys.st.txQueue| && 0 <= j < |end.st.txQueue| ==>
              end.st.txQueue[j].item.no != sys.st.txQueue[i].item.no
  {
    var q, left := sys.st.txQueue, Numbers(sys.st.txQueue);
    var next := Act(sys, Begin(caller, handle));
    assert ([Begin(caller, handle)] + acts)[0] == Begin(caller, handle) && ([Begin(caller, handle)] + acts)[1..] == acts;
    assert Old(sys.st, left) by {
      assert forall i :: 0 <= i < |q| ==> q[i] in q;
    }
    if q != [] {
      TurnKeepsWaiting(sys, caller, handle, 0);
      TurnSweeps(sys, caller, handle, 0, left);
    }
    RunSweeps(next, acts, end, kinds, caller, left);
  }

  /** A message that comes in before the remembered sender is not cleared. */
  lemma LateMessageStays(late: Tx, end: System)
    requires late == Tx(2, Thread(1), 1, Some(99), 0, 1, Some([9]), None, None)
    requires end == Act(Act(MIDWAY, Do(Put(late, 1, true))), Turn(10, None))
    ensures ActsTo(Start(THREADS, 0), PreludeThen([Do(Put(late, 1, true))] + ([Turn(10, None)] + [])), end)
    ensures end.calls == map[] && end.st.txQueue == [Waiting(1, late)]
  {
    var put := Do(Put(late, 1, true));
    var next := Act(MIDWAY, put);
    assert next.st.txQueue == [Waiting(1, late), Waiting(5, SECOND)];
    assert IndexOf(next.st.txQueue, Waiting(5, SECOND)) == 1 by {
      assert next.st.txQueue[1..] == [Waiting(5, SECOND)];
    }
    assert next.calls[10] == Clearing(0, Waiting(5, SECOND));
    ActsTwo(MIDWAY, put, next, Turn(10, None), end, {Puts});
    ReachMidway([put] + ([Turn(10, None)] + []), end, {Puts});
  }
}
