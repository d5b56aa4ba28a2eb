/**
  The pipe as a state machine over puts, gets and timeouts, with the ledger of every call,
  and what holds in every state that a run can reach.
 */
module PipeProtocol {
  import opened Arithmetic
  import opened PipeStream
  import WaitQueue

  /** `min_xfer` and whether the caller may wait (`timeout != K_NO_WAIT`). */
  datatype PutCall = PutCall(id: nat, prio: int, data: seq<Byte>, minXfer: nat, wait: bool)
  datatype GetCall = GetCall(id: nat, prio: int, want: nat, minXfer: nat, wait: bool)

  /**
    The pipe itself, then its history: bytes in acceptance and in delivery order, what each
    put call offered and what of it was left when the call ended early, and the same for gets.
   */
  datatype State = State(size: nat, ring: seq<Byte>, readers: seq<Reader>, writers: seq<Writer>,
                         accepted: seq<Tagged>, delivered: seq<Tagged>,
                         puts: map<nat, seq<Byte>>, lost: map<nat, seq<Byte>>,
                         gets: map<nat, nat>, unmet: map<nat, nat>)

  function Empty(size: nat): State {
    State(size, [], [], [], [], [], map[], map[], map[], map[])
  }

  // ---------- puts ----------

  /** A put that must not wait is refused when readers and ring together take less than its minimum. */
  predicate PutRefused(s: State, c: PutCall) {
    !c.wait && Demand(s.readers) + (s.size - |s.ring|) < c.minXfer
  }

  /** The bytes that go straight to waiting readers. */
  function Direct(s: State, c: PutCall): (m: nat)
    ensures m <= |c.data| && m <= Demand(s.readers)
  {
    Min(|c.data|, Demand(s.readers))
  }

  /** The bytes that a put hands over before it returns or pends. */
  function PutCount(s: State, c: PutCall): (n: nat)
    requires |s.ring| <= s.size
    ensures Direct(s, c) <= n <= |c.data|
  {
    Direct(s, c) + Min(|c.data| - Direct(s, c), s.size - |s.ring|)
  }

  function PutStep(s: State, c: PutCall): State
    requires |s.ring| <= s.size
  {
    if PutRefused(s, c) then s.(puts := s.puts[c.id := c.data], lost := s.lost[c.id := c.data])
    else
      var m, n := Direct(s, c), PutCount(s, c);
      var left := c.data[n..];
      s.(ring := s.ring + c.data[m..n],
         readers := Serve(s.readers, m),
         writers := Pended(s.writers, c, left),
         accepted := s.accepted + Tag(c.id, c.data[..n]),
         delivered := s.delivered + ServeLog(s.readers, c.data[..m]),
         puts := s.puts[c.id := c.data],
         lost := GivenBack(s.lost, c, left))
  }

  /** What is left of the data waits with the caller, if the caller may wait ... */
  function Pended(q: seq<Writer>, c: PutCall, left: seq<Byte>): seq<Writer> {
    if left != [] && c.wait then Insert(q, Waiter(c.id, c.prio, left)) else q
  }

  /** ... and is given back otherwise. */
  function GivenBack(lost: map<nat, seq<Byte>>, c: PutCall, left: seq<Byte>): map<nat, seq<Byte>> {
    if left != [] && !c.wait then lost[c.id := left] else lost
  }

  lemma PendedFacts(q: seq<Writer>, c: PutCall, left: seq<Byte>, id: nat)
    requires !Waits(q, c.id)
    ensures Left(Pended(q, c, left), id) == if id == c.id then (if c.wait then left else []) else Left(q, id)
    ensures Waits(Pended(q, c, left), id) <==> Waits(q, id) || (id == c.id && c.wait && left != [])
    ensures DistinctIds(q) ==> DistinctIds(Pended(q, c, left))
    ensures Busy(q) ==> Busy(Pended(q, c, left))
  {
    NotWaiting(q, 0, c.id);
    if left != [] {
      InsertKeeps(q, Waiter(c.id, c.prio, left), id);
      InsertLeft(q, Waiter(c.id, c.prio, left), id);
    }
  }

  // ---------- gets ----------

  /** The bytes a reader could have: the ring, then what the waiting writers offer. */
  function Available(s: State): seq<Byte> {
    s.ring + Supply(s.writers)
  }

  predicate GetRefused(s: State, c: GetCall) {
    !c.wait && |Available(s)| < c.minXfer
  }

  function GetCount(s: State, c: GetCall): (n: nat)
    ensures n <= c.want && n <= |Available(s)|
  {
    Min(c.want, |Available(s)|)
  }

  /** The ring after `n` bytes are gone and the writers have filled it up again. */
  function Refilled(s: State, n: nat): (r: seq<Byte>)
    requires n <= |Available(s)|
    ensures |r| == Min(s.size, |Available(s)| - n)
  {
    Available(s)[n..][..Min(s.size, |Available(s)| - n)]
  }

  /** The bytes that a get takes from the waiting writers, for itself or for the ring. */
  function Taken(s: State, n: nat): nat
    requires n <= |Available(s)| && |s.ring| <= s.size
  {
    |Refilled(s, n)| + n - |s.ring|
  }

  function GetStep(s: State, c: GetCall): State
    requires |s.ring| <= s.size
  {
    if GetRefused(s, c) then s.(gets := s.gets[c.id := c.want], unmet := s.unmet[c.id := c.want])
    else
      var n := GetCount(s, c);
      var t := Taken(s, n);
      s.(ring := Refilled(s, n),
         writers := Drop(s.writers, t),
         readers := Queued(s.readers, c, c.want - n),
         accepted := s.accepted + DropLog(s.writers, t),
         delivered := s.delivered + Tag(c.id, Available(s)[..n]),
         gets := s.gets[c.id := c.want],
         unmet := if n < c.want && !c.wait then s.unmet[c.id := c.want - n] else s.unmet)
  }

  /** A reader whose request is not met in full waits, if it may. */
  function Queued(q: seq<Reader>, c: GetCall, more: nat): seq<Reader> {
    if more > 0 && c.wait then Insert(q, Waiter(c.id, c.prio, more)) else q
  }

  lemma QueuedFacts(q: seq<Reader>, c: GetCall, more: nat, id: nat)
    requires !Waits(q, c.id)
    ensures Wanted(Queued(q, c, more), id) == if id == c.id then (if c.wait then more else 0) else Wanted(q, id)
    ensures Waits(Queued(q, c, more), id) <==> Waits(q, id) || (id == c.id && c.wait && more > 0)
    ensures DistinctIds(q) ==> DistinctIds(Queued(q, c, more))
    ensures Hungry(q) ==> Hungry(Queued(q, c, more))
  {
    NotServed(q, [], c.id);
    if more > 0 {
      InsertKeeps(q, Waiter(c.id, c.prio, more), id);
      InsertWanted(q, Waiter(c.id, c.prio, more), id);
    }
  }

  // ---------- timeouts ----------

  function Remove<D>(q: seq<Waiter<D>>, id: nat): seq<Waiter<D>> {
    if q == [] then [] else if q[0].id == id then q[1..] else [q[0]] + Remove(q[1..], id)
  }

  function WriterTimeout(s: State, id: nat): State {
    if !Waits(s.writers, id) then s
    else s.(writers := Remove(s.writers, id), lost := s.lost[id := Left(s.writers, id)])
  }

  function ReaderTimeout(s: State, id: nat): State {
    if !Waits(s.readers, id) then s
    else s.(readers := Remove(s.readers, id), unmet := s.unmet[id := Wanted(s.readers, id)])
  }

  // ---------- the invariant ----------

  /** Readers wait only at an empty ring, writers only at a full one, never both, and all of them for something. */
  ghost predicate WaitInv(s: State) {
    && |s.ring| <= s.size
    && Hungry(s.readers) && Busy(s.writers) && DistinctIds(s.readers) && DistinctIds(s.writers)
    && (s.readers != [] ==> s.ring == [] && s.writers == [])
    && (s.writers != [] ==> |s.ring| == s.size)
  }

  /** Bytes leave the pipe in the order in which they were accepted. */
  ghost predicate FifoInv(s: State) {
    Bytes(s.accepted) == Bytes(s.delivered) + s.ring
  }

  function LostOf(s: State, id: nat): seq<Byte> {
    if id in s.lost then s.lost[id] else []
  }

  function UnmetOf(s: State, id: nat): nat {
    if id in s.unmet then s.unmet[id] else 0
  }

  /** Of each put: the bytes accepted, still waiting and given back are its data, in order. */
  ghost predicate PutBalance(s: State, id: nat) {
    if id in s.puts then Of(s.accepted, id) + Left(s.writers, id) + LostOf(s, id) == s.puts[id]
    else Of(s.accepted, id) == [] && !Waits(s.writers, id) && id !in s.lost
  }

  /** Of each get: the bytes delivered, still wanted and given up add up to its request. */
  ghost predicate GetBalance(s: State, id: nat) {
    if id in s.gets then |Of(s.delivered, id)| + Wanted(s.readers, id) + UnmetOf(s, id) == s.gets[id]
    else Of(s.delivered, id) == [] && !Waits(s.readers, id) && id !in s.unmet
  }

  /** Only calls that no longer wait have given something back. */
  ghost predicate EndedInv(s: State) {
    && (forall id :: id in s.lost ==> !Waits(s.writers, id))
    && (forall id :: id in s.unmet ==> !Waits(s.readers, id))
  }

  ghost predicate Inv(s: State) {
    && WaitInv(s) && FifoInv(s) && EndedInv(s)
    && (forall id: nat :: PutBalance(s, id)) && (forall id: nat :: GetBalance(s, id))
  }

  // ---------- puts keep it ----------

  lemma PutWaits(s: State, c: PutCall)
    requires WaitInv(s) && !Waits(s.writers, c.id)
    ensures WaitInv(PutStep(s, c))
  {
    if !PutRefused(s, c) {
      var m, n := Direct(s, c), PutCount(s, c);
      var left := c.data[n..];
      ServeKeeps(s.readers, m, 0);
      ServeDemand(s.readers, c.data[..m]);
      if Serve(s.readers, m) != [] {
        HungryDemand(Serve(s.readers, m));
      }
      PendedFacts(s.writers, c, left, 0);
    }
  }

  lemma HungryDemand(q: seq<Reader>)
    requires Hungry(q) && q != []
    ensures Demand(q) > 0
  {
  }

  lemma FifoStep(a: seq<Byte>, d: seq<Byte>, ring: seq<Byte>, direct: seq<Byte>, stored: seq<Byte>)
    requires a == d + ring && (ring == [] || direct == [])
    ensures a + (direct + stored) == (d + direct) + (ring + stored)
  {
  }

  lemma PutFifo(s: State, c: PutCall)
    requires WaitInv(s) && FifoInv(s)
    ensures FifoInv(PutStep(s, c))
  {
    if !PutRefused(s, c) {
      var m, n := Direct(s, c), PutCount(s, c);
      var direct, stored := c.data[..m], c.data[m..n];
      BytesConcat(s.accepted, Tag(c.id, c.data[..n]));
      BytesTag(c.id, c.data[..n]);
      BytesConcat(s.delivered, ServeLog(s.readers, direct));
      ServeDemand(s.readers, direct);
      assert c.data[..n] == direct + stored;
      FifoStep(Bytes(s.accepted), Bytes(s.delivered), s.ring, direct, stored);
    }
  }

  /** The caller's own balance. */
  lemma PutOwnBalance(s: State, c: PutCall)
    requires WaitInv(s) && c.id !in s.puts && PutBalance(s, c.id) && !PutRefused(s, c)
    ensures PutBalance(PutStep(s, c), c.id)
  {
    var t, n := PutStep(s, c), PutCount(s, c);
    var now, left := c.data[..n], c.data[n..];
    assert Of(t.accepted, c.id) == now by {
      OfConcat(s.accepted, Tag(c.id, now), c.id);
      OfTag(c.id, now, c.id);
    }
    assert Left(t.writers, c.id) == if c.wait then left else [] by {
      PendedFacts(s.writers, c, left, c.id);
    }
    assert LostOf(t, c.id) == if c.wait then [] else left;
    assert Of(t.accepted, c.id) + Left(t.writers, c.id) + LostOf(t, c.id) == now + left by {
      Pad(now, left);
    }
    assert c.data == now + left;
  }

  lemma Pad(a: seq<Byte>, b: seq<Byte>)
    ensures a + b + [] == a + b && a + [] + b == a + b
  {
  }

  lemma PutPutBalance(s: State, c: PutCall, id: nat)
    requires WaitInv(s) && c.id !in s.puts && PutBalance(s, c.id) && PutBalance(s, id)
    ensures PutBalance(PutStep(s, c), id)
  {
    if PutRefused(s, c) {
      NotWaiting(s.writers, 0, c.id);
    } else if id == c.id {
      PutOwnBalance(s, c);
    } else {
      var t, n := PutStep(s, c), PutCount(s, c);
      assert Of(t.accepted, id) == Of(s.accepted, id) by {
        OfConcat(s.accepted, Tag(c.id, c.data[..n]), id);
        OfTag(c.id, c.data[..n], id);
      }
      PendedFacts(s.writers, c, c.data[n..], id);
      assert LostOf(t, id) == LostOf(s, id);
    }
  }

  lemma PutGetBalance(s: State, c: PutCall, id: nat)
    requires WaitInv(s) && GetBalance(s, id)
    ensures GetBalance(PutStep(s, c), id)
  {
    if !PutRefused(s, c) {
      var m := Direct(s, c);
      OfConcat(s.delivered, ServeLog(s.readers, c.data[..m]), id);
      ServePerCall(s.readers, c.data[..m], id);
      if id !in s.gets {
        NotServed(s.readers, c.data[..m], id);
        ServeKeeps(s.readers, m, id);
      }
    }
  }

  /** A put that fits its caller's rules keeps the invariant. */
  lemma PutKeepsInv(s: State, c: PutCall)
    requires Inv(s) && c.id !in s.puts
    ensures Inv(PutStep(s, c))
  {
    assert PutBalance(s, c.id);
    PutWaits(s, c);
    PutFifo(s, c);
    forall id: nat ensures PutBalance(PutStep(s, c), id) && GetBalance(PutStep(s, c), id) {
      assert PutBalance(s, id) && GetBalance(s, id);
      PutPutBalance(s, c, id);
      PutGetBalance(s, c, id);
    }
    PutEnded(s, c);
  }

  lemma PutEnded(s: State, c: PutCall)
    requires WaitInv(s) && EndedInv(s) && c.id !in s.puts && PutBalance(s, c.id)
    ensures EndedInv(PutStep(s, c))
  {
    var t := PutStep(s, c);
    if !PutRefused(s, c) {
      var left := c.data[PutCount(s, c)..];
      forall id | id in t.lost ensures !Waits(t.writers, id) {
        PendedFacts(s.writers, c, left, id);
      }
      forall id | id in t.unmet ensures !Waits(t.readers, id) {
        ServeKeeps(s.readers, Direct(s, c), id);
      }
    }
  }

  // ---------- gets keep it ----------

  lemma GetWaits(s: State, c: GetCall)
    requires WaitInv(s) && !Waits(s.readers, c.id)
    ensures WaitInv(GetStep(s, c))
  {
    if !GetRefused(s, c) {
      var n := GetCount(s, c);
      var t := Taken(s, n);
      TakenInSupply(s, n);
      DropKeeps(s.writers, t, 0);
      DropSupply(s.writers, t);
      assert Drop(s.writers, t) != [] ==> Supply(s.writers)[t..] != [] by {
        if Drop(s.writers, t) != [] {
          BusySupply(Drop(s.writers, t));
        }
      }
      QueuedFacts(s.readers, c, c.want - n, 0);
    }
  }

  lemma BusySupply(q: seq<Writer>)
    requires Busy(q) && q != []
    ensures Supply(q) != []
  {
  }

  lemma TakenInSupply(s: State, n: nat)
    requires WaitInv(s) && n <= |Available(s)|
    ensures Taken(s, n) <= |Supply(s.writers)|
    ensures s.ring + Supply(s.writers)[..Taken(s, n)] == Available(s)[..n] + Refilled(s, n)
  {
    var all, t := Available(s), Taken(s, n);
    assert all[..|s.ring| + t] == s.ring + Supply(s.writers)[..t];
    assert all[..n + |Refilled(s, n)|] == all[..n] + Refilled(s, n);
  }

  lemma GetFifo(s: State, c: GetCall)
    requires WaitInv(s) && FifoInv(s)
    ensures FifoInv(GetStep(s, c))
  {
    if !GetRefused(s, c) {
      var n := GetCount(s, c);
      var t := Taken(s, n);
      TakenInSupply(s, n);
      DropSupply(s.writers, t);
      BytesConcat(s.accepted, DropLog(s.writers, t));
      BytesTag(c.id, Available(s)[..n]);
      BytesConcat(s.delivered, Tag(c.id, Available(s)[..n]));
      Regroup(Bytes(s.accepted), Bytes(s.delivered), s.ring, Supply(s.writers)[..t], Available(s)[..n], Refilled(s, n));
    }
  }

  lemma Regroup(a: seq<Byte>, d: seq<Byte>, ring: seq<Byte>, more: seq<Byte>, out: seq<Byte>, ring': seq<Byte>)
    requires a == d + ring && ring + more == out + ring'
    ensures a + more == (d + out) + ring'
  {
    assert a + more == d + (ring + more);
  }

  lemma GetGetBalance(s: State, c: GetCall, id: nat)
    requires WaitInv(s) && c.id !in s.gets && GetBalance(s, c.id) && GetBalance(s, id)
    ensures GetBalance(GetStep(s, c), id)
  {
    if GetRefused(s, c) {
      if id == c.id {
        NotServed(s.readers, [], id);
      }
    } else {
      var n := GetCount(s, c);
      var out := Available(s)[..n];
      OfConcat(s.delivered, Tag(c.id, out), id);
      OfTag(c.id, out, id);
      QueuedFacts(s.readers, c, c.want - n, id);
    }
  }

  lemma GetPutBalance(s: State, c: GetCall, id: nat)
    requires WaitInv(s) && PutBalance(s, id)
    ensures PutBalance(GetStep(s, c), id)
  {
    if !GetRefused(s, c) {
      var t := Taken(s, GetCount(s, c));
      var log := DropLog(s.writers, t);
      OfConcat(s.accepted, log, id);
      DropPerCall(s.writers, t, id);
      if id !in s.puts {
        NotWaiting(s.writers, t, id);
        DropKeeps(s.writers, t, id);
      } else {
        Split3(Of(s.accepted, id), Of(log, id), Left(Drop(s.writers, t), id), LostOf(s, id));
      }
    }
  }

  lemma Split3(a: seq<Byte>, b: seq<Byte>, c: seq<Byte>, d: seq<Byte>)
    ensures (a + b) + c + d == a + (b + c) + d
  {
  }

  lemma GetEnded(s: State, c: GetCall)
    requires WaitInv(s) && EndedInv(s) && c.id !in s.gets && GetBalance(s, c.id)
    ensures EndedInv(GetStep(s, c))
  {
    var r := GetStep(s, c);
    if !GetRefused(s, c) {
      var n := GetCount(s, c);
      forall id | id in r.lost ensures !Waits(r.writers, id) {
        DropKeeps(s.writers, Taken(s, n), id);
      }
      forall id | id in r.unmet ensures !Waits(r.readers, id) {
        QueuedFacts(s.readers, c, c.want - n, id);
      }
    }
  }

  lemma GetKeepsInv(s: State, c: GetCall)
    requires Inv(s) && c.id !in s.gets
    ensures Inv(GetStep(s, c))
  {
    assert GetBalance(s, c.id);
    GetWaits(s, c);
    GetFifo(s, c);
    forall id: nat ensures PutBalance(GetStep(s, c), id) && GetBalance(GetStep(s, c), id) {
      assert PutBalance(s, id) && GetBalance(s, id);
      GetPutBalance(s, c, id);
      GetGetBalance(s, c, id);
    }
    GetEnded(s, c);
  }

  // ---------- timeouts keep it ----------

  lemma {:induction false} RemoveKeeps<D>(q: seq<Waiter<D>>, id: nat, other: nat)
    requires DistinctIds(q)
    ensures Waits(Remove(q, id), other) <==> Waits(q, other) && other != id
    ensures DistinctIds(Remove(q, id))
    ensures forall i :: 0 <= i < |Remove(q, id)| ==> exists j :: 0 <= j < |q| && Remove(q, id)[i] == q[j]
  {
    if q != [] {
      RemoveKeeps(q[1..], id, other);
      RemoveKeeps(q[1..], id, q[0].id);
      var r := Remove(q, id);
      if q[0].id != id {
        assert r[1..] == Remove(q[1..], id);
      }
      forall i | 0 <= i < |r| ensures exists j :: 0 <= j < |q| && r[i] == q[j] {
        if q[0].id == id {
          assert r[i] == q[i + 1];
        } else if i > 0 {
          var j :| 0 <= j < |q[1..]| && r[1..][i - 1] == q[1..][j];
          assert r[i] == q[j + 1];
        } else {
          assert r[0] == q[0];
        }
      }
    }
  }

  lemma {:induction false} RemoveLeft(q: seq<Writer>, id: nat, other: nat)
    requires DistinctIds(q)
    ensures Left(Remove(q, id), other) == if other == id then [] else Left(q, other)
  {
    if q != [] {
      RemoveLeft(q[1..], id, other);
      if q[0].id == id {
        NotWaiting(q[1..], 0, id);
      } else {
        assert Remove(q, id)[1..] == Remove(q[1..], id);
      }
    }
  }

  lemma {:induction false} RemoveWanted(q: seq<Reader>, id: nat, other: nat)
    requires DistinctIds(q)
    ensures Wanted(Remove(q, id), other) == if other == id then 0 else Wanted(q, other)
  {
    if q != [] {
      RemoveWanted(q[1..], id, other);
      if q[0].id == id {
        NotServed(q[1..], [], id);
      } else {
        assert Remove(q, id)[1..] == Remove(q[1..], id);
      }
    }
  }

  lemma WriterTimeoutKeepsInv(s: State, id: nat)
    requires Inv(s)
    ensures Inv(WriterTimeout(s, id))
  {
    var t := WriterTimeout(s, id);
    if Waits(s.writers, id) {
      RemoveKeeps(s.writers, id, id);
      forall x: nat ensures PutBalance(t, x) {
        assert PutBalance(s, x);
        RemoveKeeps(s.writers, id, x);
        RemoveLeft(s.writers, id, x);
        if x == id {
          Pad(Of(s.accepted, id), Left(s.writers, id));
        }
      }
      forall x: nat ensures GetBalance(t, x) {
        assert GetBalance(s, x);
      }
      forall x | x in t.lost ensures !Waits(t.writers, x) {
        RemoveKeeps(s.writers, id, x);
      }
    }
  }

  lemma ReaderTimeoutKeepsInv(s: State, id: nat)
    requires Inv(s)
    ensures Inv(ReaderTimeout(s, id))
  {
    var t := ReaderTimeout(s, id);
    if Waits(s.readers, id) {
      RemoveKeeps(s.readers, id, id);
      forall x: nat ensures GetBalance(t, x) {
        assert GetBalance(s, x);
        RemoveKeeps(s.readers, id, x);
        RemoveWanted(s.readers, id, x);
      }
      forall x: nat ensures PutBalance(t, x) {
        assert PutBalance(s, x);
      }
      forall x | x in t.unmet ensures !Waits(t.readers, x) {
        RemoveKeeps(s.readers, id, x);
      }
    }
  }

  /** A waiting call has moved exactly what it no longer has, or no longer wants. */
  lemma WaitingWriter(s: State, id: nat)
    requires Inv(s) && id in s.puts && Waits(s.writers, id)
    ensures |Of(s.accepted, id)| == |s.puts[id]| - |Left(s.writers, id)|
  {
    assert PutBalance(s, id);
  }

  lemma WaitingReader(s: State, id: nat)
    requires Inv(s) && id in s.gets && Waits(s.readers, id)
    ensures |Of(s.delivered, id)| == s.gets[id] - Wanted(s.readers, id)
  {
    assert GetBalance(s, id);
  }

  /** A put wakes a waiting reader exactly when the reader has all that it asked for. */
  lemma WokenReader(s: State, c: PutCall, id: nat)
    requires Inv(s) && c.id !in s.puts && Waits(s.readers, id)
    ensures id in s.gets
    ensures !Waits(PutStep(s, c).readers, id) <==> |Of(PutStep(s, c).delivered, id)| == s.gets[id]
  {
    var t := PutStep(s, c);
    PutKeepsInv(s, c);
    assert GetBalance(s, id) && GetBalance(t, id);
    if Waits(t.readers, id) {
      HungryWants(t.readers, id);
    } else {
      NotServed(t.readers, [], id);
    }
  }

  /** A get wakes a waiting writer exactly when all of its data was accepted. */
  lemma WokenWriter(s: State, c: GetCall, id: nat)
    requires Inv(s) && c.id !in s.gets && Waits(s.writers, id)
    ensures id in s.puts
    ensures !Waits(GetStep(s, c).writers, id) <==> Of(GetStep(s, c).accepted, id) == s.puts[id]
  {
    var t := GetStep(s, c);
    GetKeepsInv(s, c);
    assert PutBalance(s, id) && PutBalance(t, id);
    if Waits(t.writers, id) {
      BusyHas(t.writers, id);
    } else {
      NotWaiting(t.writers, 0, id);
    }
  }

  lemma {:induction false} HungryWants(q: seq<Reader>, id: nat)
    requires Hungry(q) && Waits(q, id)
    ensures Wanted(q, id) > 0
  {
    if q[0].id != id {
      HungryWants(q[1..], id);
    }
  }

  lemma {:induction false} BusyHas(q: seq<Writer>, id: nat)
    requires Busy(q) && Waits(q, id)
    ensures Left(q, id) != []
  {
    if q[0].id != id {
      BusyHas(q[1..], id);
    }
  }

  // ---------- whole runs ----------

  datatype Step = Put(put: PutCall) | Get(get: GetCall) | WriterGone(id: nat) | ReaderGone(id: nat)

  /** Every call is new. */
  predicate Enabled(s: State, step: Step) {
    match step
    case Put(c) => c.id !in s.puts
    case Get(c) => c.id !in s.gets
    case _ => true
  }

  function Apply(s: State, step: Step): State
    requires |s.ring| <= s.size
  {
    match step
    case Put(c) => PutStep(s, c)
    case Get(c) => GetStep(s, c)
    case WriterGone(id) => WriterTimeout(s, id)
    case ReaderGone(id) => ReaderTimeout(s, id)
  }

  /** A run; the bound on the ring holds in every state of it, by the invariant. */
  ghost predicate RunsTo(s: State, steps: seq<Step>, t: State)
    decreases |steps|
  {
    if steps == [] then s == t
    else |s.ring| <= s.size && Enabled(s, steps[0]) && RunsTo(Apply(s, steps[0]), steps[1..], t)
  }

  lemma StepKeepsInv(s: State, step: Step)
    requires Inv(s) && Enabled(s, step)
    ensures Inv(Apply(s, step))
  {
    match step
    case Put(c) => PutKeepsInv(s, c);
    case Get(c) => GetKeepsInv(s, c);
    case WriterGone(id) => WriterTimeoutKeepsInv(s, id);
    case ReaderGone(id) => ReaderTimeoutKeepsInv(s, id);
  }

  lemma {:induction false} RunKeepsInv(s: State, steps: seq<Step>, t: State)
    requires Inv(s) && RunsTo(s, steps, t)
    ensures Inv(t)
    decreases |steps|
  {
    if steps != [] {
      StepKeepsInv(s, steps[0]);
      RunKeepsInv(Apply(s, steps[0]), steps[1..], t);
    }
  }

  lemma EmptyInv(size: nat)
    ensures Inv(Empty(size))
  {
  }

  lemma ReachableInv(size: nat, steps: seq<Step>, t: State)
    requires RunsTo(Empty(size), steps, t)
    ensures Inv(t)
  {
    EmptyInv(size);
    RunKeepsInv(Empty(size), steps, t);
  }

  /** Over every run from an initialised pipe: first in, first out, and the waiting rules. */
  lemma StreamOrder(size: nat, steps: seq<Step>, t: State)
    requires RunsTo(Empty(size), steps, t)
    ensures Bytes(t.accepted) == Bytes(t.delivered) + t.ring && WaitInv(t)
  {
    ReachableInv(size, steps, t);
  }

  /** What a put call got into the pipe is a prefix of its data, and all of it but what it gave back once it ended. */
  lemma PutCalls(size: nat, steps: seq<Step>, t: State, id: nat)
    requires RunsTo(Empty(size), steps, t) && id in t.puts
    ensures Of(t.accepted, id) <= t.puts[id]
    ensures !Waits(t.writers, id) ==> Of(t.accepted, id) + LostOf(t, id) == t.puts[id]
  {
    ReachableInv(size, steps, t);
    assert PutBalance(t, id);
    if !Waits(t.writers, id) {
      NotWaiting(t.writers, 0, id);
      Pad(Of(t.accepted, id), LostOf(t, id));
    }
  }

  /** A get call that has ended received its request less what it gave up; without a timeout, all of it. */
  lemma GetCalls(size: nat, steps: seq<Step>, t: State, id: nat)
    requires RunsTo(Empty(size), steps, t) && id in t.gets && !Waits(t.readers, id)
    ensures |Of(t.delivered, id)| == t.gets[id] - UnmetOf(t, id)
  {
    ReachableInv(size, steps, t);
    assert GetBalance(t, id);
    NotServed(t.readers, [], id);
  }

  // ---------- the outcome of each call ----------

  /**
    A put fails if and only if it must not wait and the bytes that waiting readers want, together with the room in the
    ring, are fewer than its minimum; then the pipe stays as it is.
   */
  lemma PutFails(s: State, c: PutCall)
    requires |s.ring| <= s.size && !c.wait && Demand(s.readers) + (s.size - |s.ring|) < c.minXfer
    ensures PutStep(s, c) == s.(puts := s.puts[c.id := c.data], lost := s.lost[c.id := c.data])
  {
  }

  /**
    A put hands over the front of its data, as much as readers and ring can take, behind what the readers have got and
    the ring holds; with the rest it waits if it may, with its own priority, and otherwise the rest is given back.
   */
  ghost predicate HandedOver(s: State, c: PutCall, t: State)
    requires |s.ring| <= s.size
  {
    var n := Min(|c.data|, Demand(s.readers) + (s.size - |s.ring|));
    && t.size == s.size
    && t.accepted == s.accepted + Tag(c.id, c.data[..n])
    && Bytes(t.delivered) + t.ring == Bytes(s.delivered) + s.ring + c.data[..n]
    && Demand(s.readers) - Demand(t.readers) == Min(|c.data|, Demand(s.readers))
    && t.writers == (if c.wait && n < |c.data| then Insert(s.writers, Waiter(c.id, c.prio, c.data[n..])) else s.writers)
    && t.lost == (if !c.wait && n < |c.data| then s.lost[c.id := c.data[n..]] else s.lost)
    && t.puts == s.puts[c.id := c.data] && t.gets == s.gets && t.unmet == s.unmet
  }

  /** Otherwise it succeeds, at least in part. */
  lemma PutSucceeds(s: State, c: PutCall)
    requires WaitInv(s) && (c.wait || c.minXfer <= Demand(s.readers) + (s.size - |s.ring|))
    ensures HandedOver(s, c, PutStep(s, c))
  {
    PutMoves(s, c, PutStep(s, c));
  }

  /** The bytes go to the readers first, then into the ring. */
  lemma PutMoves(s: State, c: PutCall, t: State)
    requires WaitInv(s)
    requires t.ring == s.ring + c.data[Direct(s, c)..PutCount(s, c)] && t.readers == Serve(s.readers, Direct(s, c))
    requires t.delivered == s.delivered + ServeLog(s.readers, c.data[..Direct(s, c)])
    ensures PutCount(s, c) == Min(|c.data|, Demand(s.readers) + (s.size - |s.ring|))
    ensures Bytes(t.delivered) + t.ring == Bytes(s.delivered) + s.ring + c.data[..PutCount(s, c)]
    ensures Demand(s.readers) - Demand(t.readers) == Min(|c.data|, Demand(s.readers))
  {
    var m, n := Direct(s, c), PutCount(s, c);
    var direct, stored := c.data[..m], c.data[m..n];
    ServeDemand(s.readers, direct);
    BytesConcat(s.delivered, ServeLog(s.readers, direct));
    FifoStep(Bytes(s.delivered) + s.ring, Bytes(s.delivered), s.ring, direct, stored);
    assert c.data[..n] == direct + stored;
  }

  /** Such a put that must not wait does nothing to the pipe, or moves all that fits, which is at least its minimum. */
  lemma PutNoWait(s: State, c: PutCall)
    requires WaitInv(s) && !c.wait && c.minXfer <= |c.data|
    ensures var t, room := PutStep(s, c), Demand(s.readers) + (s.size - |s.ring|);
            && t.writers == s.writers
            && if room < c.minXfer then
                 t.ring == s.ring && t.readers == s.readers && t.accepted == s.accepted && t.delivered == s.delivered
               else
                 && t.accepted == s.accepted + Tag(c.id, c.data[..Min(|c.data|, room)])
                 && Min(|c.data|, room) >= c.minXfer
                 && |t.ring| - |s.ring| + (Demand(s.readers) - Demand(t.readers)) == Min(|c.data|, room)
  {
    if Demand(s.readers) + (s.size - |s.ring|) < c.minXfer {
      PutFails(s, c);
    } else {
      PutSucceeds(s, c);
    }
  }

  /** A get fails if and only if it must not wait and ring and waiting writers together have less than its minimum. */
  lemma GetFails(s: State, c: GetCall)
    requires |s.ring| <= s.size && !c.wait && |s.ring| + |Supply(s.writers)| < c.minXfer
    ensures GetStep(s, c) == s.(gets := s.gets[c.id := c.want], unmet := s.unmet[c.id := c.want])
  {
  }

  /**
    A get receives the front of what ring and writers have, the ring is filled up again from the writers, and the
    caller waits for the rest of its request if it may, with its own priority, and otherwise gives it up.
   */
  ghost predicate Fetched(s: State, c: GetCall, t: State) {
    var all := s.ring + Supply(s.writers);
    var n := Min(c.want, |all|);
    && t.size == s.size
    && t.delivered == s.delivered + Tag(c.id, all[..n])
    && t.ring + Supply(t.writers) == all[n..] && |t.ring| == Min(s.size, |all| - n)
    && |Supply(t.writers)| <= |Supply(s.writers)|
    && Bytes(t.accepted) == Bytes(s.accepted) + Supply(s.writers)[..|Supply(s.writers)| - |Supply(t.writers)|]
    && t.readers == (if c.wait && n < c.want then Insert(s.readers, Waiter(c.id, c.prio, c.want - n)) else s.readers)
    && t.unmet == (if !c.wait && n < c.want then s.unmet[c.id := c.want - n] else s.unmet)
    && t.gets == s.gets[c.id := c.want] && t.puts == s.puts && t.lost == s.lost
  }

  /** Otherwise it succeeds, at least in part. */
  lemma GetSucceeds(s: State, c: GetCall)
    requires WaitInv(s) && (c.wait || c.minXfer <= |s.ring| + |Supply(s.writers)|)
    ensures Fetched(s, c, GetStep(s, c))
  {
    var t, n, all := GetStep(s, c), GetCount(s, c), Available(s);
    assert t.ring + Supply(t.writers) == all[n..] && |t.ring| == Min(s.size, |all| - n)
           && |Supply(t.writers)| <= |Supply(s.writers)|
           && Bytes(t.accepted) == Bytes(s.accepted) + Supply(s.writers)[..|Supply(s.writers)| - |Supply(t.writers)|] by {
      GetMoves(s, n, t);
    }
    FetchedBy(s, c, all, n, t);
  }

  lemma FetchedBy(s: State, c: GetCall, all: seq<Byte>, n: nat, t: State)
    requires all == s.ring + Supply(s.writers) && n == Min(c.want, |all|) && t.size == s.size
    requires t.ring + Supply(t.writers) == all[n..] && |t.ring| == Min(s.size, |all| - n)
    requires |Supply(t.writers)| <= |Supply(s.writers)|
    requires Bytes(t.accepted) == Bytes(s.accepted) + Supply(s.writers)[..|Supply(s.writers)| - |Supply(t.writers)|]
    requires t.delivered == s.delivered + Tag(c.id, all[..n]) && t.readers == Queued(s.readers, c, c.want - n)
    requires t.unmet == if n < c.want && !c.wait then s.unmet[c.id := c.want - n] else s.unmet
    requires t.gets == s.gets[c.id := c.want] && t.puts == s.puts && t.lost == s.lost
    ensures Fetched(s, c, t)
  {
  }

  /** The bytes come from the ring first, then from the writers, who fill the ring up again. */
  lemma GetMoves(s: State, n: nat, t: State)
    requires WaitInv(s) && n <= |Available(s)|
    requires t.ring == Refilled(s, n) && t.writers == Drop(s.writers, Taken(s, n))
    requires t.accepted == s.accepted + DropLog(s.writers, Taken(s, n))
    ensures t.ring + Supply(t.writers) == (s.ring + Supply(s.writers))[n..]
    ensures |t.ring| == Min(s.size, |s.ring| + |Supply(s.writers)| - n)
    ensures |Supply(t.writers)| <= |Supply(s.writers)|
    ensures Bytes(t.accepted) == Bytes(s.accepted) + Supply(s.writers)[..|Supply(s.writers)| - |Supply(t.writers)|]
  {
    RefillKeepsOrder(s, n);
    DropSupply(s.writers, Taken(s, n));
    BytesConcat(s.accepted, DropLog(s.writers, Taken(s, n)));
  }

  lemma GetNoWait(s: State, c: GetCall)
    requires WaitInv(s) && !c.wait && c.minXfer <= c.want
    ensures var t, all := GetStep(s, c), s.ring + Supply(s.writers);
            && t.readers == s.readers
            && if |all| < c.minXfer then
                 t.ring == s.ring && t.writers == s.writers && t.accepted == s.accepted && t.delivered == s.delivered
               else
                 && t.delivered == s.delivered + Tag(c.id, all[..Min(c.want, |all|)])
                 && Min(c.want, |all|) >= c.minXfer
                 && t.ring + Supply(t.writers) == all[Min(c.want, |all|)..]
  {
    if |s.ring| + |Supply(s.writers)| < c.minXfer {
      GetFails(s, c);
    } else {
      GetSucceeds(s, c);
    }
  }

  /** A call that times out leaves its queue, and nobody else does. */
  lemma {:induction false} RemoveIs<D>(q: seq<Waiter<D>>, id: nat) returns (n: nat)
    requires Waits(q, id)
    ensures n < |q| && q[n].id == id && Remove(q, id) == q[..n] + q[n + 1..]
  {
    if q[0].id == id {
      n := 0;
    } else {
      n := RemoveIs(q[1..], id);
      assert [q[0]] + q[1..][..n] == q[..n + 1];
      n := n + 1;
    }
  }

  // ---------- the records are those of the calls ----------

  /** Of a run: what is recorded as the data of a put and as the request of a get is that of the call. */
  lemma {:induction false} RecordedCalls(s: State, steps: seq<Step>, t: State, j: nat)
    requires RunsTo(s, steps, t) && j < |steps|
    ensures steps[j].Put? ==> steps[j].put.id in t.puts && t.puts[steps[j].put.id] == steps[j].put.data
    ensures steps[j].Get? ==> steps[j].get.id in t.gets && t.gets[steps[j].get.id] == steps[j].get.want
    decreases |steps|
  {
    var u := Apply(s, steps[0]);
    if j > 0 {
      RecordedCalls(u, steps[1..], t, j - 1);
    } else if steps[0].Put? {
      StaysRecorded(u, steps[1..], t, steps[0].put.id);
    } else if steps[0].Get? {
      StaysRecorded(u, steps[1..], t, steps[0].get.id);
    }
  }

  lemma {:induction false} StaysRecorded(s: State, steps: seq<Step>, t: State, id: nat)
    requires RunsTo(s, steps, t)
    ensures id in s.puts ==> id in t.puts && t.puts[id] == s.puts[id]
    ensures id in s.gets ==> id in t.gets && t.gets[id] == s.gets[id]
    decreases |steps|
  {
    if steps != [] {
      StaysRecorded(Apply(s, steps[0]), steps[1..], t, id);
    }
  }

  /** And nothing else is recorded. */
  lemma {:induction false} OnlyCallsRecorded(s: State, steps: seq<Step>, t: State, id: nat)
    requires RunsTo(s, steps, t)
    ensures id in t.puts && id !in s.puts ==> exists j :: 0 <= j < |steps| && steps[j].Put? && steps[j].put.id == id
    ensures id in t.gets && id !in s.gets ==> exists j :: 0 <= j < |steps| && steps[j].Get? && steps[j].get.id == id
    decreases |steps|
  {
    if steps != [] {
      var u := Apply(s, steps[0]);
      OnlyCallsRecorded(u, steps[1..], t, id);
      if id in t.puts && id !in u.puts {
        var j :| 0 <= j < |steps[1..]| && steps[1..][j].Put? && steps[1..][j].put.id == id;
        assert steps[j + 1].Put? && steps[j + 1].put.id == id;
      }
      if id in t.gets && id !in u.gets {
        var j :| 0 <= j < |steps[1..]| && steps[1..][j].Get? && steps[1..][j].get.id == id;
        assert steps[j + 1].Get? && steps[j + 1].get.id == id;
      }
    }
  }

  /** The bytes that a put call of a run got into the pipe are a prefix of its own data. */
  lemma PutsOwnData(size: nat, steps: seq<Step>, t: State, j: nat)
    requires RunsTo(Empty(size), steps, t) && j < |steps| && steps[j].Put?
    ensures var c := steps[j].put;
            && Of(t.accepted, c.id) <= c.data
            && (!Waits(t.writers, c.id) ==> Of(t.accepted, c.id) + LostOf(t, c.id) == c.data)
  {
    RecordedCalls(Empty(size), steps, t, j);
    PutCalls(size, steps, t, steps[j].put.id);
  }

  /** Who waits, and with which priority. */
  predicate WriterOf(step: Step, w: WaitQueue.Waiting<nat>) {
    step.Put? && step.put.wait && step.put.id == w.item && step.put.prio == w.prio
  }

  predicate ReaderOf(step: Step, w: WaitQueue.Waiting<nat>) {
    step.Get? && step.get.wait && step.get.id == w.item && step.get.prio == w.prio
  }

  lemma InsertedRank<D>(q: seq<Waiter<D>>, x: Waiter<D>, w: WaitQueue.Waiting<nat>)
    requires w in Ranks(Insert(q, x))
    ensures w in Ranks(q) || w == WaitQueue.Waiting(x.prio, x.id)
  {
    InsertRanks(q, x);
    WaitQueue.InsertMember(Ranks(q), WaitQueue.Waiting(x.prio, x.id), w);
  }

  lemma RemovedRank<D>(q: seq<Waiter<D>>, id: nat, w: WaitQueue.Waiting<nat>)
    requires Waits(q, id) && w in Ranks(Remove(q, id))
    ensures w in Ranks(q)
  {
    var n := RemoveIs(q, id);
    var i :| 0 <= i < |Ranks(Remove(q, id))| && Ranks(Remove(q, id))[i] == w;
    assert Ranks(q)[if i < n then i else i + 1] == w;
  }

  lemma NewWriter(s: State, step: Step, w: WaitQueue.Waiting<nat>)
    requires |s.ring| <= s.size && w in Ranks(Apply(s, step).writers)
    ensures w in Ranks(s.writers) || WriterOf(step, w)
  {
    match step
    case Put(c) =>
      if !PutRefused(s, c) && c.wait && PutCount(s, c) < |c.data| {
        InsertedRank(s.writers, Waiter(c.id, c.prio, c.data[PutCount(s, c)..]), w);
      }
    case Get(c) =>
      if !GetRefused(s, c) {
        var k := DropRanks(s.writers, Taken(s, GetCount(s, c)));
      }
    case WriterGone(id) =>
      if Waits(s.writers, id) {
        RemovedRank(s.writers, id, w);
      }
    case ReaderGone(_) =>
  }

  lemma NewReader(s: State, step: Step, w: WaitQueue.Waiting<nat>)
    requires |s.ring| <= s.size && w in Ranks(Apply(s, step).readers)
    ensures w in Ranks(s.readers) || ReaderOf(step, w)
  {
    match step
    case Put(c) =>
      if !PutRefused(s, c) {
        var k := ServeRanks(s.readers, Direct(s, c));
      }
    case Get(c) =>
      if !GetRefused(s, c) && c.wait && c.want > GetCount(s, c) {
        InsertedRank(s.readers, Waiter(c.id, c.prio, c.want - GetCount(s, c)), w);
      }
    case WriterGone(_) =>
    case ReaderGone(id) =>
      if Waits(s.readers, id) {
        RemovedRank(s.readers, id, w);
      }
  }

  /** Everybody who waits at the end of a run waits with the priority of the call that made them wait. */
  lemma {:induction false} WaitersByCalls(s: State, steps: seq<Step>, t: State, w: WaitQueue.Waiting<nat>)
    requires RunsTo(s, steps, t)
    ensures w in Ranks(t.writers) && w !in Ranks(s.writers) ==> exists j :: 0 <= j < |steps| && WriterOf(steps[j], w)
    ensures w in Ranks(t.readers) && w !in Ranks(s.readers) ==> exists j :: 0 <= j < |steps| && ReaderOf(steps[j], w)
    decreases |steps|
  {
    if steps != [] {
      var u, rest := Apply(s, steps[0]), steps[1..];
      WaitersByCalls(u, rest, t, w);
      if w in Ranks(u.writers) {
        NewWriter(s, steps[0], w);
      } else if w in Ranks(t.writers) {
        var j :| 0 <= j < |rest| && WriterOf(rest[j], w);
        assert WriterOf(steps[j + 1], w);
      }
      if w in Ranks(u.readers) {
        NewReader(s, steps[0], w);
      } else if w in Ranks(t.readers) {
        var j :| 0 <= j < |rest| && ReaderOf(rest[j], w);
        assert ReaderOf(steps[j + 1], w);
      }
    }
  }

  /** Refilling the ring only moves the border between ring and writers. */
  lemma RefillKeepsOrder(s: State, n: nat)
    requires WaitInv(s) && n <= |Available(s)|
    ensures Taken(s, n) <= |Supply(s.writers)|
    ensures Refilled(s, n) + Supply(s.writers)[Taken(s, n)..] == Available(s)[n..]
  {
    TakenInSupply(s, n);
    var all, t := Available(s), Taken(s, n);
    assert all[|s.ring| + t..] == Supply(s.writers)[t..];
    assert all[n..] == Refilled(s, n) + all[n + |Refilled(s, n)|..];
  }
}
