/**
  A pipe on values: the ring contents, the two wait queues and a log of every byte that
  was accepted from a writer and delivered to a reader. Each put, get and timeout is one
  step, since the scheduler is locked while a call transfers data.
 */
module PipeStream {
  import WaitQueue

  type Byte = bv8

  /** A pended call: its remaining data (a writer) or the number of bytes it still wants (a reader). */
  datatype Waiter<D> = Waiter(id: nat, prio: int, rest: D)
  type Writer = Waiter<seq<Byte>>
  type Reader = Waiter<nat>

  /** A byte in a log, with the call it came from or went to. */
  datatype Tagged = Tagged(id: nat, byte: Byte)

  // ---------- logs ----------

  function Tag(id: nat, data: seq<Byte>): seq<Tagged> {
    seq(|data|, i requires 0 <= i < |data| => Tagged(id, data[i]))
  }

  function Bytes(log: seq<Tagged>): seq<Byte> {
    seq(|log|, i requires 0 <= i < |log| => log[i].byte)
  }

  /** The bytes of one call, in log order. */
  function Of(log: seq<Tagged>, id: nat): seq<Byte> {
    if log == [] then []
    else Of(log[..|log| - 1], id) + (if log[|log| - 1].id == id then [log[|log| - 1].byte] else [])
  }

  lemma BytesConcat(a: seq<Tagged>, b: seq<Tagged>)
    ensures Bytes(a + b) == Bytes(a) + Bytes(b)
  {
  }

  lemma BytesTag(id: nat, data: seq<Byte>)
    ensures Bytes(Tag(id, data)) == data
  {
  }

  lemma {:induction false} OfConcat(a: seq<Tagged>, b: seq<Tagged>, id: nat)
    ensures Of(a + b, id) == Of(a, id) + Of(b, id)
  {
    if b == [] {
      assert a + b == a;
    } else {
      var n := |b| - 1;
      OfConcat(a, b[..n], id);
      assert (a + b)[..|a + b| - 1] == a + b[..n];
    }
  }

  lemma {:induction false} OfTag(id: nat, data: seq<Byte>, other: nat)
    ensures Of(Tag(id, data), other) == if id == other then data else []
  {
    if data != [] {
      var n := |data| - 1;
      OfTag(id, data[..n], other);
      assert Tag(id, data)[..n] == Tag(id, data[..n]);
      assert data == data[..n] + [data[n]];
    }
  }

  // ---------- wait queues ----------

  /** `_pend_thread`: before the first waiter of lower priority. */
  function Insert<D>(q: seq<Waiter<D>>, w: Waiter<D>): (r: seq<Waiter<D>>)
    ensures |r| == |q| + 1
  {
    if q == [] then [w]
    else if w.prio < q[0].prio then [w] + q
    else [q[0]] + Insert(q[1..], w)
  }

  /** A wait queue with just the identities. */
  function Ranks<D>(q: seq<Waiter<D>>): WaitQueue.Queue<nat> {
    seq(|q|, i requires 0 <= i < |q| => WaitQueue.Waiting(q[i].prio, q[i].id))
  }

  /** It is the insertion of every wait queue. */
  lemma {:induction false} InsertRanks<D>(q: seq<Waiter<D>>, w: Waiter<D>)
    ensures Ranks(Insert(q, w)) == WaitQueue.Insert(Ranks(q), WaitQueue.Waiting(w.prio, w.id))
  {
    var x := WaitQueue.Waiting(w.prio, w.id);
    WaitQueue.InsertFirst(Ranks(q), x);
    if q == [] || w.prio < q[0].prio {
      RanksFirst(w, q);
    } else {
      InsertRanks(q[1..], w);
      assert Ranks(q)[1..] == Ranks(q[1..]);
      RanksFirst(q[0], Insert(q[1..], w));
    }
  }

  lemma RanksFirst<D>(w: Waiter<D>, q: seq<Waiter<D>>)
    ensures Ranks([w] + q) == [WaitQueue.Waiting(w.prio, w.id)] + Ranks(q)
  {
  }

  predicate Waits<D>(q: seq<Waiter<D>>, id: nat) {
    q != [] && (q[0].id == id || Waits(q[1..], id))
  }

  predicate DistinctIds<D>(q: seq<Waiter<D>>) {
    q == [] || (!Waits(q[1..], q[0].id) && DistinctIds(q[1..]))
  }

  /** The remaining data of a call, or nothing if it does not wait. */
  function Left(q: seq<Writer>, id: nat): seq<Byte> {
    if q == [] then [] else if q[0].id == id then q[0].rest else Left(q[1..], id)
  }

  function Wanted(q: seq<Reader>, id: nat): nat {
    if q == [] then 0 else if q[0].id == id then q[0].rest else Wanted(q[1..], id)
  }

  // ---------- writers supply bytes ----------

  /** All bytes that the writers offer, in queue order. */
  function Supply(q: seq<Writer>): seq<Byte> {
    if q == [] then [] else q[0].rest + Supply(q[1..])
  }

  /** The writers after `n` bytes were taken from the front of their supply. */
  function Drop(q: seq<Writer>, n: nat): seq<Writer> {
    if q == [] then []
    else if |q[0].rest| <= n then Drop(q[1..], n - |q[0].rest|)
    else [q[0].(rest := q[0].rest[n..])] + q[1..]
  }

  function DropLog(q: seq<Writer>, n: nat): seq<Tagged> {
    if q == [] then []
    else if |q[0].rest| <= n then Tag(q[0].id, q[0].rest) + DropLog(q[1..], n - |q[0].rest|)
    else Tag(q[0].id, q[0].rest[..n])
  }

  ghost predicate Busy(q: seq<Writer>) {
    forall i :: 0 <= i < |q| ==> q[i].rest != []
  }

  lemma {:induction false} DropSupply(q: seq<Writer>, n: nat)
    requires n <= |Supply(q)|
    ensures Bytes(DropLog(q, n)) == Supply(q)[..n]
    ensures Supply(Drop(q, n)) == Supply(q)[n..]
  {
    if q != [] {
      var w, m := q[0], |q[0].rest|;
      if m <= n {
        DropSupply(q[1..], n - m);
        BytesTag(w.id, w.rest);
        BytesConcat(Tag(w.id, w.rest), DropLog(q[1..], n - m));
      } else {
        BytesTag(w.id, w.rest[..n]);
        assert ([w.(rest := w.rest[n..])] + q[1..])[1..] == q[1..];
      }
    }
  }

  lemma {:induction false} DropKeeps(q: seq<Writer>, n: nat, id: nat)
    ensures !Waits(q, id) ==> !Waits(Drop(q, n), id)
    ensures DistinctIds(q) ==> DistinctIds(Drop(q, n))
    ensures Busy(q) ==> Busy(Drop(q, n))
  {
    if q != [] {
      if |q[0].rest| <= n {
        DropKeeps(q[1..], n - |q[0].rest|, id);
      } else {
        assert Drop(q, n)[1..] == q[1..];
      }
    }
  }

  lemma {:induction false} NotWaiting(q: seq<Writer>, n: nat, id: nat)
    requires !Waits(q, id)
    ensures Left(q, id) == [] && Of(DropLog(q, n), id) == [] && Left(Drop(q, n), id) == []
  {
    if q != [] {
      var w := q[0];
      if |w.rest| <= n {
        NotWaiting(q[1..], n - |w.rest|, id);
        OfConcat(Tag(w.id, w.rest), DropLog(q[1..], n - |w.rest|), id);
        OfTag(w.id, w.rest, id);
      } else {
        NotWaiting(q[1..], 0, id);
        OfTag(w.id, w.rest[..n], id);
        assert Drop(q, n)[1..] == q[1..];
      }
    }
  }

  /** Per call nothing is lost: what was taken from a writer and what it still has is what it had. */
  lemma {:induction false} DropPerCall(q: seq<Writer>, n: nat, id: nat)
    requires DistinctIds(q)
    ensures Of(DropLog(q, n), id) + Left(Drop(q, n), id) == Left(q, id)
  {
    if q != [] {
      var w, rest := q[0], q[1..];
      if |w.rest| <= n {
        var log := DropLog(rest, n - |w.rest|);
        assert Of(DropLog(q, n), id) == (if w.id == id then w.rest else []) + Of(log, id) by {
          OfConcat(Tag(w.id, w.rest), log, id);
          OfTag(w.id, w.rest, id);
        }
        if w.id == id {
          NotWaiting(rest, n - |w.rest|, id);
        } else {
          DropPerCall(rest, n - |w.rest|, id);
        }
      } else {
        DropPart(q, n, id);
      }
    }
  }

  /** When the first writer keeps something, the others keep all. */
  lemma DropPart(q: seq<Writer>, n: nat, id: nat)
    requires DistinctIds(q) && q != [] && n < |q[0].rest|
    ensures Of(DropLog(q, n), id) + Left(Drop(q, n), id) == Left(q, id)
  {
    var w := q[0];
    OfTag(w.id, w.rest[..n], id);
    assert Drop(q, n)[1..] == q[1..];
    assert w.rest[..n] + w.rest[n..] == w.rest;
  }

  lemma {:induction false} InsertKeeps<D>(q: seq<Waiter<D>>, w: Waiter<D>, id: nat)
    ensures Waits(Insert(q, w), id) <==> id == w.id || Waits(q, id)
    ensures DistinctIds(q) && !Waits(q, w.id) ==> DistinctIds(Insert(q, w))
  {
    var r := Insert(q, w);
    if q != [] {
      if w.prio < q[0].prio {
        assert r[1..] == q;
      } else {
        assert r[1..] == Insert(q[1..], w);
        InsertKeeps(q[1..], w, id);
        InsertKeeps(q[1..], w, q[0].id);
      }
    }
  }

  lemma {:induction false} InsertLeft(q: seq<Writer>, w: Writer, id: nat)
    requires !Waits(q, w.id) && w.rest != []
    ensures Left(Insert(q, w), id) == if id == w.id then w.rest else Left(q, id)
    ensures Busy(q) ==> Busy(Insert(q, w))
  {
    var r := Insert(q, w);
    if q != [] {
      if w.prio < q[0].prio {
        assert r[1..] == q;
      } else {
        assert r[1..] == Insert(q[1..], w);
        InsertLeft(q[1..], w, id);
      }
    }
  }

  // ---------- readers take bytes ----------

  /** The number of bytes that the readers ask for. */
  function Demand(q: seq<Reader>): nat {
    if q == [] then 0 else q[0].rest + Demand(q[1..])
  }

  /** The readers after `n` bytes were handed out from the front of the queue. */
  function Serve(q: seq<Reader>, n: nat): seq<Reader> {
    if q == [] then []
    else if q[0].rest <= n then Serve(q[1..], n - q[0].rest)
    else [q[0].(rest := q[0].rest - n)] + q[1..]
  }

  function ServeLog(q: seq<Reader>, data: seq<Byte>): seq<Tagged> {
    if q == [] then []
    else if q[0].rest <= |data| then Tag(q[0].id, data[..q[0].rest]) + ServeLog(q[1..], data[q[0].rest..])
    else Tag(q[0].id, data)
  }

  ghost predicate Hungry(q: seq<Reader>) {
    forall i :: 0 <= i < |q| ==> q[i].rest > 0
  }

  lemma {:induction false} ServeDemand(q: seq<Reader>, data: seq<Byte>)
    requires |data| <= Demand(q)
    ensures Bytes(ServeLog(q, data)) == data
    ensures Demand(Serve(q, |data|)) == Demand(q) - |data|
  {
    if q != [] {
      var r := q[0];
      if r.rest <= |data| {
        var now, later := data[..r.rest], data[r.rest..];
        ServeDemand(q[1..], later);
        BytesTag(r.id, now);
        BytesConcat(Tag(r.id, now), ServeLog(q[1..], later));
        assert data == now + later;
      } else {
        BytesTag(r.id, data);
        assert Serve(q, |data|)[1..] == q[1..];
      }
    }
  }

  lemma {:induction false} ServeKeeps(q: seq<Reader>, n: nat, id: nat)
    ensures !Waits(q, id) ==> !Waits(Serve(q, n), id)
    ensures DistinctIds(q) ==> DistinctIds(Serve(q, n))
    ensures Hungry(q) ==> Hungry(Serve(q, n))
  {
    if q != [] {
      if q[0].rest <= n {
        ServeKeeps(q[1..], n - q[0].rest, id);
      } else {
        assert Serve(q, n)[1..] == q[1..];
      }
    }
  }

  lemma {:induction false} NotServed(q: seq<Reader>, data: seq<Byte>, id: nat)
    requires !Waits(q, id)
    ensures Wanted(q, id) == 0 && Of(ServeLog(q, data), id) == [] && Wanted(Serve(q, |data|), id) == 0
  {
    if q != [] {
      var r := q[0];
      if r.rest <= |data| {
        NotServed(q[1..], data[r.rest..], id);
        OfConcat(Tag(r.id, data[..r.rest]), ServeLog(q[1..], data[r.rest..]), id);
        OfTag(r.id, data[..r.rest], id);
      } else {
        NotServed(q[1..], [], id);
        OfTag(r.id, data, id);
        assert Serve(q, |data|)[1..] == q[1..];
      }
    }
  }

  /** Per call: the bytes handed to a reader and the bytes it still wants are what it wanted. */
  lemma {:induction false} ServePerCall(q: seq<Reader>, data: seq<Byte>, id: nat)
    requires DistinctIds(q)
    ensures |Of(ServeLog(q, data), id)| + Wanted(Serve(q, |data|), id) == Wanted(q, id)
  {
    if q != [] {
      var r, rest := q[0], q[1..];
      if r.rest <= |data| {
        var now, later := data[..r.rest], data[r.rest..];
        OfConcat(Tag(r.id, now), ServeLog(rest, later), id);
        OfTag(r.id, now, id);
        if r.id == id {
          NotServed(rest, later, id);
        } else {
          ServePerCall(rest, later, id);
        }
      } else {
        OfTag(r.id, data, id);
        assert Serve(q, |data|)[1..] == rest;
      }
    }
  }

  /** The readers are served in queue order: byte `k` goes to the reader in whose request it falls. */
  lemma {:induction false} ServeOrder(q: seq<Reader>, data: seq<Byte>, i: nat, k: nat)
    requires i < |q| && k < |data| && Demand(q[..i]) <= k < Demand(q[..i]) + q[i].rest
    ensures k < |ServeLog(q, data)| && ServeLog(q, data)[k] == Tagged(q[i].id, data[k])
  {
    var x := q[0].rest;
    if i > 0 {
      DemandFirst(q, i);
      ServeOrder(q[1..], data[x..], i - 1, k - x);
    }
  }

  lemma DemandFirst(q: seq<Reader>, i: nat)
    requires 0 < i <= |q|
    ensures Demand(q[..i]) == q[0].rest + Demand(q[1..][..i - 1])
  {
    assert q[..i][1..] == q[1..][..i - 1] && q[..i][0] == q[0];
  }

  /** Served readers leave from the front; those that stay keep their order and priority. */
  lemma {:induction false} ServeRanks(q: seq<Reader>, n: nat) returns (k: nat)
    ensures k <= |q| && Ranks(Serve(q, n)) == Ranks(q)[k..]
  {
    if q == [] {
      k := 0;
    } else if q[0].rest <= n {
      k := ServeRanks(q[1..], n - q[0].rest);
      assert Ranks(q)[1..] == Ranks(q[1..]);
      k := k + 1;
    } else {
      k := 0;
    }
  }

  /** And so it is with writers. */
  lemma {:induction false} DropRanks(q: seq<Writer>, n: nat) returns (k: nat)
    ensures k <= |q| && Ranks(Drop(q, n)) == Ranks(q)[k..]
  {
    if q == [] {
      k := 0;
    } else if |q[0].rest| <= n {
      k := DropRanks(q[1..], n - |q[0].rest|);
      assert Ranks(q)[1..] == Ranks(q[1..]);
      k := k + 1;
    } else {
      k := 0;
    }
  }

  lemma {:induction false} InsertWanted(q: seq<Reader>, w: Reader, id: nat)
    requires !Waits(q, w.id) && w.rest > 0
    ensures Wanted(Insert(q, w), id) == if id == w.id then w.rest else Wanted(q, id)
    ensures Hungry(q) ==> Hungry(Insert(q, w))
  {
    var r := Insert(q, w);
    if q != [] {
      if w.prio < q[0].prio {
        assert r[1..] == q;
      } else {
        assert r[1..] == Insert(q[1..], w);
        InsertWanted(q[1..], w, id);
      }
    }
  }
}
