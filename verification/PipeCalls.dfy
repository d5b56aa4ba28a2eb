/**
  The pipe object: `k_pipe_put` and `k_pipe_get` for synchronous callers, proved to be the
  steps of the pipe protocol.
 */
module PipeCalls {
  import opened Arithmetic
  import opened PipeStream
  import opened PipeProtocol
  import opened PipeCursor
  import opened PipeBuffer

  /** What a call returns before it pends, if it does. */
  datatype Outcome = Success | TryAgain | IoError | Pending

  /** `_pipe_return_code`. */
  function ReturnCode(minXfer: nat, remaining: int, requested: nat): Outcome {
    if requested - remaining >= minXfer then Success else TryAgain
  }

  /** The callers' destination buffers hold what the log says was delivered to them. */
  ghost predicate Received(received: map<nat, seq<Byte>>, delivered: seq<Tagged>) {
    forall id: nat :: Of(delivered, id) == if id in received then received[id] else []
  }

  lemma ReceivedMore(received: map<nat, seq<Byte>>, delivered: seq<Tagged>, id: nat, piece: seq<Byte>)
    requires Received(received, delivered)
    ensures Received(received[id := (if id in received then received[id] else []) + piece], delivered + Tag(id, piece))
  {
    forall x: nat ensures Of(delivered + Tag(id, piece), x) == Of(delivered, x) + (if x == id then piece else []) {
      OfConcat(delivered, Tag(id, piece), x);
      OfTag(id, piece, x);
    }
  }

  /** `_pend_thread`. */
  method Pend<D>(q: seq<Waiter<D>>, w: Waiter<D>) returns (r: seq<Waiter<D>>)
    ensures r == Insert(q, w)
  {
    var i := 0;
    assert q[..0] + Insert(q[0..], w) == Insert(q, w) by { assert q[0..] == q; }
    while i < |q| && !(w.prio < q[i].prio)
      invariant 0 <= i <= |q| && q[..i] + Insert(q[i..], w) == Insert(q, w)
    {
      InsertBehind(q, w, i);
      i := i + 1;
    }
    r := q[..i] + [w] + q[i..];
  }

  lemma InsertBehind<D>(q: seq<Waiter<D>>, w: Waiter<D>, i: nat)
    requires i < |q| && !(w.prio < q[i].prio)
    ensures q[..i] + Insert(q[i..], w) == q[..i + 1] + Insert(q[i + 1..], w)
  {
    var tail, rest := q[i..], Insert(q[i + 1..], w);
    assert tail[0] == q[i] && tail[1..] == q[i + 1..];
    assert q[..i] + ([q[i]] + rest) == (q[..i] + [q[i]]) + rest;
    assert q[..i + 1] == q[..i] + [q[i]];
  }

  /** The fields of the state that an accepted put leaves. */
  predicate AfterPut(s: State, c: PutCall, t: State)
    requires |s.ring| <= s.size
  {
    && t.size == s.size && t.ring == s.ring + c.data[Direct(s, c)..PutCount(s, c)]
    && t.readers == Serve(s.readers, Direct(s, c)) && t.writers == Pended(s.writers, c, c.data[PutCount(s, c)..])
    && t.delivered == s.delivered + ServeLog(s.readers, c.data[..Direct(s, c)])
  }

  lemma PutStepIs(s: State, c: PutCall)
    requires |s.ring| <= s.size && !PutRefused(s, c)
    ensures AfterPut(s, c, PutStep(s, c))
  {
  }

  class Pipe {
    const buffer: Buffer
    var readers: seq<Reader>
    var writers: seq<Writer>
    /** The destination buffers of the readers, by call. */
    var received: map<nat, seq<Byte>>
    ghost var st: State

    /** The fields are those of the protocol state `s`. */
    ghost predicate Holds(s: State)
      reads this, buffer, buffer.data
    {
      && buffer.Valid() && s.size == buffer.data.Length && s.ring == buffer.ring
      && s.readers == readers && s.writers == writers && Received(received, s.delivered)
    }

    ghost predicate Valid()
      reads this, buffer, buffer.data
    {
      Holds(st) && Inv(st)
    }

    /** `k_pipe_init`. */
    constructor (size: nat)
      ensures Valid() && st == Empty(size) && fresh(buffer) && fresh(buffer.data)
    {
      buffer := new Buffer(size);
      readers, writers, received, st := [], [], map[], Empty(size);
      EmptyInv(size);
    }

    /** `_pipe_xfer` into a reader's buffer. */
    method Deliver(id: nat, piece: seq<Byte>, ghost delivered: seq<Tagged>)
      requires Received(received, delivered)
      modifies this`received
      ensures Received(received, delivered + Tag(id, piece))
    {
      ReceivedMore(received, delivered, id, piece);
      received := received[id := (if id in received then received[id] else []) + piece];
    }

    /** The part of `_k_pipe_put_internal` that copies to waiting readers; `k` of them are served in full. */
    method FeedReaders(data: seq<Byte>, k: nat) returns (num: nat)
      requires k == FullyServed(ReaderSizes(readers), |data|) && Hungry(readers) && Received(received, st.delivered)
      modifies this`readers, this`received
      ensures num == Min(|data|, Demand(old(readers))) && readers == Serve(old(readers), num)
      ensures Received(received, st.delivered + ServeLog(old(readers), data[..num]))
    {
      var q := readers;
      ghost var log;
      num, log := FeedFully(q, data, k, st.delivered);
      readers := q[k..];
      if readers != [] {
        num := FeedInPart(data, num, log);
      }
    }

    /** Copy to the readers that are served in full. */
    method FeedFully(q: seq<Reader>, data: seq<Byte>, k: nat, ghost delivered: seq<Tagged>)
      returns (num: nat, ghost log: seq<Tagged>)
      requires k == FullyServed(ReaderSizes(q), |data|) && Hungry(q) && Received(received, delivered)
      modifies this`received
      ensures var m := Min(|data|, Demand(q));
              Fed(q[k..], data, num, m, Serve(q, m), delivered + ServeLog(q, data[..m]), log)
      ensures Received(received, log)
    {
      num, log := 0, delivered;
      ghost var m := Min(|data|, Demand(q));
      ghost var served, all := Serve(q, m), delivered + ServeLog(q, data[..m]);
      FeedingStart(q, data, k, delivered);
      for i := 0 to k
        invariant Feeding(q, data, i, num, k, m, served, all, log) && Received(received, log)
      {
        FeedingStep(q, data, i, num, k, m, served, all, log);
        var piece := data[num..num + q[i].rest];
        Deliver(q[i].id, piece, log);
        log := log + Tag(q[i].id, piece);
        num := num + q[i].rest;
      }
      FeedingEnd(q, data, num, k, m, served, all, log);
    }

    /** Copy what is left of the data to the first reader, which wants more than that. */
    method FeedInPart(data: seq<Byte>, num: nat, ghost log: seq<Tagged>) returns (all: nat)
      requires readers != [] && num <= |data| && |data| - num < readers[0].rest && Received(received, log)
      modifies this`readers, this`received
      ensures all == |data|
      ensures readers == old(readers)[0 := old(readers)[0].(rest := old(readers)[0].rest - (|data| - num))]
      ensures Received(received, log + Tag(old(readers)[0].id, data[num..]))
    {
      var r := readers[0];
      var piece := data[num..num + Min(r.rest, |data| - num)];
      assert piece == data[num..];
      Deliver(r.id, piece, log);
      all := num + |piece|;
      readers := readers[0 := r.(rest := r.rest - |piece|)];
    }

    /** The data movement of a put: to the readers first, then into the buffer. */
    method MoveOut(c: PutCall, k: nat, ghost t: State) returns (written: nat)
      requires Holds(st) && Hungry(readers) && k == FullyServed(ReaderSizes(readers), |c.data|) && AfterPut(st, c, t)
      modifies this`readers, this`received, buffer, buffer.data
      ensures buffer.Valid() && written == PutCount(st, c) <= |c.data|
      ensures t.ring == buffer.ring && t.readers == readers && Received(received, t.delivered)
    {
      var num := FeedReaders(c.data, k);
      var more := buffer.Put(c.data[num..]);
      assert c.data[num..][..more] == c.data[num..num + more];
      written := num + more;
    }

    /** `_k_pipe_put_internal` for a synchronous caller, up to the point where it returns or pends. */
    method PutInternal(c: PutCall) returns (written: nat, r: Outcome)
      requires Holds(st) && WaitInv(st) && c.minXfer <= |c.data|
      modifies this`readers, this`writers, this`received, buffer, buffer.data
      ensures Holds(PutStep(st, c))
      ensures r == IoError <==> PutRefused(st, c)
      ensures r == Pending <==> c.wait && PutCount(st, c) < |c.data|
      ensures r != TryAgain
      ensures written == if r == IoError then 0 else PutCount(st, c)
    {
      DemandSum(readers);
      var ok, k := XferPrepare(ReaderSizes(readers), buffer.data.Length - buffer.bytesUsed, |c.data|, c.minXfer, c.wait);
      if !ok {
        return 0, IoError;
      }
      PutStepIs(st, c);
      written, r := PutAccepted(c, k, PutStep(st, c));
    }

    method PutAccepted(c: PutCall, k: nat, ghost t: State) returns (written: nat, r: Outcome)
      requires Holds(st) && Hungry(readers) && k == FullyServed(ReaderSizes(readers), |c.data|) && AfterPut(st, c, t)
      requires !c.wait ==> c.minXfer <= PutCount(st, c)
      modifies this`readers, this`writers, this`received, buffer, buffer.data
      ensures Holds(t)
      ensures r != IoError && r != TryAgain && (r == Pending <==> c.wait && PutCount(st, c) < |c.data|)
      ensures written == PutCount(st, c)
    {
      written := MoveOut(c, k, t);
      r := PendOrReturn(c, written);
    }

    /** The end of a put: return if all data is handed over, otherwise pend if allowed. */
    method PendOrReturn(c: PutCall, written: nat) returns (r: Outcome)
      requires written <= |c.data|
      modifies this`writers
      ensures writers == Pended(old(writers), c, c.data[written..])
      ensures r == if written == |c.data| then Success else if c.wait then Pending
                   else ReturnCode(c.minXfer, |c.data| - written, |c.data|)
    {
      if written == |c.data| {
        r := Success;
      } else if c.wait {
        writers := Pend(writers, Waiter(c.id, c.prio, c.data[written..]));
        r := Pending;
      } else {
        r := ReturnCode(c.minXfer, |c.data| - written, |c.data|);
      }
    }

    /**
      `k_pipe_put`, up to the point where it returns or pends. It fails exactly if it must not wait and the bytes that
      readers want and the room in the ring are fewer than its minimum; a failed put changes nothing.
     */
    method Put(c: PutCall) returns (written: nat, r: Outcome)
      requires Valid() && c.id !in st.puts && c.minXfer <= |c.data|
      modifies this, buffer, buffer.data
      ensures r == IoError <==> !c.wait && Demand(old(st.readers)) + (old(st.size) - |old(st.ring)|) < c.minXfer
      ensures PutAnswer(old(st), c, st, written, r)
      ensures Valid() && st == PutStep(old(st), c)
    {
      ghost var s := st;
      written, r := PutValid(c);
      PutTold(s, c, written, r);
    }

    method PutValid(c: PutCall) returns (written: nat, r: Outcome)
      requires Valid() && c.id !in st.puts && c.minXfer <= |c.data|
      modifies this, buffer, buffer.data
      ensures Valid() && st == PutStep(old(st), c)
      ensures r == IoError <==> PutRefused(old(st), c)
      ensures r == Pending <==> c.wait && PutCount(old(st), c) < |c.data|
      ensures r != TryAgain
      ensures written == if r == IoError then 0 else PutCount(old(st), c)
    {
      PutKeepsInv(st, c);
      written, r := PutInternal(c);
      st := PutStep(st, c);
    }

    /** The buffer is being refilled at the cursor `p`: nothing is lost, and the room left is accounted for. */
    ghost predicate Refilling(p: Cursor, out: seq<Byte>, all: seq<Byte>)
      reads this, buffer, buffer.data
    {
      && buffer.Valid() && all == out + buffer.ring + p.Rest()
      && (p.writers != [] ==> Balanced(buffer.data.Length, buffer.ring, out, p.taken))
    }

    /** Put what is left of the writer at hand into the buffer, as far as it fits. */
    method PutFrom(cur: seq<Byte>, ghost p: Cursor, ghost out: seq<Byte>, ghost all: seq<Byte>)
      returns (rest: seq<Byte>, ghost r: Cursor)
      requires p.at < |p.writers| && p.cur == cur && Refilling(p, out, all)
      modifies buffer, buffer.data
      ensures Refilling(r, out, all) && r.writers == p.writers && r.at == p.at && r.cur == rest
      ensures rest == [] || |buffer.ring| == buffer.data.Length
      ensures |cur| <= |out| - p.taken ==> rest == []
    {
      ghost var ring := buffer.ring;
      var x := buffer.Put(cur);
      r := Take(p, x);
      rest := cur[x..];
      Regrouped(out, ring, cur[..x], r.Rest());
    }

    /** The part of `k_pipe_get` that refills the buffer from the waiting writers. */
    method RefillBuffer(q: seq<Writer>, k: nat, i0: nat, cur0: seq<Byte>, ghost p0: Cursor,
                        ghost out: seq<Byte>, ghost all: seq<Byte>)
      returns (cur: seq<Byte>, ghost p: Cursor)
      requires i0 <= k <= |q| && p0.writers == q && p0.at == i0 && p0.cur == cur0 && Refilling(p0, out, all)
      requires i0 < k ==> SupplyOfFirst(q, k) <= |out|
      modifies buffer, buffer.data
      ensures Refilling(p, out, all) && p.writers == q && p.at == k && p.cur == cur
      ensures cur == [] || |buffer.ring| == buffer.data.Length
    {
      var i := i0;
      cur, p := cur0, p0;
      while i < k
        invariant i0 <= i <= k && p.writers == q && p.at == i && p.cur == cur && Refilling(p, out, all)
      {
        RoomFor(p, k, |out|);
        cur, p := PutFrom(cur, p, out, all);
        p := Next(p);
        i := i + 1;
        cur := Front(q, i);
      }
      if k < |q| {
        cur, p := PutFrom(cur, p, out, all);
      }
    }

    /** The data movement of a get: from the buffer, from the writers, and a refill of the buffer. */
    method MoveIn(c: GetCall, k: nat) returns (out: seq<Byte>)
      requires Holds(st) && WaitInv(st) && k == FullyServed(WriterSizes(writers), c.want)
      modifies this`writers, buffer, buffer.data
      ensures buffer.Valid() && out == Available(st)[..GetCount(st, c)]
      ensures buffer.ring == Refilled(st, GetCount(st, c))
      ensures writers == Drop(st.writers, Taken(st, GetCount(st, c)))
    {
      var q := writers;
      var got := buffer.Get(c.want);
      var cur; ghost var p;
      out, cur, p := EmptyWriters(q, k, c.want, got, Available(st));
      Drained(st, c, k, p, out, buffer.ring);
      writers := if k == |q| then [] else [q[k].(rest := cur)] + q[k + 1..];
    }

    /** The part of a get that deals with waiting writers: to the caller first, then into the buffer. */
    method EmptyWriters(q: seq<Writer>, k: nat, want: nat, got: seq<Byte>, ghost all: seq<Byte>)
      returns (out: seq<Byte>, cur: seq<Byte>, ghost p: Cursor)
      requires buffer.Valid() && Busy(q) && k == FullyServed(WriterSizes(q), want)
      requires all == got + buffer.ring + Supply(q) && |got| <= want && (|got| < want ==> buffer.ring == [])
      requires q != [] ==> buffer.data.Length - |buffer.ring| == |got|
      modifies buffer, buffer.data
      ensures buffer.Valid() && k <= |q| && all == out + buffer.ring + p.Rest()
      ensures p.writers == q && p.at == k && p.cur == cur
      ensures |out| <= want && (|out| < want ==> buffer.ring == [])
      ensures k < |q| ==> cur != [] && |buffer.ring| == buffer.data.Length && |out| == want
    {
      var i;
      out, i, cur, p := DrainWriters(q, k, want, got);
      PastTheRing(got, Supply(q), out, p.Rest(), buffer.ring);
      AfterDraining(p, k, want, |out|);
      cur, p := RefillBuffer(q, k, i, cur, p, out, all);
      AfterRefilling(p, k, want, |out|);
    }

    /** `k_pipe_get` on the fields. */
    method GetInternal(c: GetCall) returns (read: nat, r: Outcome)
      requires Holds(st) && WaitInv(st) && c.minXfer <= c.want
      modifies this`readers, this`writers, this`received, buffer, buffer.data
      ensures Holds(GetStep(st, c))
      ensures r == IoError <==> GetRefused(st, c)
      ensures r == Pending <==> c.wait && GetCount(st, c) < c.want
      ensures r != TryAgain
      ensures read == if r == IoError then 0 else GetCount(st, c)
    {
      SupplySum(writers);
      var ok, k := XferPrepare(WriterSizes(writers), buffer.bytesUsed, c.want, c.minXfer, c.wait);
      if !ok {
        return 0, IoError;
      }
      read, r := GetAccepted(c, k);
    }

    method GetAccepted(c: GetCall, k: nat) returns (read: nat, r: Outcome)
      requires Holds(st) && WaitInv(st) && !GetRefused(st, c) && k == FullyServed(WriterSizes(writers), c.want)
      requires !c.wait ==> c.minXfer <= GetCount(st, c)
      modifies this`readers, this`writers, this`received, buffer, buffer.data
      ensures Holds(GetStep(st, c))
      ensures r != IoError && r != TryAgain && (r == Pending <==> c.wait && GetCount(st, c) < c.want)
      ensures read == GetCount(st, c)
    {
      var out := MoveIn(c, k);
      Deliver(c.id, out, st.delivered);
      read := |out|;
      r := QueueOrReturn(c, read);
    }

    /** The end of a get: return if the request is met, otherwise pend if allowed. */
    method QueueOrReturn(c: GetCall, read: nat) returns (r: Outcome)
      requires read <= c.want
      modifies this`readers
      ensures readers == Queued(old(readers), c, c.want - read)
      ensures r == if read == c.want then Success else if c.wait then Pending
                   else ReturnCode(c.minXfer, c.want - read, c.want)
    {
      if read == c.want {
        r := Success;
      } else if c.wait {
        readers := Pend(readers, Waiter(c.id, c.prio, c.want - read));
        r := Pending;
      } else {
        r := ReturnCode(c.minXfer, c.want - read, c.want);
      }
    }

    /**
      `k_pipe_get`, up to the point where it returns or pends. It fails exactly if it must not wait and ring and writers
      have less than its minimum; a failed get changes nothing.
     */
    method Get(c: GetCall) returns (read: nat, r: Outcome)
      requires Valid() && c.id !in st.gets && c.minXfer <= c.want
      modifies this, buffer, buffer.data
      ensures r == IoError <==> !c.wait && |old(st.ring)| + |Supply(old(st.writers))| < c.minXfer
      ensures GetAnswer(old(st), c, st, read, r)
      ensures Valid() && st == GetStep(old(st), c)
    {
      ghost var s := st;
      read, r := GetValid(c);
      GetTold(s, c, read, r);
    }

    method GetValid(c: GetCall) returns (read: nat, r: Outcome)
      requires Valid() && c.id !in st.gets && c.minXfer <= c.want
      modifies this, buffer, buffer.data
      ensures Valid() && st == GetStep(old(st), c)
      ensures r == IoError <==> GetRefused(old(st), c)
      ensures r == Pending <==> c.wait && GetCount(old(st), c) < c.want
      ensures r != TryAgain
      ensures read == if r == IoError then 0 else GetCount(old(st), c)
    {
      GetKeepsInv(st, c);
      read, r := GetInternal(c);
      st := GetStep(st, c);
    }

    /** A pended writer times out; `put` is its call. What it reports is what the pipe accepted from it. */
    method WriterTimesOut(put: PutCall) returns (written: nat, r: Outcome)
      requires Valid() && put.id in st.puts && st.puts[put.id] == put.data && Waits(writers, put.id)
      modifies this`writers, this`st
      ensures Valid() && st == WriterTimeout(old(st), put.id)
      ensures exists n :: 0 <= n < |old(writers)| && old(writers)[n].id == put.id
                          && writers == old(writers)[..n] + old(writers)[n + 1..]
      ensures written == |Of(st.accepted, put.id)|
      ensures r == if written >= put.minXfer then Success else TryAgain
    {
      WriterTimeoutKeepsInv(st, put.id);
      WaitingWriter(st, put.id);
      ghost var n := RemoveIs(writers, put.id);
      var remaining := LeaveWriters(put.id);
      written := |put.data| - remaining;
      r := ReturnCode(put.minXfer, remaining, |put.data|);
      st := WriterTimeout(st, put.id);
    }

    method LeaveWriters(id: nat) returns (remaining: nat)
      requires Holds(st) && Waits(writers, id)
      modifies this`writers
      ensures Holds(WriterTimeout(st, id)) && remaining == |Left(st.writers, id)|
    {
      remaining := |Left(writers, id)|;
      writers := Remove(writers, id);
    }

    /** A pended reader times out. */
    method ReaderTimesOut(get: GetCall) returns (read: nat, r: Outcome)
      requires Valid() && get.id in st.gets && st.gets[get.id] == get.want && Waits(readers, get.id)
      modifies this`readers, this`st
      ensures Valid() && st == ReaderTimeout(old(st), get.id)
      ensures exists n :: 0 <= n < |old(readers)| && old(readers)[n].id == get.id
                          && readers == old(readers)[..n] + old(readers)[n + 1..]
      ensures read == |Of(st.delivered, get.id)|
      ensures r == if read >= get.minXfer then Success else TryAgain
    {
      ghost var after := ReaderTimeout(st, get.id);
      assert Inv(after) by { ReaderTimeoutKeepsInv(st, get.id); }
      WaitingReader(st, get.id);
      ghost var n := RemoveIs(readers, get.id);
      assert after.delivered == st.delivered;
      read, r := LeaveReaders(get);
      st := after;
    }

    method LeaveReaders(get: GetCall) returns (read: nat, r: Outcome)
      requires Holds(st) && Waits(readers, get.id)
      requires |Of(st.delivered, get.id)| == get.want - Wanted(st.readers, get.id)
      modifies this`readers
      ensures Holds(ReaderTimeout(st, get.id)) && read == |Of(st.delivered, get.id)|
      ensures r == if read >= get.minXfer then Success else TryAgain
    {
      var remaining := Wanted(readers, get.id);
      readers := Remove(readers, get.id);
      read := get.want - remaining;
      r := ReturnCode(get.minXfer, remaining, get.want);
    }
  }

  /** What a put tells its caller, and what it leaves behind: nothing has changed, or all that fits is handed over. */
  ghost predicate PutAnswer(s: State, c: PutCall, t: State, written: nat, r: Outcome)
    requires |s.ring| <= s.size
  {
    if r == IoError then
      written == 0 && t.ring == s.ring && t.readers == s.readers && t.writers == s.writers && t.delivered == s.delivered
    else
      && HandedOver(s, c, t)
      && written == Min(|c.data|, Demand(s.readers) + (s.size - |s.ring|))
      && r == if c.wait && written < |c.data| then Pending else Success
  }

  ghost predicate GetAnswer(s: State, c: GetCall, t: State, read: nat, r: Outcome) {
    if r == IoError then
      read == 0 && t.ring == s.ring && t.readers == s.readers && t.writers == s.writers && t.delivered == s.delivered
    else
      && Fetched(s, c, t)
      && read == Min(c.want, |s.ring| + |Supply(s.writers)|)
      && r == if c.wait && read < c.want then Pending else Success
  }

  lemma PutTold(s: State, c: PutCall, written: nat, r: Outcome)
    requires WaitInv(s) && c.minXfer <= |c.data| && r != TryAgain
    requires (r == IoError <==> PutRefused(s, c)) && (r == Pending <==> c.wait && PutCount(s, c) < |c.data|)
    requires written == if r == IoError then 0 else PutCount(s, c)
    ensures r == IoError <==> !c.wait && Demand(s.readers) + (s.size - |s.ring|) < c.minXfer
    ensures PutAnswer(s, c, PutStep(s, c), written, r)
  {
    if r != IoError {
      PutSucceeds(s, c);
      PutMoves(s, c, PutStep(s, c));
    }
  }

  lemma GetTold(s: State, c: GetCall, read: nat, r: Outcome)
    requires WaitInv(s) && c.minXfer <= c.want && r != TryAgain
    requires (r == IoError <==> GetRefused(s, c)) && (r == Pending <==> c.wait && GetCount(s, c) < c.want)
    requires read == if r == IoError then 0 else GetCount(s, c)
    ensures r == IoError <==> !c.wait && |s.ring| + |Supply(s.writers)| < c.minXfer
    ensures GetAnswer(s, c, GetStep(s, c), read, r)
  {
    if r != IoError {
      GetSucceeds(s, c);
    }
  }

  /** A writer that was chosen fits into what the caller took from elsewhere. */
  lemma RoomFor(p: Cursor, k: nat, n: nat)
    requires p.at < k <= |p.writers| && SupplyOfFirst(p.writers, k) <= n
    ensures |p.cur| <= n - p.taken
  {
    CursorPosition(p);
    SupplyOfFirstGrows(p.writers, p.at + 1, k);
  }

  /** A caller that is still short has emptied all writers. */
  lemma AfterDraining(p: Cursor, k: nat, want: nat, got: nat)
    requires k == FullyServed(WriterSizes(p.writers), want) && p.at <= k && p.taken <= got <= want
    requires got < want ==> p.at == k && p.cur == []
    ensures got < want ==> k == |p.writers| && p.taken == |Supply(p.writers)|
    ensures p.at < k ==> SupplyOfFirst(p.writers, k) <= got
  {
    ServedFits(p.writers, want);
    CursorPosition(p);
  }

  /** The writer behind those that were chosen is not emptied. */
  lemma AfterRefilling(p: Cursor, k: nat, want: nat, got: nat)
    requires k == FullyServed(WriterSizes(p.writers), want) && p.at == k && got <= want
    ensures k < |p.writers| && p.taken <= got ==> p.cur != []
    ensures k == |p.writers| ==> p.taken == |Supply(p.writers)|
  {
    ServedFits(p.writers, want);
    CursorPosition(p);
  }

  /** At the end of a get: the caller has the front of what was available, the ring the next bytes. */
  lemma Drained(s: State, c: GetCall, k: nat, p: Cursor, out: seq<Byte>, ring: seq<Byte>)
    requires WaitInv(s) && Available(s) == out + ring + p.Rest() && p.writers == s.writers && p.at == k
    requires |ring| <= s.size && |out| <= c.want
    requires k < |s.writers| ==> p.cur != [] && |ring| == s.size && |out| == c.want
    requires |out| < c.want ==> ring == []
    ensures out == Available(s)[..GetCount(s, c)] && ring == Refilled(s, GetCount(s, c))
    ensures Drop(s.writers, Taken(s, GetCount(s, c)))
         == if k == |s.writers| then [] else [s.writers[k].(rest := p.cur)] + s.writers[k + 1..]
  {
    var all, rest := Available(s), p.Rest();
    RestLength(p);
    FrontOf(all, out, ring, rest);
    Lengths(|all|, |out|, |ring|, |rest|, s.size, c.want);
    assert p.taken == Taken(s, GetCount(s, c));
  }

  lemma RestLength(p: Cursor)
    ensures |p.Rest()| == |Supply(p.writers)| - p.taken
    ensures p.at == |p.writers| ==> p.Rest() == []
    ensures p.at < |p.writers| && p.cur != [] ==> p.Remaining() == [p.writers[p.at].(rest := p.cur)] + p.writers[p.at + 1..]
  {
  }

  lemma Lengths(all: nat, out: nat, ring: nat, rest: nat, size: nat, want: nat)
    requires all == out + ring + rest && ring <= size && out <= want
    requires rest > 0 ==> ring == size && out == want
    requires out < want ==> ring == 0
    ensures out == Min(want, all) && ring == Min(size, all - out)
  {
  }

  lemma FrontOf(all: seq<Byte>, out: seq<Byte>, ring: seq<Byte>, rest: seq<Byte>)
    requires all == out + ring + rest
    ensures all[..|out|] == out && all[|out|..][..|ring|] == ring
  {
  }

  lemma Regrouped(out: seq<Byte>, ring: seq<Byte>, piece: seq<Byte>, rest: seq<Byte>)
    ensures out + ring + (piece + rest) == out + (ring + piece) + rest
  {
  }

  /** While writers are emptied, the room in the buffer is what the caller got and did not come from them. */
  predicate Balanced(size: nat, ring: seq<Byte>, out: seq<Byte>, taken: nat) {
    size - |ring| == |out| - taken
  }

  // ---------- emptying the writers ----------

  /** Copy from the writer at hand until it is empty or the caller has enough. */
  method CopyDirect(cur: seq<Byte>, out: seq<Byte>, want: nat, ghost p: Cursor)
    returns (more: seq<Byte>, rest: seq<Byte>, ghost r: Cursor)
    requires p.at < |p.writers| && p.cur == cur && |out| < want
    ensures r.writers == p.writers && r.at == p.at && r.cur == rest && out + p.Rest() == more + r.Rest()
    ensures |more| - |out| == r.taken - p.taken >= 0 && |more| <= want
    ensures |more| < want ==> rest == []
  {
    var x := Min(want - |out|, |cur|);
    r := Take(p, x);
    more, rest := out + cur[..x], cur[x..];
    Reassociated(out, cur[..x], r.Rest());
  }

  lemma Reassociated(out: seq<Byte>, piece: seq<Byte>, rest: seq<Byte>)
    ensures out + (piece + rest) == out + piece + rest
  {
  }

  /** The part of `k_pipe_get` that copies from waiting writers to the caller. */
  method DrainWriters(q: seq<Writer>, k: nat, want: nat, got: seq<Byte>)
    returns (out: seq<Byte>, i: nat, cur: seq<Byte>, ghost p: Cursor)
    requires Busy(q) && k <= |q| && |got| <= want
    ensures i <= k && p.writers == q && p.at == i && p.cur == cur && out + p.Rest() == got + Supply(q)
    ensures |out| == |got| + p.taken <= want && (|out| < want ==> i == k && cur == [])
  {
    out, i, cur, p := got, 0, Front(q, 0), Start(q);
    ghost var stream := got + Supply(q);
    while i < k && |out| < want
      invariant i <= k && p.writers == q && p.at == i && p.cur == cur
      invariant out + p.Rest() == stream && |out| == |got| + p.taken <= want
      decreases k - i, want - |out|
    {
      out, cur, p := CopyDirect(cur, out, want, p);
      if |out| == want {
        break;
      }
      p := Next(p);
      i := i + 1;
      cur := Front(q, i);
    }
    if i < |q| && |out| < want {
      out, cur, p := CopyDirect(cur, out, want, p);
    }
  }

  /** Bytes go past the ring to the caller only while the ring is empty. */
  lemma PastTheRing(got: seq<Byte>, supply: seq<Byte>, out: seq<Byte>, rest: seq<Byte>, ring: seq<Byte>)
    requires out + rest == got + supply && (ring == [] || |out| == |got|)
    ensures got + ring + supply == out + ring + rest
  {
    if ring == [] {
      assert got + ring == got && out + ring == out;
    } else {
      assert out == (out + rest)[..|out|] == (got + supply)[..|got|] == got;
      assert rest == (out + rest)[|out|..] == (got + supply)[|got|..] == supply;
    }
  }

  /**
    The copying loop at reader `i`: `num` of the `m` bytes are out, and the readers and the
    log will be what serving the readers from `i` on makes of them.
   */
  ghost predicate Feeding(q: seq<Reader>, data: seq<Byte>, i: nat, num: nat, k: nat, m: nat,
                          served: seq<Reader>, all: seq<Tagged>, log: seq<Tagged>)
  {
    && i <= k <= |q| && num <= m <= |data|
    && k - i == FullyServed(ReaderSizes(q[i..]), |data| - num)
    && m - num == Min(|data| - num, Demand(q[i..]))
    && served == Serve(q[i..], m - num)
    && all == log + ServeLog(q[i..], data[num..m])
  }

  lemma FeedingStart(q: seq<Reader>, data: seq<Byte>, k: nat, log: seq<Tagged>)
    requires k == FullyServed(ReaderSizes(q), |data|)
    ensures var m := Min(|data|, Demand(q));
            Feeding(q, data, 0, 0, k, m, Serve(q, m), log + ServeLog(q, data[..m]), log)
  {
    var m := Min(|data|, Demand(q));
    assert q[0..] == q && data[0..m] == data[..m];
  }

  lemma FeedingStep(q: seq<Reader>, data: seq<Byte>, i: nat, num: nat, k: nat, m: nat,
                    served: seq<Reader>, all: seq<Tagged>, log: seq<Tagged>)
    requires Feeding(q, data, i, num, k, m, served, all, log) && i < k
    ensures num + q[i].rest <= m
    ensures Feeding(q, data, i + 1, num + q[i].rest, k, m, served, all,
                    log + Tag(q[i].id, data[num..num + q[i].rest]))
  {
    var tail, now := q[i..], data[num..m];
    assert tail[1..] == q[i + 1..] && tail[0] == q[i];
    assert ReaderSizes(tail)[1..] == ReaderSizes(q[i + 1..]);
    assert ReaderSizes(tail)[0] == q[i].rest;
    var next := num + q[i].rest;
    assert now[..q[i].rest] == data[num..next] && now[q[i].rest..] == data[next..m];
  }

  /** Of the readers left, the first gets the rest of the data. */
  ghost predicate Fed(tail: seq<Reader>, data: seq<Byte>, num: nat, m: nat,
                      served: seq<Reader>, all: seq<Tagged>, log: seq<Tagged>)
  {
    num <= |data| &&
    if tail == [] then num == m && served == [] && all == log
    else m == |data| && |data| - num < tail[0].rest
         && served == tail[0 := tail[0].(rest := tail[0].rest - (m - num))]
         && all == log + Tag(tail[0].id, data[num..])
  }

  lemma FeedingEnd(q: seq<Reader>, data: seq<Byte>, num: nat, k: nat, m: nat,
                   served: seq<Reader>, all: seq<Tagged>, log: seq<Tagged>)
    requires Feeding(q, data, k, num, k, m, served, all, log) && Hungry(q)
    ensures Fed(q[k..], data, num, m, served, all, log)
  {
    var tail := q[k..];
    if k < |q| {
      assert tail[0] == q[k] && ReaderSizes(tail)[0] == q[k].rest;
      assert data[num..m] == data[num..];
    }
  }
}
