/**
  A pass over a wait queue of writers: which writer is being emptied and what is left of
  it, against taking that many bytes from the front of the whole queue. And the choice of
  the waiters that a call can serve in full.
 */
module PipeCursor {
  import opened PipeStream

  function Sum(sizes: seq<nat>): nat {
    if sizes == [] then 0 else sizes[0] + Sum(sizes[1..])
  }

  /** How many waiters from the front can be served in full with `n` bytes. */
  function FullyServed(sizes: seq<nat>, n: nat): (k: nat)
    ensures k <= |sizes|
  {
    if sizes == [] || sizes[0] > n then 0 else 1 + FullyServed(sizes[1..], n - sizes[0])
  }

  function ReaderSizes(q: seq<Reader>): seq<nat> {
    seq(|q|, i requires 0 <= i < |q| => q[i].rest)
  }

  function WriterSizes(q: seq<Writer>): seq<nat> {
    seq(|q|, i requires 0 <= i < |q| => |q[i].rest|)
  }

  lemma {:induction false} DemandSum(q: seq<Reader>)
    ensures Demand(q) == Sum(ReaderSizes(q))
  {
    if q != [] {
      DemandSum(q[1..]);
      assert ReaderSizes(q)[1..] == ReaderSizes(q[1..]);
    }
  }

  lemma {:induction false} SupplySum(q: seq<Writer>)
    ensures |Supply(q)| == Sum(WriterSizes(q))
  {
    if q != [] {
      SupplySum(q[1..]);
      assert WriterSizes(q)[1..] == WriterSizes(q[1..]);
    }
  }

  /** `_pipe_xfer_prepare`: whether the call can go ahead, and how many waiters it serves in full. */
  method XferPrepare(sizes: seq<nat>, pipeSpace: nat, bytesToXfer: nat, minXfer: nat, wait: bool)
    returns (ok: bool, k: nat)
    requires minXfer <= bytesToXfer
    ensures ok <==> wait || Sum(sizes) + pipeSpace >= minXfer
    ensures k == FullyServed(sizes, bytesToXfer)
  {
    ok, k := true, 0;
    if !wait {
      var num, i := 0, 0;
      assert sizes[0..] == sizes;
      while i < |sizes|
        invariant 0 <= i <= |sizes| && num + Sum(sizes[i..]) == Sum(sizes)
      {
        num := num + sizes[i];
        assert sizes[i..][1..] == sizes[i + 1..];
        i := i + 1;
        if num >= bytesToXfer {
          break;
        }
      }
      if num + pipeSpace < minXfer {
        ok := false;
      }
    }
    var num := 0;
    assert sizes[0..] == sizes;
    while k < |sizes|
      invariant 0 <= k <= |sizes| && num <= bytesToXfer
      invariant k + FullyServed(sizes[k..], bytesToXfer - num) == FullyServed(sizes, bytesToXfer)
    {
      if num + sizes[k] > bytesToXfer {
        break;
      }
      num := num + sizes[k];
      assert sizes[k..][1..] == sizes[k + 1..];
      k := k + 1;
    }
  }

  // ---------- the cursor ----------

  lemma {:induction false} DropNothing(q: seq<Writer>)
    requires Busy(q)
    ensures Drop(q, 0) == q
  {
    if q != [] {
      assert q[0].(rest := q[0].rest[0..]) == q[0];
    }
  }

  lemma {:induction false} DropTwice(q: seq<Writer>, a: nat, b: nat)
    ensures Drop(Drop(q, a), b) == Drop(q, a + b)
  {
    if q != [] {
      var w, m := q[0], |q[0].rest|;
      if m <= a {
        DropTwice(q[1..], a - m, b);
      } else {
        var d := Drop(q, a);
        assert d[0].rest == w.rest[a..] && d[1..] == q[1..];
        if a + b < m {
          assert w.rest[a..][b..] == w.rest[a + b..];
        }
      }
    }
  }

  function Front(q: seq<Writer>, i: nat): seq<Byte> {
    if i < |q| then q[i].rest else []
  }

  /** What the writers behind the one at `i` offer. */
  function Behind(q: seq<Writer>, i: nat): seq<Byte> {
    if i < |q| then Supply(q[i + 1..]) else []
  }

  /** A pass over a queue of writers: `taken` bytes are gone, `cur` is left of the writer at `at`. */
  datatype Pass = Pass(writers: seq<Writer>, at: nat, cur: seq<Byte>, taken: nat) {
    /** The queue that remains. */
    function Remaining(): seq<Writer> {
      if at >= |writers| then []
      else if cur == [] then writers[at + 1..]
      else [writers[at].(rest := cur)] + writers[at + 1..]
    }

    /** The bytes that remain. */
    function Rest(): seq<Byte> {
      cur + Behind(writers, at)
    }

    /** What remains is the queue after dropping `taken` bytes. */
    ghost predicate Agrees() {
      && at <= |writers| && (at == |writers| ==> cur == [])
      && taken <= |Supply(writers)|
      && Drop(writers, taken) == Remaining()
      && Supply(writers)[taken..] == Rest()
    }
  }

  type Cursor = p: Pass | Busy(p.writers) && p.Agrees() witness Pass([], 0, [], 0)

  ghost function Start(q: seq<Writer>): (p: Cursor)
    requires Busy(q)
    ensures p == Pass(q, 0, Front(q, 0), 0) && p.Rest() == Supply(q)
  {
    StartAgrees(q);
    Pass(q, 0, Front(q, 0), 0)
  }

  lemma StartAgrees(q: seq<Writer>)
    requires Busy(q)
    ensures Pass(q, 0, Front(q, 0), 0).Agrees() && Pass(q, 0, Front(q, 0), 0).Rest() == Supply(q)
  {
    DropNothing(q);
    assert Pass(q, 0, Front(q, 0), 0).Remaining() == q;
  }

  /** On to the next writer. */
  ghost function Next(p: Cursor): (r: Cursor)
    requires p.at < |p.writers| && p.cur == []
    ensures r == Pass(p.writers, p.at + 1, Front(p.writers, p.at + 1), p.taken) && r.Rest() == p.Rest()
  {
    NextAgrees(p);
    Pass(p.writers, p.at + 1, Front(p.writers, p.at + 1), p.taken)
  }

  lemma NextAgrees(p: Cursor)
    requires p.at < |p.writers| && p.cur == []
    ensures var r := Pass(p.writers, p.at + 1, Front(p.writers, p.at + 1), p.taken);
            r.Agrees() && r.Rest() == p.Rest()
  {
    var q, i := p.writers, p.at + 1;
    var r := Pass(q, i, Front(q, i), p.taken);
    assert r.Rest() == p.Rest() by {
      assert i < |q| ==> q[i..][0] == q[i] && q[i..][1..] == q[i + 1..];
    }
    assert r.Remaining() == q[i..];
  }

  /** Take `x` bytes from the writer at hand. */
  ghost function Take(p: Cursor, x: nat): (r: Cursor)
    requires p.at < |p.writers| && x <= |p.cur|
    ensures r == Pass(p.writers, p.at, p.cur[x..], p.taken + x) && p.Rest() == p.cur[..x] + r.Rest()
  {
    CursorTake(p, x);
    Pass(p.writers, p.at, p.cur[x..], p.taken + x)
  }

  lemma CursorTake(p: Cursor, x: nat)
    requires p.at < |p.writers| && x <= |p.cur|
    ensures var r := Pass(p.writers, p.at, p.cur[x..], p.taken + x);
            r.Agrees() && p.Rest() == p.cur[..x] + r.Rest()
  {
    var q, behind := p.writers, Behind(p.writers, p.at);
    SuffixOf(Supply(q), p.taken, p.cur, behind, x);
    DropTwice(q, p.taken, x);
    RemainingAfter(p, x);
  }

  lemma SuffixOf(all: seq<Byte>, taken: nat, cur: seq<Byte>, behind: seq<Byte>, x: nat)
    requires taken <= |all| && all[taken..] == cur + behind && x <= |cur|
    ensures taken + x <= |all| && all[taken + x..] == cur[x..] + behind
    ensures cur + behind == cur[..x] + (cur[x..] + behind)
  {
    assert all[taken + x..] == all[taken..][x..];
  }

  lemma RemainingAfter(p: Cursor, x: nat)
    requires p.at < |p.writers| && x <= |p.cur|
    ensures Drop(p.Remaining(), x) == Pass(p.writers, p.at, p.cur[x..], p.taken + x).Remaining()
  {
    var w, behind := p.writers[p.at], p.writers[p.at + 1..];
    assert Busy(behind);
    if p.cur == [] {
      DropNothing(behind);
    } else {
      DropFirst(w.(rest := p.cur), behind, x);
      assert w.(rest := p.cur).(rest := p.cur[x..]) == w.(rest := p.cur[x..]);
    }
  }

  lemma DropFirst(w: Writer, behind: seq<Writer>, x: nat)
    requires w.rest != [] && Busy(behind) && x <= |w.rest|
    ensures Drop([w] + behind, x) == if x == |w.rest| then behind else [w.(rest := w.rest[x..])] + behind
  {
    assert ([w] + behind)[1..] == behind;
    DropNothing(behind);
  }

  /** The bytes that the first `j` writers offer. */
  function SupplyOfFirst(q: seq<Writer>, j: nat): int
    requires j <= |q|
  {
    |Supply(q)| - |Supply(q[j..])|
  }

  lemma {:induction false} SupplyOfFirstGrows(q: seq<Writer>, i: nat, j: nat)
    requires i <= j <= |q|
    ensures SupplyOfFirst(q, i) <= SupplyOfFirst(q, j)
    decreases j - i
  {
    if i < j {
      assert q[i..][1..] == q[i + 1..];
      SupplyOfFirstGrows(q, i + 1, j);
    }
  }

  /** The waiters chosen fit into `n` bytes, and one more would not. */
  lemma {:induction false} ServedFits(q: seq<Writer>, n: nat)
    ensures var k := FullyServed(WriterSizes(q), n);
            k <= |q| && SupplyOfFirst(q, k) <= n && (k < |q| ==> SupplyOfFirst(q, k + 1) > n)
  {
    assert q[0..] == q;
    if q != [] {
      ServedNext(q, n);
      SupplyOfNext(q, 0);
      if |q[0].rest| <= n {
        var k := FullyServed(WriterSizes(q[1..]), n - |q[0].rest|);
        ServedFits(q[1..], n - |q[0].rest|);
        SupplyOfNext(q, k);
        if k < |q[1..]| {
          SupplyOfNext(q, k + 1);
        }
      }
    }
  }

  lemma ServedNext(q: seq<Writer>, n: nat)
    requires q != []
    ensures FullyServed(WriterSizes(q), n)
         == if |q[0].rest| > n then 0 else 1 + FullyServed(WriterSizes(q[1..]), n - |q[0].rest|)
  {
    assert WriterSizes(q)[1..] == WriterSizes(q[1..]);
  }

  lemma SupplyOfNext(q: seq<Writer>, j: nat)
    requires j < |q|
    ensures SupplyOfFirst(q, j + 1) == |q[0].rest| + SupplyOfFirst(q[1..], j)
    ensures j == 0 ==> SupplyOfFirst(q, 1) == |q[0].rest|
  {
    assert q[1..][j..] == q[j + 1..];
  }

  lemma CursorPosition(p: Cursor)
    ensures p.taken + |p.cur| == if p.at < |p.writers| then SupplyOfFirst(p.writers, p.at + 1) else |Supply(p.writers)|
    ensures p.taken <= |Supply(p.writers)|
  {
  }
}
