/**
  The pipe's circular buffer, filled and drained in at most two runs.
 */
module PipeBuffer {
  import opened Arithmetic
  import opened PipeStream

  /** Position `k` places behind `start`, around the end of the buffer. */
  function Wrap(size: nat, start: nat, k: nat): int {
    if start + k < size then start + k else start + k - size
  }

  /** The `|ring|` bytes from `read` on, around the end, are `ring`. */
  ghost predicate RingHolds(buf: seq<Byte>, read: nat, ring: seq<Byte>) {
    && |ring| <= |buf| && (read < |buf| || (read == 0 && buf == []))
    && forall k :: 0 <= k < |ring| ==> buf[Wrap(|buf|, read, k)] == ring[k]
  }

  /** Where the next byte goes. */
  function WriteAt(size: nat, read: nat, used: nat): int {
    if size == 0 then 0 else Wrap(size, read, used)
  }

  function Splice(buf: seq<Byte>, at: nat, piece: seq<Byte>): seq<Byte>
    requires at + |piece| <= |buf|
  {
    buf[..at] + piece + buf[at + |piece|..]
  }

  /** A run written behind the contents extends them. */
  lemma RingAppend(buf: seq<Byte>, read: nat, ring: seq<Byte>, piece: seq<Byte>)
    requires RingHolds(buf, read, ring)
    requires |ring| + |piece| <= |buf| && WriteAt(|buf|, read, |ring|) + |piece| <= |buf|
    ensures WriteAt(|buf|, read, |ring|) >= 0
    ensures RingHolds(Splice(buf, WriteAt(|buf|, read, |ring|), piece), read, ring + piece)
  {
    var at := WriteAt(|buf|, read, |ring|);
    var after := Splice(buf, at, piece);
    forall k | 0 <= k < |ring| + |piece| ensures after[Wrap(|buf|, read, k)] == (ring + piece)[k] {
      if k < |ring| {
        assert Wrap(|buf|, read, k) < at || at + |piece| <= Wrap(|buf|, read, k);
      } else {
        assert Wrap(|buf|, read, k) == at + (k - |ring|);
      }
    }
  }

  /** What is left to do with the write index after a run. */
  lemma WriteMoves(size: nat, read: nat, used: nat, n: nat)
    requires (read < size || (read == 0 && size == 0)) && used + n <= size && WriteAt(size, read, used) + n <= size
    ensures 0 <= WriteAt(size, read, used)
    ensures WriteAt(size, read, used + n)
         == if WriteAt(size, read, used) + n == size then 0 else WriteAt(size, read, used) + n
  {
  }

  lemma ReadMoves(size: nat, read: nat, used: nat, n: nat)
    requires read < size && n <= used <= size && read + n <= size
    ensures Wrap(size, read, n) == if read + n == size then 0 else read + n
    ensures WriteAt(size, Wrap(size, read, n), used - n) == WriteAt(size, read, used)
  {
  }

  /** The bytes up to the end of the buffer are the first of the contents. */
  lemma RunIsFront(buf: seq<Byte>, read: nat, ring: seq<Byte>, n: nat)
    requires RingHolds(buf, read, ring) && n <= |ring| && read + n <= |buf|
    ensures buf[read..read + n] == ring[..n]
  {
    forall k | 0 <= k < n ensures buf[read + k] == ring[k] {
      assert Wrap(|buf|, read, k) == read + k;
    }
  }

  lemma FrontAndRest(s: seq<Byte>, n: nat)
    requires n <= |s|
    ensures s == s[..n] + s[n..]
  {
  }

  lemma RingDrop(buf: seq<Byte>, read: nat, ring: seq<Byte>, n: nat)
    requires RingHolds(buf, read, ring) && n <= |ring| && buf != []
    ensures RingHolds(buf, Wrap(|buf|, read, n), ring[n..])
  {
    forall k | 0 <= k < |ring| - n ensures buf[Wrap(|buf|, Wrap(|buf|, read, n), k)] == ring[n..][k] {
      assert Wrap(|buf|, Wrap(|buf|, read, n), k) == Wrap(|buf|, read, n + k);
    }
  }

  class Buffer {
    const data: array<Byte>
    var bytesUsed: nat
    var readIndex: nat
    var writeIndex: nat
    /** The bytes in the buffer, oldest first. */
    ghost var ring: seq<Byte>

    ghost predicate Valid()
      reads this, data
    {
      && bytesUsed == |ring| && RingHolds(data[..], readIndex, ring)
      && writeIndex == WriteAt(data.Length, readIndex, bytesUsed)
    }

    /** `k_pipe_init`, for the buffer part. */
    constructor (size: nat)
      ensures Valid() && ring == [] && data.Length == size && fresh(data)
    {
      data := new Byte[size](_ => 0);
      bytesUsed, readIndex, writeIndex, ring := 0, 0, 0, [];
    }

    /** `_pipe_xfer` into the buffer. */
    method CopyIn(at: nat, piece: seq<Byte>)
      requires at + |piece| <= data.Length
      modifies data
      ensures data[..] == Splice(old(data[..]), at, piece)
    {
      for i := 0 to |piece|
        invariant forall k :: 0 <= k < data.Length ==>
                    data[k] == if at <= k < at + i then piece[k - at] else old(data[k])
      {
        data[at + i] := piece[i];
      }
    }

    /** `_pipe_xfer` out of the buffer. */
    method CopyOut(at: nat, n: nat) returns (piece: seq<Byte>)
      requires at + n <= data.Length
      ensures piece == data[at..at + n]
    {
      piece := [];
      for i := 0 to n
        invariant piece == data[at..at + i]
      {
        piece := piece + [data[at + i]];
      }
    }

    /** One round of `_pipe_buffer_put`. */
    method PutRun(src: seq<Byte>) returns (n: nat)
      requires Valid()
      modifies this, data
      ensures Valid() && n <= |src| && ring == old(ring) + src[..n] && readIndex == old(readIndex)
      ensures n == Min(Min(data.Length - |old(ring)|, data.Length - old(writeIndex)), |src|)
      ensures n < |src| ==> |ring| == data.Length || writeIndex == 0
    {
      var run := Min(data.Length - bytesUsed, data.Length - writeIndex);
      n := Min(run, |src|);
      Append(src[..n]);
    }

    /** Copy a run behind the contents, and move the write index. */
    method Append(piece: seq<Byte>)
      requires Valid() && |ring| + |piece| <= data.Length && writeIndex + |piece| <= data.Length
      modifies this, data
      ensures Valid() && ring == old(ring) + piece && readIndex == old(readIndex)
      ensures writeIndex == if old(writeIndex) + |piece| == data.Length then 0 else old(writeIndex) + |piece|
    {
      WriteMoves(data.Length, readIndex, bytesUsed, |piece|);
      RingAppend(data[..], readIndex, ring, piece);
      CopyIn(writeIndex, piece);
      ring := ring + piece;
      bytesUsed := bytesUsed + |piece|;
      writeIndex := writeIndex + |piece|;
      if writeIndex == data.Length {
        writeIndex := 0;
      }
    }

    /** `_pipe_buffer_put`: as much of `src` as fits is appended. */
    method Put(src: seq<Byte>) returns (n: nat)
      requires Valid()
      modifies this, data
      ensures Valid() && n == Min(|src|, data.Length - |old(ring)|)
      ensures ring == old(ring) + src[..n]
    {
      n := PutRun(src);
      var more := PutRun(src[n..]);
      assert src[..n] + src[n..][..more] == src[..n + more];
      n := n + more;
    }

    /** One round of `_pipe_buffer_get`. */
    method GetRun(want: nat) returns (piece: seq<Byte>)
      requires Valid()
      modifies this
      ensures Valid() && |piece| <= want && old(ring) == piece + ring
      ensures |piece| == Min(Min(|old(ring)|, data.Length - old(readIndex)), want)
      ensures |piece| < want ==> ring == [] || readIndex == 0
    {
      var run := Min(bytesUsed, data.Length - readIndex);
      var n := Min(run, want);
      piece := CopyOut(readIndex, n);
      RunIsFront(data[..], readIndex, ring, n);
      FrontAndRest(ring, n);
      Discard(n);
    }

    /** Move the read index behind a run. */
    method Discard(n: nat)
      requires Valid() && n <= |ring| && readIndex + n <= data.Length
      modifies this
      ensures Valid() && ring == old(ring)[n..]
      ensures readIndex == if old(readIndex) + n == data.Length then 0 else old(readIndex) + n
    {
      if data.Length > 0 {
        ReadMoves(data.Length, readIndex, bytesUsed, n);
        RingDrop(data[..], readIndex, ring, n);
      }
      ring := ring[n..];
      bytesUsed := bytesUsed - n;
      readIndex := readIndex + n;
      if readIndex == data.Length {
        readIndex := 0;
      }
    }

    /** `_pipe_buffer_get`: the oldest bytes, up to `want`. */
    method Get(want: nat) returns (out: seq<Byte>)
      requires Valid()
      modifies this
      ensures Valid() && |out| == Min(want, |old(ring)|)
      ensures old(ring) == out + ring
    {
      out := GetRun(want);
      var more := GetRun(want - |out|);
      out := out + more;
    }
  }
}
