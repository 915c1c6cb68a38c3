/**
  `ChunkVecBuffer`: a byte queue kept as a queue of non-empty chunks.  `Contents` is the flat
  queue it stands for; every method is specified by what it does to that.
 */
module VecBuf {
  import opened Bytes

  /** `s` without its first `n` elements. */
  function Drop<T>(s: seq<T>, n: nat): seq<T> {
    if n <= |s| then s[n..] else []
  }

  ghost predicate NoEmptyChunk(chunks: seq<seq<byte>>) {
    forall i :: 0 <= i < |chunks| ==> chunks[i] != []
  }

  /** How much of a `len`-byte append fits when `used` bytes are stored. */
  function Fitting(limit: Option<nat>, used: nat, len: nat): (n: nat)
    ensures n <= len
    ensures limit.Some? && used <= limit.value ==> used + n <= limit.value
    ensures n < len ==> limit.Some? && limit.value <= used + n
  {
    match limit
    case None => len
    case Some(max) => Min(len, if used <= max then max - used else 0)
  }

  lemma {:induction false} FlattenHead(chunks: seq<seq<byte>>)
    requires chunks != []
    ensures Flatten(chunks) == chunks[0] + Flatten(chunks[1..])
  {
  }

  lemma {:induction false} FlattenTakePrefix(chunks: seq<seq<byte>>, k: nat)
    requires k <= |chunks|
    ensures Flatten(chunks[..k]) <= Flatten(chunks)
  {
    assert chunks == chunks[..k] + chunks[k..];
    FlattenConcat(chunks[..k], chunks[k..]);
  }

  class ChunkVecBuffer {
    var chunks: seq<seq<byte>>
    var limit: Option<nat>

    ghost predicate Valid()
      reads this
    {
      NoEmptyChunk(chunks)
    }

    ghost function Contents(): seq<byte>
      reads this
    {
      Flatten(chunks)
    }

    constructor (limit: Option<nat>)
      ensures Valid() && chunks == [] && this.limit == limit
    {
      chunks := [];
      this.limit := limit;
    }

    method SetLimit(newLimit: Option<nat>)
      modifies `limit
      ensures limit == newLimit
    {
      limit := newLimit;
    }

    method IsEmpty() returns (r: bool)
      requires Valid()
      ensures r == (Contents() == [])
    {
      r := chunks == [];
      if !r {
        FlattenHead(chunks);
      }
    }

    method Len() returns (n: nat)
      ensures n == |Contents()|
    {
      n := 0;
      var i := 0;
      assert chunks[..|chunks|] == chunks;
      while i < |chunks|
        invariant 0 <= i <= |chunks|
        invariant n == |Flatten(chunks[..i])|
      {
        FlattenSnoc(chunks[..i], chunks[i]);
        assert chunks[..i + 1] == chunks[..i] + [chunks[i]];
        n := n + |chunks[i]|;
        i := i + 1;
      }
    }

    method IsFull() returns (r: bool)
      ensures r <==> limit.Some? && |Contents()| > limit.value
    {
      match limit
      case None => r := false;
      case Some(max) =>
        var n := Len();
        r := n > max;
    }

    method ApplyLimit(len: nat) returns (n: nat)
      ensures n == Fitting(limit, |Contents()|, len)
    {
      match limit
      case None => n := len;
      case Some(max) =>
        var used := Len();
        n := Min(len, if used <= max then max - used else 0);
    }

    method Append(bytes: seq<byte>) returns (len: nat)
      requires Valid()
      modifies `chunks
      ensures Valid() && len == |bytes|
      ensures chunks == if bytes == [] then old(chunks) else old(chunks) + [bytes]
      ensures Contents() == old(Contents()) + bytes
    {
      len := |bytes|;
      if bytes != [] {
        FlattenSnoc(chunks, bytes);
        chunks := chunks + [bytes];
      }
    }

    method AppendLimitedCopy(bytes: seq<byte>) returns (take: nat)
      requires Valid()
      modifies `chunks
      ensures Valid() && take == Fitting(limit, |old(Contents())|, |bytes|)
      ensures chunks == if take == 0 then old(chunks) else old(chunks) + [bytes[..take]]
      ensures Contents() == old(Contents()) + bytes[..take]
      ensures limit.Some? && |old(Contents())| <= limit.value ==> |Contents()| <= limit.value
    {
      take := ApplyLimit(|bytes|);
      var _ := Append(bytes[..take]);
    }

    method Pop() returns (chunk: Option<seq<byte>>)
      requires Valid()
      modifies `chunks
      ensures Valid()
      ensures chunk.None? ==> old(chunks) == [] && chunks == []
      ensures chunk.Some? ==> chunk.value != [] && old(chunks) == [chunk.value] + chunks
    {
      if chunks == [] {
        return None;
      }
      chunk := Some(chunks[0]);
      chunks := chunks[1..];
    }

    /** Removes the first `used` bytes, popping whole chunks and shortening the last one touched. */
    method Consume(used: nat)
      requires Valid()
      modifies `chunks
      ensures Valid() && Contents() == Drop(old(Contents()), used)
    {
      var rest: nat := used;
      while chunks != []
        invariant Valid()
        invariant Drop(Contents(), rest) == Drop(old(Contents()), used)
        decreases |chunks|
      {
        var buf, tail := chunks[0], chunks[1..];
        FlattenHead(chunks);
        if rest < |buf| {
          chunks := [buf[rest..]] + tail;
          FlattenHead(chunks);
          assert chunks[1..] == tail;
          assert (buf + Flatten(tail))[rest..] == buf[rest..] + Flatten(tail);
          return;
        }
        assert (buf + Flatten(tail))[|buf|..] == Flatten(tail);
        rest := rest - |buf|;
        chunks := tail;
      }
    }

    /** Copies bytes into `buf` until it is full or the queue is empty. */
    method Read(buf: array<byte>) returns (n: nat)
      requires Valid()
      modifies `chunks, buf
      ensures Valid() && n == Min(buf.Length, |old(Contents())|)
      ensures buf[..n] == old(Contents())[..n] && Contents() == old(Contents())[n..]
      ensures buf[n..] == old(buf[n..])
    {
      ghost var was := Contents();
      n := 0;
      while n < buf.Length && chunks != []
        invariant 0 <= n <= buf.Length && n <= |was|
        invariant Valid() && Contents() == was[n..]
        invariant buf[..n] == was[..n]
        invariant forall i :: n <= i < buf.Length ==> buf[i] == old(buf[i])
        decreases buf.Length - n
      {
        FlattenHead(chunks);
        var chunk := chunks[0];
        var used := Min(|chunk|, buf.Length - n);
        ghost var front := buf[..n];
        forall i | 0 <= i < used {
          buf[n + i] := chunk[i];
        }
        assert buf[..n] == front;
        assert chunk[..used] == was[n..n + used];
        assert buf[..n + used] == buf[..n] + chunk[..used];
        Consume(used);
        n := n + used;
      }
      assert chunks == [] ==> n == |was|;
    }

    /**
      Offers at most 64 chunks to the writer, which accepts some number of their bytes or fails.
     */
    method WriteTo(writer: seq<seq<byte>> -> Option<nat>) returns (r: Option<nat>)
      requires Valid()
      requires forall bufs :: writer(bufs).Some? ==> writer(bufs).value <= |Flatten(bufs)|
      modifies `chunks
      ensures Valid()
      ensures old(Contents()) == [] ==> r == Some(0)
      ensures old(Contents()) != [] ==> r == writer(old(chunks)[..Min(64, |old(chunks)|)])
      ensures Flatten(old(chunks)[..Min(64, |old(chunks)|)]) <= old(Contents())
      ensures r.None? ==> chunks == old(chunks)
      ensures r.Some? ==> r.value <= |old(Contents())| && Contents() == old(Contents())[r.value..]
    {
      var empty := IsEmpty();
      FlattenTakePrefix(chunks, Min(64, |chunks|));
      if empty {
        return Some(0);
      }
      var offered := chunks[..Min(64, |chunks|)];
      r := writer(offered);
      if r.Some? {
        Consume(r.value);
      }
    }
  }
}
