/** Reading an iterator of byte chunks through a buffer (`CooperativeReader`), and a reader on
    top that refuses to go past a limit (`LimitingReader`). */
module Readers {
  import opened Common

  type byte = bv8

  const MAX_COOP_READER_BUFFER_SIZE: nat := 134217728

  datatype Outcome = Bytes(data: seq<byte>) | LimitExceeded

  /** All bytes of a sequence of chunks, in order. */
  ghost function Flat(chunks: seq<seq<byte>>): seq<byte> {
    if chunks == [] then [] else chunks[0] + Flat(chunks[1..])
  }

  class CooperativeReader {
    /** What the underlying iterator still has to yield; empty chunks are possible. */
    var chunks: seq<seq<byte>>
    var buffer: seq<byte>
    var position: nat

    constructor (chunks: seq<seq<byte>>)
      ensures Valid() && Stream() == Flat(chunks)
    {
      this.chunks, buffer, position := chunks, [], 0;
    }

    ghost predicate Valid()
      reads this
    {
      position <= |buffer|
    }

    /** The bytes still to be delivered: the unread part of the buffer, then the chunks. */
    ghost function Stream(): seq<byte>
      requires Valid()
      reads this
    {
      buffer[position..] + Flat(chunks)
    }

    /** What an unsized read gets: the rest of the buffer, or else the next chunk. */
    ghost function Piece(): seq<byte>
      requires Valid()
      reads this
    {
      if position < |buffer| then buffer[position..] else if chunks != [] then chunks[0] else []
    }

    /** The number of bytes that a read takes from the stream. */
    ghost function Due(length: Option<int>): nat
      requires Valid()
      reads this
    {
      if length.None? then |Piece()| else if length.value < 0 then 0 else Min(length.value, |Stream()|)
    }

    /** Request and stream both reach the cap. */
    ghost predicate Refuses(length: Option<int>)
      requires Valid()
      reads this
    {
      && length.Some? && length.value >= MAX_COOP_READER_BUFFER_SIZE
      && |Stream()| >= MAX_COOP_READER_BUFFER_SIZE
    }

    /** `read()` without a length: the rest of the buffer, or else the next chunk as a whole. */
    method ReadSome() returns (r: seq<byte>)
      requires Valid()
      modifies this
      ensures Valid() && r + Stream() == old(Stream())
      ensures r == old(Piece())
      ensures r == [] <==> old(position == |buffer| && (chunks == [] || chunks[0] == []))
    {
      if |buffer| - position > 0 {
        r := buffer[position..];
        buffer, position := [], 0;
      } else if chunks != [] {
        r := chunks[0];
        chunks := chunks[1..];
        buffer, position := [], 0;
      } else {
        r := [];
        buffer, position := [], 0;
      }
    }

    /** Move past a piece of the buffer that has just been added to the result. */
    method Advance(chunk: seq<byte>, ghost all: seq<byte>, ghost result: seq<byte>)
      requires Valid() && chunk <= buffer[position..]
      requires |chunk| <= |result| && result[|result| - |chunk|..] == chunk
      requires result[..|result| - |chunk|] + Stream() == all
      modifies this`position
      ensures Valid() && position == old(position) + |chunk|
      ensures result + Stream() == all
    {
      ghost var before := result[..|result| - |chunk|];
      assert result == before + chunk;
      assert buffer[position..] == chunk + buffer[position + |chunk|..];
      position := position + |chunk|;
    }

    /** Replace a used-up buffer by the next chunk. */
    method NextChunk() returns (more: bool)
      requires Valid() && position == |buffer|
      modifies this
      ensures Valid() && Stream() == old(Stream())
      ensures more ==> |chunks| == |old(chunks)| - 1
      ensures !more ==> Stream() == []
    {
      if chunks == [] {
        buffer, position := [], 0;
        return false;
      }
      buffer, position, chunks := chunks[0], 0, chunks[1..];
      return true;
    }

    /** `read(length)`: chunks are fetched until there is enough or no more. It raises exactly if
        both the request and what is there reach the cap; below that it delivers exactly
        min(length, remaining) bytes. */
    method ReadExactly(length: int) returns (r: Outcome)
      requires Valid()
      modifies this
      ensures Valid()
      ensures r.LimitExceeded?
              <==> length >= MAX_COOP_READER_BUFFER_SIZE && |old(Stream())| >= MAX_COOP_READER_BUFFER_SIZE
      ensures r.Bytes? ==> r.data + Stream() == old(Stream())
      ensures r.Bytes? ==> |r.data| == if length < 0 then 0 else Min(length, |old(Stream())|)
      ensures r.LimitExceeded? ==> exists lost: seq<byte> :: lost + Stream() == old(Stream())
    {
      var result: seq<byte> := [];
      ghost var all := Stream();
      while |result| < length
        invariant Valid() && result + Stream() == all
        invariant |result| == 0 || |result| <= length
        invariant |result| < MAX_COOP_READER_BUFFER_SIZE
        decreases |chunks|, |buffer| - position
      {
        if position < |buffer| {
          var chunk := Peek(length - |result|);
          if |result + chunk| >= MAX_COOP_READER_BUFFER_SIZE {
            return LimitExceeded;
          }
          result := result + chunk;
          Advance(chunk, all, result);
        } else {
          var more := NextChunk();
          if !more {
            return Bytes(result);
          }
        }
      }
      return Bytes(result);
    }

    /** Up to n bytes of the buffer, left there. */
    method Peek(n: nat) returns (chunk: seq<byte>)
      requires Valid() && n > 0
      ensures |chunk| == Min(n, |buffer| - position) && chunk <= buffer[position..]
      ensures |chunk| <= |Stream()|
    {
      var end := if position + n < |buffer| then position + n else |buffer|;
      chunk := buffer[position..end];
    }

    /** Either kind of read. */
    method Read(length: Option<int>) returns (r: Outcome)
      requires Valid()
      modifies this
      ensures Valid()
      ensures r.LimitExceeded? <==> old(Refuses(length))
      ensures r.Bytes? ==> r.data + Stream() == old(Stream()) && |r.data| == old(Due(length))
    {
      if length.Some? {
        r := ReadExactly(length.value);
      } else {
        var data := ReadSome();
        r := Bytes(data);
      }
    }

    /** Any mix of reads below the cap: what was delivered, put together, followed by what is
        left, is the original stream. */
    method ReadMany(requests: seq<Option<int>>) returns (parts: seq<seq<byte>>)
      requires Valid()
      requires forall i :: 0 <= i < |requests| && requests[i].Some? ==> requests[i].value < MAX_COOP_READER_BUFFER_SIZE
      modifies this
      ensures Valid() && |parts| == |requests|
      ensures Flat(parts) + Stream() == old(Stream())
    {
      parts := [];
      for i := 0 to |requests|
        invariant Valid() && |parts| == i
        invariant Flat(parts) + Stream() == old(Stream())
      {
        var r := Read(requests[i]);
        FlatOneMore(parts, r.data);
        parts := parts + [r.data];
      }
    }
  }

  lemma {:induction false} FlatOneMore(parts: seq<seq<byte>>, last: seq<byte>)
    ensures Flat(parts + [last]) == Flat(parts) + last
  {
    if parts == [] {
      assert parts + [last] == [last] && [last][1..] == [];
      assert Flat([last]) == last + Flat([]);
    } else {
      assert (parts + [last])[1..] == parts[1..] + [last];
      FlatOneMore(parts[1..], last);
    }
  }

  class LimitingReader {
    const data: CooperativeReader
    const limit: int
    var bytesRead: nat
    /** How many bytes have been handed out. */
    ghost var delivered: nat

    constructor (data: CooperativeReader, limit: nat)
      requires data.Valid()
      ensures Valid() && this.data == data && this.limit == limit && delivered == 0 && !Exhausted()
    {
      this.data, this.limit, bytesRead, delivered := data, limit, 0, 0;
    }

    ghost predicate Valid()
      reads this, data
    {
      data.Valid() && delivered <= bytesRead && delivered <= limit && (bytesRead <= limit ==> delivered == bytesRead)
    }

    /** The limit has been overrun. */
    ghost predicate Exhausted()
      reads this
    {
      bytesRead > limit
    }

    /** `read`: never more than the limit in total; it raises exactly when the source refuses or the
        bytes just read take the count past the limit, and from then on always. */
    method Read(length: Option<int>) returns (r: Outcome)
      requires Valid()
      modifies this`bytesRead, this`delivered, data
      ensures Valid() && delivered <= limit
      ensures delivered == old(delivered) + if r.Bytes? then |r.data| else 0
      ensures r.Bytes? ==> r.data + data.Stream() == old(data.Stream())
      ensures old(Exhausted()) ==> r.LimitExceeded? && Exhausted()
      ensures r.LimitExceeded? <==> old(data.Refuses(length)) || old(bytesRead + data.Due(length)) > limit
      ensures Exhausted()
              <==> old(Exhausted()) || (!old(data.Refuses(length)) && old(bytesRead + data.Due(length)) > limit)
    {
      r := data.Read(length);
      if r.LimitExceeded? {
        return;
      }
      bytesRead := bytesRead + |r.data|;
      if bytesRead > limit {
        return LimitExceeded;
      }
      delivered := delivered + |r.data|;
    }
  }

  /** Iterating over a `LimitingReader`: the chunks are yielded as long as their total does not
      exceed the limit. */
  method IterateLimited(chunks: seq<seq<byte>>, limit: nat) returns (yielded: seq<seq<byte>>, raised: bool)
    ensures yielded <= chunks && |Flat(yielded)| <= limit
    ensures !raised <==> |Flat(chunks)| <= limit
    ensures !raised ==> yielded == chunks
    ensures raised ==> |yielded| < |chunks| && |Flat(chunks[..|yielded| + 1])| > limit
  {
    yielded := [];
    var bytesRead := 0;
    for i := 0 to |chunks|
      invariant yielded == chunks[..i] && bytesRead == |Flat(yielded)| <= limit
    {
      assert chunks[..i + 1] == chunks[..i] + [chunks[i]];
      FlatOneMore(chunks[..i], chunks[i]);
      bytesRead := bytesRead + |chunks[i]|;
      if bytesRead > limit {
        FlatPrefix(chunks, i + 1);
        return yielded, true;
      }
      yielded := yielded + [chunks[i]];
    }
    assert chunks[..|chunks|] == chunks;
    return yielded, false;
  }

  lemma {:induction false} FlatPrefix(chunks: seq<seq<byte>>, n: nat)
    requires n <= |chunks|
    ensures |Flat(chunks[..n])| <= |Flat(chunks)|
  {
    if n > 0 {
      assert chunks[..n][1..] == chunks[1..][..n - 1];
      FlatPrefix(chunks[1..], n - 1);
    }
  }
}
