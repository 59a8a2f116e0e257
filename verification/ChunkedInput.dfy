/** A byte stream that arrives in chunks of any sizes, behind the two calls of a buffered reader. */
module ChunkedInput {
  import opened ByteStrings

  const NEWLINE: byte := 10

  /** A buffered reader: `filled` is where the chunk read last ends; the next may end anywhere. */
  class ChunkReader {
    const stream: Bytes
    var at: nat
    var filled: nat

    ghost predicate Valid()
      reads this
    {
      at <= filled <= |stream|
    }

    constructor (stream: Bytes)
      ensures Valid() && this.stream == stream && at == 0
    {
      this.stream := stream;
      at, filled := 0, 0;
    }

    /** The unread part of the current chunk, or a new chunk of any size; empty only at the end. */
    method FillBuf() returns (available: Bytes)
      requires Valid()
      modifies this`filled
      ensures Valid() && filled == at + |available|
      ensures forall i :: 0 <= i < |available| ==> available[i] == stream[at + i]
      ensures available == [] <==> at == |stream|
    {
      if at == filled && at < |stream| {
        var end: nat :| at < end <= |stream|;
        filled := end;
      }
      available := stream[at..filled];
    }

    method Consume(n: nat)
      requires Valid() && n <= filled - at
      modifies this`at
      ensures Valid() && at == old(at) + n
    {
      at := at + n;
    }
  }

  // ----- Lines of a byte stream -----

  /** The position of the first newline at or after i, or the end. */
  function LineEnd(s: Bytes, i: nat): (e: nat)
    requires i <= |s|
    ensures i <= e <= |s| && forall k :: i <= k < e ==> s[k] != NEWLINE
    ensures e < |s| ==> s[e] == NEWLINE
    decreases |s| - i
  {
    if i == |s| || s[i] == NEWLINE then i else LineEnd(s, i + 1)
  }

  /** Where the line after the one at i starts. */
  function NextLine(s: Bytes, i: nat): (n: nat)
    requires i <= |s|
    ensures i <= n <= |s| && (i < |s| ==> i < n)
  {
    if LineEnd(s, i) < |s| then LineEnd(s, i) + 1 else |s|
  }

  /** The position of the first newline in a chunk, or its length. */
  function Position(chunk: Bytes): nat {
    LineEnd(chunk, 0)
  }

  /** Inside a chunk that starts within the line, the line ends where the whole line ends, if it does. */
  lemma LineWithinChunk(s: Bytes, start: nat, at: nat, chunk: Bytes)
    requires start <= at && at + |chunk| <= |s| && at <= LineEnd(s, start)
    requires forall i :: 0 <= i < |chunk| ==> chunk[i] == s[at + i]
    ensures Position(chunk) == if at + |chunk| <= LineEnd(s, start) then |chunk| else LineEnd(s, start) - at
  {
    hide LineEnd;
    var e, p := LineEnd(s, start), Position(chunk);
    assert e < at + |chunk| ==> chunk[e - at] == NEWLINE;
    assert p < |chunk| ==> s[at + p] == NEWLINE;
  }
}
