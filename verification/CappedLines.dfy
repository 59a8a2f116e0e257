/**
 Two independent readers of newline-delimited records with a cap on memory, one on the server
 side of the stdio transport and one on the client side, and the server's loop over records.
 */
module CappedLines {
  import opened ByteStrings
  import opened ChunkedInput
  import opened Wrappers

  const CARRIAGE_RETURN: byte := 13

  // ----- The server's reader -----

  /** The buffer holds the bytes of the stream from `start` on, as far as it reaches. */
  predicate Holds(s: Bytes, start: nat, buf: Bytes) {
    start + |buf| <= |s| && forall i :: 0 <= i < |buf| ==> buf[i] == s[start + i]
  }

  lemma NothingHeld(s: Bytes, start: nat)
    requires start <= |s|
    ensures Holds(s, start, [])
  {
  }

  lemma HeldPrefix(s: Bytes, start: nat, buf: Bytes)
    requires Holds(s, start, buf)
    ensures start + |buf| <= |s| && buf == s[start..start + |buf|]
  {
  }

  /** The next chunk continues the buffer, with its line part or with all of it. */
  lemma HoldsMore(s: Bytes, start: nat, buf: Bytes, chunk: Bytes)
    requires Holds(s, start, buf) && start + |buf| + |chunk| <= |s|
    requires forall i :: 0 <= i < |chunk| ==> chunk[i] == s[start + |buf| + i]
    ensures Holds(s, start, buf + chunk) && Holds(s, start, buf + chunk[..Position(chunk)])
  {
    hide LineEnd;
    forall i: nat | i < |buf + chunk| ensures (buf + chunk)[i] == s[start + i] {
      if i >= |buf| {
        assert chunk[i - |buf|] == s[start + |buf| + (i - |buf|)];
      }
    }
    var part := buf + chunk[..Position(chunk)];
    assert forall i :: 0 <= i < |part| ==> part[i] == (buf + chunk)[i];
  }

  /**
   Returns the length of the line, and the line itself when it is within the cap. Beyond the cap
   the buffer is some prefix that respects the cap; which one depends on the chunks.
   */
  method ReadCappedLine(reader: ChunkReader, maxBytes: nat) returns (buf: Bytes, total: nat)
    requires reader.Valid()
    modifies reader
    ensures reader.Valid() && reader.at == NextLine(reader.stream, old(reader.at))
    ensures old(reader.at) + total == LineEnd(reader.stream, old(reader.at))
    ensures |buf| <= total && |buf| <= maxBytes && buf == reader.stream[old(reader.at)..old(reader.at) + |buf|]
    ensures total <= maxBytes ==> |buf| == total
  {
    hide LineEnd, Holds;
    ghost var start := reader.at;
    buf, total := [], 0;
    NothingHeld(reader.stream, start);
    while true
      invariant reader.Valid() && total <= maxBytes && reader.at == start + total <= LineEnd(reader.stream, start)
      invariant Holds(reader.stream, start, buf) && |buf| == total
      decreases |reader.stream| - reader.at
    {
      var available := reader.FillBuf();
      if available == [] {
        HeldPrefix(reader.stream, start, buf);
        return;
      }
      LineWithinChunk(reader.stream, start, reader.at, available);
      HoldsMore(reader.stream, start, buf, available);
      HeldPrefix(reader.stream, start, buf);
      var pos := Position(available);
      if pos < |available| {
        if total + pos <= maxBytes {
          HeldPrefix(reader.stream, start, buf + available[..pos]);
          buf := buf + available[..pos];
        }
        total := total + pos;
        reader.Consume(pos + 1);
        return;
      }
      var chunkLen := |available|;
      if total + chunkLen <= maxBytes {
        buf := buf + available;
      }
      total := total + chunkLen;
      reader.Consume(chunkLen);
      if total > maxBytes {
        total := SkipLine(reader, start, total);
        return;
      }
    }
  }

  /** The inner loop: drop the rest of an oversized line, still counting it. */
  method SkipLine(reader: ChunkReader, ghost start: nat, before: nat) returns (total: nat)
    requires reader.Valid() && reader.at == start + before && reader.at <= LineEnd(reader.stream, start)
    modifies reader
    ensures reader.Valid() && reader.at == NextLine(reader.stream, start)
    ensures start + total == LineEnd(reader.stream, start)
  {
    hide LineEnd;
    total := before;
    while true
      invariant reader.Valid() && reader.at == start + total && reader.at <= LineEnd(reader.stream, start)
      decreases |reader.stream| - reader.at
    {
      var available := reader.FillBuf();
      if available == [] {
        return;
      }
      LineWithinChunk(reader.stream, start, reader.at, available);
      var pos := Position(available);
      if pos < |available| {
        total := total + pos;
        reader.Consume(pos + 1);
        return;
      }
      total := total + |available|;
      reader.Consume(|available|);
    }
  }

  // ----- The client's reader -----

  datatype CappedLine = Eof | Line(bytes: Bytes) | Oversized

  function StripCarriageReturn(s: Bytes): Bytes {
    if s != [] && s[|s| - 1] == CARRIAGE_RETURN then s[..|s| - 1] else s
  }

  /** What the client makes of the line that starts at `start`. */
  function ClientLine(s: Bytes, start: nat, maxBytes: nat): CappedLine
    requires start <= |s|
  {
    var end := LineEnd(s, start);
    if start == |s| then Eof
    else if end - start > maxBytes then Oversized
    else if end < |s| then Line(StripCarriageReturn(s[start..end]))
    else Line(s[start..end])
  }

  /** The buffer after the bytes start..at of a line: all of them, or a prefix once they are too many. */
  predicate Buffered(s: Bytes, start: nat, at: nat, maxBytes: nat, line: Bytes, oversized: bool) {
    && (oversized <==> at - start > maxBytes)
    && Holds(s, start, line) && |line| <= maxBytes && start + |line| <= at
    && (!oversized ==> start + |line| == at)
  }

  lemma NothingBuffered(s: Bytes, start: nat, maxBytes: nat)
    requires start <= |s|
    ensures Buffered(s, start, start, maxBytes, [], false)
  {
  }

  /** The line part of the next chunk is added if it fits; if not, the line is oversized from then on. */
  lemma BufferGrows(s: Bytes, start: nat, at: nat, maxBytes: nat, line: Bytes, oversized: bool, chunk: Bytes)
    requires Buffered(s, start, at, maxBytes, line, oversized) && at + |chunk| <= |s|
    requires forall i :: 0 <= i < |chunk| ==> chunk[i] == s[at + i]
    ensures var n := Position(chunk);
            if oversized || |line| + n > maxBytes then Buffered(s, start, at + n, maxBytes, line, true)
            else Buffered(s, start, at + n, maxBytes, line + chunk[..n], false)
  {
    hide LineEnd;
    if !oversized {
      HoldsMore(s, start, line, chunk);
    }
  }

  lemma LineIsRead(s: Bytes, start: nat, maxBytes: nat, line: Bytes, oversized: bool)
    requires start <= |s| && Buffered(s, start, LineEnd(s, start), maxBytes, line, oversized)
    ensures |line| <= maxBytes && start + |line| <= LineEnd(s, start) && line == s[start..start + |line|]
    ensures ClientLine(s, start, maxBytes) ==
            if oversized then Oversized
            else if LineEnd(s, start) < |s| then Line(StripCarriageReturn(line))
            else if line == [] then Eof
            else Line(line)
  {
    hide LineEnd, StripCarriageReturn;
    HeldPrefix(s, start, line);
  }

  /** End of input and oversized lines are told apart, and only a carriage return in front of a newline is cut off. */
  predicate ReadsAs(s: Bytes, start: nat, maxBytes: nat, r: CappedLine)
    requires start <= |s|
  {
    var end := LineEnd(s, start);
    && (r.Eof? <==> start == |s|) && (r.Oversized? <==> end - start > maxBytes)
    && (r.Line? && end == |s| ==> r.bytes == s[start..end])
    && (r.Line? && end < |s| ==>
          if end > start && s[end - 1] == CARRIAGE_RETURN then s[start..end] == r.bytes + [CARRIAGE_RETURN]
          else r.bytes == s[start..end])
  }

  lemma ClientLineIs(s: Bytes, start: nat, maxBytes: nat)
    requires start <= |s|
    ensures ReadsAs(s, start, maxBytes, ClientLine(s, start, maxBytes))
  {
    hide LineEnd;
  }

  /** `buffer` is what the buffer holds when the line ends; it only ever grows while the line is read. */
  method ReadClientLine(reader: ChunkReader, maxBytes: nat) returns (r: CappedLine, ghost buffer: Bytes)
    requires reader.Valid()
    modifies reader
    ensures reader.Valid() && reader.at == NextLine(reader.stream, old(reader.at))
    ensures r == ClientLine(reader.stream, old(reader.at), maxBytes)
    ensures ReadsAs(reader.stream, old(reader.at), maxBytes, r)
    ensures |buffer| <= maxBytes && old(reader.at) + |buffer| <= LineEnd(reader.stream, old(reader.at))
    ensures buffer == reader.stream[old(reader.at)..old(reader.at) + |buffer|]
  {
    hide LineEnd, Position, Buffered, ClientLine, StripCarriageReturn, ReadsAs;
    ghost var start, end := reader.at, LineEnd(reader.stream, reader.at);
    var line: Bytes := [];
    var oversized := false;
    NothingBuffered(reader.stream, start, maxBytes);
    ClientLineIs(reader.stream, start, maxBytes);
    while true
      invariant reader.Valid() && reader.at <= end
      invariant Buffered(reader.stream, start, reader.at, maxBytes, line, oversized)
      decreases |reader.stream| - reader.at
    {
      var available := reader.FillBuf();
      if available == [] {
        LineIsRead(reader.stream, start, maxBytes, line, oversized);
        buffer := line;
        r := if oversized then Oversized else if line == [] then Eof else Line(line);
        return;
      }
      LineWithinChunk(reader.stream, start, reader.at, available);
      var newline := Position(available);
      var consumed := if newline < |available| then newline + 1 else |available|;
      var content := available[..newline];
      BufferGrows(reader.stream, start, reader.at, maxBytes, line, oversized, available);
      if !oversized {
        if |line| + |content| > maxBytes {
          oversized := true;
        } else {
          line := line + content;
        }
      }
      reader.Consume(consumed);
      if newline < |available| {
        LineIsRead(reader.stream, start, maxBytes, line, oversized);
        buffer := line;
        r := if oversized then Oversized else Line(StripCarriageReturn(line));
        return;
      }
    }
  }

  /**
   Both readers on the same bytes, however each stream is cut into chunks: they stop at the same
   place, reject the same lines, keep the same content up to the carriage return, and neither
   holds more than the cap of any line.
   */
  method ReadersAgree(server: ChunkReader, client: ChunkReader, maxBytes: nat)
      returns (buf: Bytes, total: nat, line: CappedLine, ghost clientBuffer: Bytes)
    requires server != client && server.Valid() && client.Valid()
    requires server.stream == client.stream && server.at == client.at
    modifies server, client
    ensures server.Valid() && client.Valid() && server.at == client.at
    ensures total > maxBytes <==> line.Oversized?
    ensures line.Eof? <==> total == 0 && old(server.at) == |server.stream|
    ensures line.Line? ==>
              line.bytes == if old(server.at) + total < |server.stream| then StripCarriageReturn(buf) else buf
    ensures |buf| <= maxBytes && |clientBuffer| <= maxBytes
  {
    hide LineEnd;
    buf, total := ReadCappedLine(server, maxBytes);
    line, clientBuffer := ReadClientLine(client, maxBytes);
  }

  // ----- The server's loop over records -----

  /** The line that starts at i. */
  function LineAt(s: Bytes, i: nat): Bytes
    requires i <= |s|
  {
    s[i..LineEnd(s, i)]
  }

  /** Decoding covers UTF-8 validation, trimming and parsing; a line that is none of our messages is skipped. */
  type Decoder<!M> = Bytes -> Option<M>

  function MessageAt<M>(s: Bytes, i: nat, maxLine: nat, decode: Decoder<M>): seq<M>
    requires i <= |s|
  {
    if |LineAt(s, i)| <= maxLine && decode(LineAt(s, i)).Some? then [decode(LineAt(s, i)).value] else []
  }

  /** What the documentation promises: every record up to the end of the stream is handled. */
  function AllMessages<M>(s: Bytes, i: nat, maxLine: nat, decode: Decoder<M>): seq<M>
    requires i <= |s|
    decreases |s| - i
  {
    if i == |s| then []
    else MessageAt(s, i, maxLine, decode) + AllMessages(s, NextLine(s, i), maxLine, decode)
  }

  /** Where the loop stops: at the first empty line, which it takes for the end of the stream. */
  function StopsAt(s: Bytes, i: nat): (e: nat)
    requires i <= |s|
    ensures i <= e <= |s| && LineAt(s, e) == []
    decreases |s| - i
  {
    if LineAt(s, i) == [] then i else StopsAt(s, NextLine(s, i))
  }

  function MessagesUntil<M>(s: Bytes, i: nat, end: nat, maxLine: nat, decode: Decoder<M>): seq<M>
    requires i <= |s|
    decreases |s| - i
  {
    if i >= end || i == |s| then []
    else MessageAt(s, i, maxLine, decode) + MessagesUntil(s, NextLine(s, i), end, maxLine, decode)
  }

  /** The loop reads on as long as lines are not empty; the caps and the decoder only decide what it keeps. */
  method HandleRecords<M>(reader: ChunkReader, maxLine: nat, decode: Decoder<M>) returns (handled: seq<M>)
    requires reader.Valid()
    modifies reader
    ensures reader.Valid()
    ensures handled == MessagesUntil(reader.stream, old(reader.at), StopsAt(reader.stream, old(reader.at)), maxLine, decode)
  {
    ghost var stop := StopsAt(reader.stream, reader.at);
    ghost var all := MessagesUntil(reader.stream, reader.at, stop, maxLine, decode);
    handled := [];
    while true
      invariant reader.Valid() && reader.at <= stop == StopsAt(reader.stream, reader.at)
      invariant handled + MessagesUntil(reader.stream, reader.at, stop, maxLine, decode) == all
      decreases |reader.stream| - reader.at
    {
      ghost var here, before := reader.at, handled;
      var buf, total := ReadCappedLine(reader, maxLine);
      if total == 0 {
        break;
      }
      if total <= maxLine {
        assert buf == LineAt(reader.stream, here);
        match decode(buf) {
          case Some(message) => handled := handled + [message];
          case None =>
        }
      }
      OneLineFurther(before, reader.stream, here, stop, maxLine, decode);
      assert handled == before + MessageAt(reader.stream, here, maxLine, decode);
    }
  }

  lemma OneLineFurther<M>(before: seq<M>, s: Bytes, i: nat, stop: nat, maxLine: nat, decode: Decoder<M>)
    requires i <= |s| && LineAt(s, i) != [] && stop == StopsAt(s, i)
    ensures stop == StopsAt(s, NextLine(s, i)) && i < NextLine(s, i) <= stop
    ensures before + MessagesUntil(s, i, stop, maxLine, decode) ==
            before + MessageAt(s, i, maxLine, decode) + MessagesUntil(s, NextLine(s, i), stop, maxLine, decode)
  {
    var here, later := MessageAt(s, i, maxLine, decode), MessagesUntil(s, NextLine(s, i), stop, maxLine, decode);
    assert before + (here + later) == before + here + later;
  }

  lemma {:induction false} MessagesSplit<M>(s: Bytes, i: nat, maxLine: nat, decode: Decoder<M>)
    requires i <= |s|
    ensures AllMessages(s, i, maxLine, decode) ==
            MessagesUntil(s, i, StopsAt(s, i), maxLine, decode) + AllMessages(s, StopsAt(s, i), maxLine, decode)
    decreases |s| - i
  {
    hide StopsAt, MessageAt, LineEnd, MessagesUntil;
    var stop := StopsAt(s, i);
    if LineAt(s, i) == [] {
      StopsHere(s, i, maxLine, decode);
    } else {
      OneLineFurther([], s, i, stop, maxLine, decode);
      MessagesSplit(s, NextLine(s, i), maxLine, decode);
      Associate(MessageAt(s, i, maxLine, decode), MessagesUntil(s, NextLine(s, i), stop, maxLine, decode),
                AllMessages(s, stop, maxLine, decode));
    }
  }

  lemma StopsHere<M>(s: Bytes, i: nat, maxLine: nat, decode: Decoder<M>)
    requires i <= |s| && LineAt(s, i) == []
    ensures StopsAt(s, i) == i && MessagesUntil(s, i, i, maxLine, decode) == []
  {
  }

  lemma Associate<M>(a: seq<M>, b: seq<M>, c: seq<M>)
    ensures a + (b + c) == [] + a + b + c
  {
  }

  /**
   The loop handles everything the documentation promises if and only if no message follows the
   first empty line.
   */
  lemma LoopHandlesAllUnlessBlankLine<M>(s: Bytes, maxLine: nat, decode: Decoder<M>)
    ensures MessagesUntil(s, 0, StopsAt(s, 0), maxLine, decode) == AllMessages(s, 0, maxLine, decode) <==>
            AllMessages(s, StopsAt(s, 0), maxLine, decode) == []
  {
    MessagesSplit(s, 0, maxLine, decode);
  }

  /** An empty line in front of any message makes the loop drop it. */
  lemma BlankLineEndsTheSession<M>(line: Bytes, maxLine: nat, decode: Decoder<M>)
    requires line != [] && NEWLINE !in line && |line| <= maxLine && decode(line).Some? && decode([]).None?
    ensures var s := [NEWLINE] + line;
            && MessagesUntil(s, 0, StopsAt(s, 0), maxLine, decode) == []
            && AllMessages(s, 0, maxLine, decode) == [decode(line).value]
  {
    var s := [NEWLINE] + line;
    assert LineEnd(s, 0) == 0 && NextLine(s, 0) == 1;
    assert forall k :: 1 <= k < |s| ==> s[k] == line[k - 1];
    assert LineEnd(s, 1) == |s|;
    assert LineAt(s, 0) == [] && LineAt(s, 1) == line;
    assert AllMessages(s, |s|, maxLine, decode) == [];
  }

  // ----- A stream built from lines -----

  function Joined(lines: seq<Bytes>): Bytes {
    if lines == [] then [] else lines[0] + [NEWLINE] + Joined(lines[1..])
  }

  /** What is to be handled of each line, in order. */
  function Messages<M>(lines: seq<Bytes>, maxLine: nat, decode: Decoder<M>): seq<M> {
    if lines == [] then []
    else (if |lines[0]| <= maxLine && decode(lines[0]).Some? then [decode(lines[0]).value] else []) + Messages(lines[1..], maxLine, decode)
  }

  predicate AreLines(lines: seq<Bytes>) {
    forall i: nat :: i < |lines| ==> lines[i] != [] && NEWLINE !in lines[i]
  }

  lemma LineEndsAtNewline(s: Bytes, i: nat, line: Bytes)
    requires i + |line| < |s| && NEWLINE !in line && s[i + |line|] == NEWLINE
    requires forall k: nat :: k < |line| ==> s[i + k] == line[k]
    ensures LineEnd(s, i) == i + |line| && LineAt(s, i) == line && NextLine(s, i) == i + |line| + 1
  {
    hide LineEnd;
    var e := LineEnd(s, i);
    forall k: nat | i <= k < i + |line| ensures s[k] != NEWLINE {
      assert s[i + (k - i)] == line[k - i];
    }
    assert e == i + |line|;
    forall k: nat | k < |line| ensures s[i..e][k] == line[k] {
      assert s[i + k] == line[k];
    }
  }

  lemma FirstLine(before: Bytes, line: Bytes, rest: Bytes)
    requires NEWLINE !in line
    ensures var s, i := before + (line + [NEWLINE] + rest), |before|;
            LineEnd(s, i) == i + |line| && LineAt(s, i) == line && NextLine(s, i) == i + |line| + 1
  {
    hide LineEnd;
    var s, i := before + (line + [NEWLINE] + rest), |before|;
    assert forall k: nat :: k < |line| ==> s[i + k] == line[k];
    LineEndsAtNewline(s, i, line);
  }

  /** From the first line on, the loop handles what is to be handled of each line, up to the end. */
  lemma {:induction false} LinesFromHere<M>(before: Bytes, lines: seq<Bytes>, maxLine: nat, decode: Decoder<M>)
    requires AreLines(lines)
    ensures var s, i := before + Joined(lines), |before|;
            && StopsAt(s, i) == |s|
            && MessagesUntil(s, i, |s|, maxLine, decode) == Messages(lines, maxLine, decode)
    decreases |lines|
  {
    hide LineEnd, LineAt, NextLine;
    if lines == [] {
      NothingHere(before, maxLine, decode);
    } else {
      var rest := Joined(lines[1..]);
      var s, i := before + Joined(lines), |before|;
      FirstLine(before, lines[0], rest);
      var more := before + lines[0] + [NEWLINE];
      assert s == more + rest && |more| == NextLine(s, i);
      LinesFromHere(more, lines[1..], maxLine, decode);
      OneLineFurther([], s, i, |s|, maxLine, decode);
    }
  }

  lemma NothingHere<M>(s: Bytes, maxLine: nat, decode: Decoder<M>)
    ensures s + Joined([]) == s && StopsAt(s, |s|) == |s| && MessagesUntil(s, |s|, |s|, maxLine, decode) == []
  {
  }

  /** Of a stream of lines none of which is empty, the loop handles every one that is within the cap and decodes, in order. */
  lemma EveryLineIsHandled<M>(lines: seq<Bytes>, maxLine: nat, decode: Decoder<M>)
    requires AreLines(lines)
    ensures MessagesUntil(Joined(lines), 0, StopsAt(Joined(lines), 0), maxLine, decode) == Messages(lines, maxLine, decode)
  {
    LinesFromHere([], lines, maxLine, decode);
    assert [] + Joined(lines) == Joined(lines);
  }
}
