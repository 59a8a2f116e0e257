/**
 The bounded evidence kept from a child's stderr: a sliding window over the raw bytes, and the
 cut that keeps the exposed text within a byte limit without breaking a UTF-8 sequence.
 */
module StderrTail {
  import opened ByteStrings

  // ----- The sliding window -----

  /** The last min(|s|, n) bytes. */
  function Last(s: Bytes, n: nat): Bytes {
    if |s| <= n then s else s[|s| - n..]
  }

  class StderrCapture {
    var bytes: Bytes
    var truncated: bool

    constructor ()
      ensures bytes == [] && !truncated
    {
      bytes, truncated := [], false;
    }

    /** One chunk of output arrives; `before` is everything that arrived earlier. */
    method Record(chunk: Bytes, maxCaptureBytes: nat, ghost before: Bytes)
      requires bytes == Last(before, maxCaptureBytes) && (truncated <==> |before| > maxCaptureBytes)
      modifies this
      ensures bytes == Last(before + chunk, maxCaptureBytes) && (truncated <==> |before + chunk| > maxCaptureBytes)
    {
      ghost var kept := bytes;
      bytes := bytes + chunk;
      if |bytes| > maxCaptureBytes {
        var remove := |bytes| - maxCaptureBytes;
        bytes := bytes[remove..];
        truncated := true;
      }
      WindowSlides(before, chunk, maxCaptureBytes);
    }
  }

  /** The window is the end of what it covers: all of it, or exactly the last n bytes. */
  lemma WindowIsSuffix(front: Bytes, back: Bytes, n: nat)
    ensures |back| == n ==> Last(front + back, n) == back
    ensures |back| <= n ==> Last(back, n) == back
  {
    if |back| == n {
      assert (front + back)[|front|..] == back;
    }
  }

  lemma WindowSlides(before: Bytes, chunk: Bytes, n: nat)
    ensures Last(Last(before, n) + chunk, n) == Last(before + chunk, n)
    ensures |Last(before, n) + chunk| > n ==> |before + chunk| > n
    ensures |before| <= n ==> Last(before, n) == before
  {
  }

  function Concat(chunks: seq<Bytes>): Bytes {
    if chunks == [] then [] else Concat(chunks[..|chunks| - 1]) + chunks[|chunks| - 1]
  }

  /** After any sequence of chunks the window is the last bytes of the whole output. */
  method ReadStderr(chunks: seq<Bytes>, maxCaptureBytes: nat) returns (tail: StderrCapture)
    ensures fresh(tail)
    ensures tail.bytes == Last(Concat(chunks), maxCaptureBytes)
    ensures tail.truncated <==> |Concat(chunks)| > maxCaptureBytes
  {
    tail := new StderrCapture();
    for i := 0 to |chunks|
      invariant fresh(tail)
      invariant tail.bytes == Last(Concat(chunks[..i]), maxCaptureBytes)
      invariant tail.truncated <==> |Concat(chunks[..i])| > maxCaptureBytes
    {
      assert chunks[..i + 1][..i] == chunks[..i];
      tail.Record(chunks[i], maxCaptureBytes, Concat(chunks[..i]));
    }
    assert chunks[..|chunks|] == chunks;
  }

  // ----- UTF-8 (section 3 of RFC 3629) -----

  function Trailing(n: nat): (b: byte)
    ensures IsContinuation(b)
  {
    0x80 + n % 0x40
  }

  function EncodeChar(c: char): (bytes: Bytes)
    ensures 1 <= |bytes| <= 4 && !IsContinuation(bytes[0])
    ensures forall i :: 1 <= i < |bytes| ==> IsContinuation(bytes[i])
  {
    var n := c as int;
    if n < 0x80 then [n]
    else if n < 0x800 then [0xC0 + n / 0x40, Trailing(n)]
    else if n < 0x1_0000 then [0xE0 + n / 0x1000, Trailing(n / 0x40), Trailing(n)]
    else [0xF0 + n / 0x4_0000, Trailing(n / 0x1000), Trailing(n / 0x40), Trailing(n)]
  }

  function Encode(text: string): Bytes {
    if text == "" then [] else EncodeChar(text[0]) + Encode(text[1..])
  }

  /** The lower bits of a byte: what remains above the given lead. */
  function Bits(b: byte, lead: int): int {
    b as int - lead
  }

  /** The layout of section 3: the lead byte tells the length, and the bits of all bytes give back the character. */
  lemma EncodedCharReadsBack(c: char)
    ensures var b, n := EncodeChar(c), c as int;
            && (|b| == 1 ==> b[0] == n < 0x80)
            && (|b| == 2 ==> 0xC2 <= b[0] < 0xE0 && n == Bits(b[0], 0xC0) * 0x40 + Bits(b[1], 0x80))
            && (|b| == 3 ==> 0xE0 <= b[0] < 0xF0 && 0x800 <= n == (Bits(b[0], 0xE0) * 0x40 + Bits(b[1], 0x80)) * 0x40 + Bits(b[2], 0x80))
            && (|b| == 4 ==> 0xF0 <= b[0] < 0xF5 && 0x1_0000 <= n ==
                             ((Bits(b[0], 0xF0) * 0x40 + Bits(b[1], 0x80)) * 0x40 + Bits(b[2], 0x80)) * 0x40 + Bits(b[3], 0x80))
  {
    var n := c as int;
    assert n / 0x1000 == n / 0x40 / 0x40 && n / 0x4_0000 == n / 0x1000 / 0x40;
  }

  predicate IsContinuation(b: byte) {
    0x80 <= b < 0xC0
  }

  predicate IsCharBoundary(bytes: Bytes, i: nat)
    requires i <= |bytes|
  {
    i == |bytes| || !IsContinuation(bytes[i])
  }

  /** The characters whose encoding starts at or after byte i. */
  function CharsFrom(text: string, i: nat): (k: nat)
    requires i <= |Encode(text)|
    ensures k <= |text|
  {
    if i == 0 || text == "" then 0
    else
      var width := |EncodeChar(text[0])|;
      if i <= width then 1 else 1 + CharsFrom(text[1..], i - width)
  }

  /** A boundary is where some character starts: cutting there leaves the encoding of a suffix. */
  lemma {:induction false} BoundaryStartsSuffix(text: string, i: nat)
    requires i <= |Encode(text)| && IsCharBoundary(Encode(text), i)
    ensures Encode(text)[i..] == Encode(text[CharsFrom(text, i)..])
  {
    if i == 0 || text == "" {
      assert text[0..] == text;
    } else {
      var first := EncodeChar(text[0]);
      assert Encode(text) == first + Encode(text[1..]);
      if i >= |first| {
        assert Encode(text)[i..] == Encode(text[1..])[i - |first|..];
        assert i < |Encode(text)| ==> Encode(text)[i] == Encode(text[1..])[i - |first|];
        BoundaryStartsSuffix(text[1..], i - |first|);
        var k := CharsFrom(text[1..], i - |first|);
        assert text[1..][k..] == text[k + 1..];
      }
    }
  }

  /** The first boundary at or after i. */
  function NextBoundary(bytes: Bytes, i: nat): (r: nat)
    requires i <= |bytes|
    ensures i <= r <= |bytes| && IsCharBoundary(bytes, r)
    ensures forall j :: i <= j < r ==> !IsCharBoundary(bytes, j)
    decreases |bytes| - i
  {
    if IsCharBoundary(bytes, i) then i else NextBoundary(bytes, i + 1)
  }

  lemma {:induction false} BoundaryIsNear(text: string, i: nat)
    requires i <= |Encode(text)|
    ensures NextBoundary(Encode(text), i) <= i + 3
  {
    if 0 < i < |Encode(text)| {
      var first, rest := EncodeChar(text[0]), Encode(text[1..]);
      assert Encode(text) == first + rest;
      if i < |first| {
        assert rest != [] ==> rest[0] == EncodeChar(text[1])[0] == Encode(text)[|first|];
        assert IsCharBoundary(Encode(text), |first|);
      } else {
        BoundaryIsNear(text[1..], i - |first|);
        var r := NextBoundary(rest, i - |first|);
        assert r < |rest| ==> Encode(text)[|first| + r] == rest[r];
        assert IsCharBoundary(Encode(text), |first| + r);
      }
    }
  }

  /**
   Cuts the front of a text so that at most `maxBytes` bytes remain. What remains is again the
   UTF-8 form of a text, a suffix of the given one, and at most three bytes short of the limit.
   */
  method TruncateUtf8Tail(bytes: Bytes, maxBytes: nat, ghost text: string) returns (tail: Bytes, ghost kept: nat)
    requires bytes == Encode(text)
    ensures kept <= |text| && tail == Encode(text[kept..])
    ensures |tail| <= maxBytes && (|bytes| <= maxBytes ==> tail == bytes)
    ensures |bytes| > maxBytes ==> |tail| + 3 >= maxBytes && tail == bytes[|bytes| - |tail|..]
  {
    if |bytes| <= maxBytes {
      kept := 0;
      return bytes, kept;
    }
    var start := |bytes| - maxBytes;
    BoundaryIsNear(text, start);
    ghost var boundary := NextBoundary(bytes, start);
    while !IsCharBoundary(bytes, start)
      invariant |bytes| - maxBytes <= start <= boundary
      decreases |bytes| - start
    {
      start := start + 1;
    }
    BoundaryStartsSuffix(text, start);
    tail := bytes[start..];
    kept := CharsFrom(text, start);
  }
}
