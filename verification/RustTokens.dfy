/**
 The comments and literals of Rust source as the maintenance audit understands them: first as
 relations that say what each of them looks like, then as the searches of its lexer, and that
 the two agree.
 */
module RustTokens {
  import opened Wrappers

  predicate Pair(s: string, i: nat, a: char, b: char) {
    i + 1 < |s| && s[i] == a && s[i + 1] == b
  }

  predicate CharAt(s: string, i: nat, c: char) {
    i < |s| && s[i] == c
  }

  const MAX_HASHES := 255

  predicate IsHexOrUnderscore(c: char) {
    '0' <= c <= '9' || 'A' <= c <= 'F' || 'a' <= c <= 'f' || c == '_'
  }

  // ----- What a token looks like -----

  ghost predicate LineComment(s: string, i: nat, e: nat) {
    && Pair(s, i, '/', '/') && i + 2 <= e <= |s|
    && (forall k :: i + 2 <= k < e ==> s[k] != '\n') && (e < |s| ==> s[e] == '\n')
  }

  /** Complete nested comments, and characters at which no mark of a comment stands. */
  ghost predicate CommentText(s: string, i: nat, j: nat)
    decreases j - i, 1
  {
    && i <= j <= |s|
    && (|| i == j
        || (!Pair(s, i, '/', '*') && !Pair(s, i, '*', '/') && CommentText(s, i + 1, j))
        || exists m :: i < m <= j && NestedComment(s, i, m) && CommentText(s, m, j))
  }

  ghost predicate NestedComment(s: string, i: nat, e: nat)
    decreases e - i, 0
  {
    && i + 4 <= e <= |s|
    && Pair(s, i, '/', '*') && CommentText(s, i + 2, e - 2) && Pair(s, e - 2, '*', '/')
  }

  /** A comment that is never completed reaches to the end. */
  ghost predicate BlockComment(s: string, i: nat, e: nat) {
    && Pair(s, i, '/', '*')
    && (NestedComment(s, i, e) || (e == |s| && forall m :: !NestedComment(s, i, m)))
  }

  /** The number of backslashes just before k, counted back to `from`. */
  function Backslashes(s: string, from: nat, k: nat): nat
    requires k <= |s|
  {
    if k > from && s[k - 1] == '\\' then 1 + Backslashes(s, from, k - 1) else 0
  }

  /** A quote that no backslash escapes: backslashes pair up from the left. */
  predicate ClosesString(s: string, from: nat, q: nat) {
    q < |s| && s[q] == '"' && Backslashes(s, from, q) % 2 == 0
  }

  /** The string ends behind the first closing quote, or at the end of the text. */
  ghost predicate StringEndsAt(s: string, from: nat, e: nat) {
    || (from < e <= |s| && ClosesString(s, from, e - 1) && forall q :: from <= q < e - 1 ==> !ClosesString(s, from, q))
    || (e == |s| && forall q :: from <= q < |s| ==> !ClosesString(s, from, q))
  }

  ghost predicate PlainString(s: string, i: nat, e: nat) {
    || (CharAt(s, i, '"') && StringEndsAt(s, i + 1, e))
    || ((Pair(s, i, 'b', '"') || Pair(s, i, 'c', '"')) && StringEndsAt(s, i + 2, e))
  }

  predicate Hashes(s: string, i: nat, n: nat) {
    i + n <= |s| && forall k :: i <= k < i + n ==> s[k] == '#'
  }

  predicate ClosesRaw(s: string, q: nat, hashes: nat) {
    CharAt(s, q, '"') && Hashes(s, q + 1, hashes)
  }

  ghost predicate RawEndsAt(s: string, from: nat, hashes: nat, e: nat) {
    || (from + 1 + hashes <= e <= |s| && ClosesRaw(s, e - 1 - hashes, hashes)
        && forall q :: from <= q < e - 1 - hashes ==> !ClosesRaw(s, q, hashes))
    || (e == |s| && forall q :: from <= q < |s| ==> !ClosesRaw(s, q, hashes))
  }

  predicate RawPrefixAt(s: string, i: nat, prefix: nat) {
    if prefix == 1 then CharAt(s, i, 'r')
    else prefix == 2 && (Pair(s, i, 'b', 'r') || Pair(s, i, 'r', 'b') || Pair(s, i, 'c', 'r') || Pair(s, i, 'r', 'c'))
  }

  /** A prefix, up to 255 hashes and a quote; it ends at a quote with as many hashes. */
  ghost predicate RawString(s: string, i: nat, prefix: nat, hashes: nat, e: nat) {
    && RawPrefixAt(s, i, prefix) && hashes <= MAX_HASHES
    && Hashes(s, i + prefix, hashes) && CharAt(s, i + prefix + hashes, '"')
    && RawEndsAt(s, i + prefix + hashes + 1, hashes, e)
  }

  /** One plain character, one escaped character, or a braced escape, between single quotes. */
  ghost predicate CharLiteral(s: string, i: nat, e: nat) {
    && i + 3 <= e <= |s| && s[i] == '\'' && s[e - 1] == '\''
    && (|| (e == i + 3 && s[i + 1] != '\'' && s[i + 1] != '\\' && s[i + 1] != '\n')
        || (e == i + 4 && s[i + 1] == '\\' && s[i + 2] != '\n')
        || (&& i + 7 <= e && s[i + 1] == '\\' && s[i + 2] == 'u' && s[i + 3] == '{' && s[e - 2] == '}'
            && forall k :: i + 4 <= k < e - 2 ==> IsHexOrUnderscore(s[k])))
  }

  /** A comment or literal that covers i..e. */
  ghost predicate Token(s: string, i: nat, e: nat) {
    || LineComment(s, i, e)
    || BlockComment(s, i, e)
    || (exists prefix: nat, hashes: nat :: RawString(s, i, prefix, hashes, e))
    || PlainString(s, i, e)
    || CharLiteral(s, i, e)
  }

  // ----- Where a comment or literal that starts at an index ends -----

  function LineEnd(s: string, i: nat): (e: nat)
    requires i <= |s|
    ensures i <= e <= |s|
    decreases |s| - i
  {
    if i == |s| || s[i] == '\n' then i else LineEnd(s, i + 1)
  }

  /** The end of a block comment that is open `depth` times at index i. */
  function BlockEnd(s: string, i: nat, depth: nat): (e: nat)
    requires i <= |s|
    ensures i <= e <= |s|
    decreases |s| - i
  {
    if i == |s| || depth == 0 then i
    else if Pair(s, i, '/', '*') then BlockEnd(s, i + 2, depth + 1)
    else if Pair(s, i, '*', '/') then BlockEnd(s, i + 2, depth - 1)
    else BlockEnd(s, i + 1, depth)
  }

  function StringEnd(s: string, i: nat, escaped: bool): (e: nat)
    requires i <= |s|
    ensures i <= e <= |s| && (i < |s| ==> i < e)
    decreases |s| - i
  {
    if i == |s| then i
    else if s[i] == '"' && !escaped then i + 1
    else StringEnd(s, i + 1, s[i] == '\\' && !escaped)
  }

  /** The number of `#` from index i on. */
  function HashRun(s: string, i: nat): (n: nat)
    requires i <= |s|
    ensures i + n <= |s|
    decreases |s| - i
  {
    if CharAt(s, i, '#') then 1 + HashRun(s, i + 1) else 0
  }

  /** Hashes and the opening quote of a raw string whose prefix ended at index i. */
  predicate RawOpens(s: string, i: nat) {
    i <= |s| && HashRun(s, i) <= MAX_HASHES && CharAt(s, i + HashRun(s, i), '"')
  }

  /** The length of the raw-string prefix at index i; zero when no raw string starts there. */
  function RawPrefix(s: string, i: nat): (n: nat)
    ensures n > 0 ==> i < |s| && RawOpens(s, i + n)
  {
    if (Pair(s, i, 'b', 'r') || Pair(s, i, 'r', 'b') || Pair(s, i, 'c', 'r') || Pair(s, i, 'r', 'c')) && RawOpens(s, i + 2)
    then 2
    else if CharAt(s, i, 'r') && RawOpens(s, i + 1) then 1
    else 0
  }

  /** The end of the first quote at or after i that is followed by `hashes` hashes. */
  function RawEnd(s: string, i: nat, hashes: nat): (e: nat)
    requires i <= |s|
    ensures i <= e <= |s|
    decreases |s| - i
  {
    if i == |s| then i
    else if s[i] == '"' && HashRun(s, i + 1) >= hashes then i + 1 + hashes
    else RawEnd(s, i + 1, hashes)
  }

  function HexRun(s: string, i: nat): (n: nat)
    requires i <= |s|
    ensures i + n <= |s|
    ensures forall k :: i <= k < i + n ==> IsHexOrUnderscore(s[k])
    ensures i + n < |s| ==> !IsHexOrUnderscore(s[i + n])
    decreases |s| - i
  {
    if i < |s| && IsHexOrUnderscore(s[i]) then 1 + HexRun(s, i + 1) else 0
  }

  /** A character literal at i: a plain character, a one-character escape, or a braced escape. */
  function CharEnd(s: string, i: nat): (e: Option<nat>)
    ensures e.Some? ==> i + 3 <= e.value <= |s|
  {
    if !CharAt(s, i, '\'') || i + 1 >= |s| then None
    else if s[i + 1] == '\\' then
      if i + 2 < |s| && s[i + 2] != '\n' && CharAt(s, i + 3, '\'') then Some(i + 4)
      else if Pair(s, i + 2, 'u', '{') then
        var n := HexRun(s, i + 4);
        if n > 0 && Pair(s, i + 4 + n, '}', '\'') then Some(i + 6 + n) else None
      else None
    else if s[i + 1] != '\'' && s[i + 1] != '\n' && CharAt(s, i + 2, '\'') then Some(i + 3)
    else None
  }

  /** The end of the comment or literal that starts at i, tried in the lexer's order. */
  function TokenEnd(s: string, i: nat): (e: Option<nat>)
    requires i < |s|
    ensures e.Some? ==> i < e.value <= |s|
    ensures e.Some? && e.value < |s| ==> i + 1 < e.value
  {
    if Pair(s, i, '/', '/') then Some(LineEnd(s, i + 2))
    else if Pair(s, i, '/', '*') then Some(BlockEnd(s, i + 2, 1))
    else
      var prefix := RawPrefix(s, i);
      if prefix > 0 then
        var hashes := HashRun(s, i + prefix);
        Some(RawEnd(s, i + prefix + hashes + 1, hashes))
      else if Pair(s, i, 'b', '"') || Pair(s, i, 'c', '"') then Some(StringEnd(s, i + 2, false))
      else if s[i] == '"' then Some(StringEnd(s, i + 1, false))
      else CharEnd(s, i)
  }

  // ----- The searches find exactly these ends -----

  lemma {:induction false} LineEndIs(s: string, i: nat)
    requires i <= |s|
    ensures forall k :: i <= k < LineEnd(s, i) ==> s[k] != '\n'
    ensures LineEnd(s, i) < |s| ==> s[LineEnd(s, i)] == '\n'
    decreases |s| - i
  {
    if i < |s| && s[i] != '\n' {
      LineEndIs(s, i + 1);
    }
  }

  lemma LineCommentEnds(s: string, i: nat, e: nat)
    requires Pair(s, i, '/', '/')
    ensures LineComment(s, i, e) <==> e == LineEnd(s, i + 2)
  {
    hide LineEnd;
    LineEndIs(s, i + 2);
  }

  /** The scan passes over comment text at any depth. */
  lemma {:induction false} BlockEndSkips(s: string, i: nat, j: nat, depth: nat)
    requires CommentText(s, i, j) && depth > 0
    ensures BlockEnd(s, i, depth) == BlockEnd(s, j, depth)
    decreases j - i, 1
  {
    if i < j {
      if !Pair(s, i, '/', '*') && !Pair(s, i, '*', '/') && CommentText(s, i + 1, j) {
        BlockEndSkips(s, i + 1, j, depth);
      } else {
        var m :| i < m <= j && NestedComment(s, i, m) && CommentText(s, m, j);
        BlockEndSkipsNested(s, i, m, depth);
        BlockEndSkips(s, m, j, depth);
      }
    }
  }

  lemma {:induction false} BlockEndSkipsNested(s: string, i: nat, e: nat, depth: nat)
    requires NestedComment(s, i, e)
    ensures depth > 0 ==> BlockEnd(s, i, depth) == BlockEnd(s, e, depth)
    ensures BlockEnd(s, i + 2, depth + 1) == BlockEnd(s, e, depth)
    decreases e - i, 0
  {
    BlockEndSkips(s, i + 2, e - 2, depth + 1);
  }

  /** From i on: comment text and a closing mark, `depth` times, up to e. */
  ghost predicate Closes(s: string, i: nat, depth: nat, e: nat)
    decreases depth
  {
    if depth == 0 then i == e
    else exists j: nat :: CommentText(s, i, j) && Pair(s, j, '*', '/') && Closes(s, j + 2, depth - 1, e)
  }

  lemma CommentTextMore(s: string, i: nat, depth: nat, e: nat)
    requires depth > 0 && i < |s| && !Pair(s, i, '/', '*') && !Pair(s, i, '*', '/') && Closes(s, i + 1, depth, e)
    ensures Closes(s, i, depth, e)
  {
    var j: nat :| CommentText(s, i + 1, j) && Pair(s, j, '*', '/') && Closes(s, j + 2, depth - 1, e);
    assert CommentText(s, i, j);
  }

  lemma NestedCommentMore(s: string, i: nat, depth: nat, e: nat)
    requires depth > 0 && Pair(s, i, '/', '*') && Closes(s, i + 2, depth + 1, e)
    ensures Closes(s, i, depth, e)
  {
    var m: nat :| CommentText(s, i + 2, m) && Pair(s, m, '*', '/') && Closes(s, m + 2, depth, e);
    assert NestedComment(s, i, m + 2);
    var j: nat :| CommentText(s, m + 2, j) && Pair(s, j, '*', '/') && Closes(s, j + 2, depth - 1, e);
    assert CommentText(s, i, j);
  }

  /** Where the scan stops before the end of the text, all open comments are completed. */
  lemma {:induction false} BlockEndCloses(s: string, i: nat, depth: nat)
    requires i <= |s|
    ensures BlockEnd(s, i, depth) == |s| || Closes(s, i, depth, BlockEnd(s, i, depth))
    decreases |s| - i
  {
    if i == |s| || depth == 0 {
    } else if Pair(s, i, '/', '*') {
      BlockEndCloses(s, i + 2, depth + 1);
      if BlockEnd(s, i, depth) != |s| {
        NestedCommentMore(s, i, depth, BlockEnd(s, i, depth));
      }
    } else if Pair(s, i, '*', '/') {
      BlockEndCloses(s, i + 2, depth - 1);
      assert CommentText(s, i, i);
    } else {
      BlockEndCloses(s, i + 1, depth);
      if BlockEnd(s, i, depth) != |s| {
        CommentTextMore(s, i, depth, BlockEnd(s, i, depth));
      }
    }
  }

  lemma BlockCommentEnds(s: string, i: nat, e: nat)
    requires Pair(s, i, '/', '*')
    ensures BlockComment(s, i, e) <==> e == BlockEnd(s, i + 2, 1)
  {
    var end := BlockEnd(s, i + 2, 1);
    forall m: nat | NestedComment(s, i, m) ensures m == end {
      BlockEndSkipsNested(s, i, m, 0);
    }
    BlockEndCloses(s, i + 2, 1);
    if end != |s| {
      var j: nat :| CommentText(s, i + 2, j) && Pair(s, j, '*', '/') && Closes(s, j + 2, 0, end);
      assert NestedComment(s, i, end);
    }
  }

  lemma {:induction false} StringEndIs(s: string, from: nat, i: nat, escaped: bool)
    requires from <= i <= |s| && (escaped <==> Backslashes(s, from, i) % 2 == 1)
    ensures var e := StringEnd(s, i, escaped);
            || (i < e && ClosesString(s, from, e - 1) && forall q :: i <= q < e - 1 ==> !ClosesString(s, from, q))
            || (e == |s| && forall q :: i <= q < |s| ==> !ClosesString(s, from, q))
    decreases |s| - i
  {
    if i < |s| && !(s[i] == '"' && !escaped) {
      StringEndIs(s, from, i + 1, s[i] == '\\' && !escaped);
    }
  }

  lemma StringEnds(s: string, from: nat, e: nat)
    requires from <= |s|
    ensures StringEndsAt(s, from, e) <==> e == StringEnd(s, from, false)
  {
    hide ClosesString, StringEnd;
    StringEndIs(s, from, from, false);
  }

  lemma {:induction false} HashRunIs(s: string, i: nat, n: nat)
    requires i <= |s|
    ensures Hashes(s, i, HashRun(s, i)) && !CharAt(s, i + HashRun(s, i), '#')
    ensures Hashes(s, i, n) <==> n <= HashRun(s, i)
    decreases |s| - i
  {
    if CharAt(s, i, '#') {
      HashRunIs(s, i + 1, if n == 0 then 0 else n - 1);
    }
  }

  lemma {:induction false} RawEndIs(s: string, i: nat, hashes: nat)
    requires i <= |s|
    ensures var e := RawEnd(s, i, hashes);
            || (i + 1 + hashes <= e <= |s| && ClosesRaw(s, e - 1 - hashes, hashes)
                && forall q :: i <= q < e - 1 - hashes ==> !ClosesRaw(s, q, hashes))
            || (e == |s| && forall q :: i <= q < |s| ==> !ClosesRaw(s, q, hashes))
    decreases |s| - i
  {
    if i < |s| {
      HashRunIs(s, i + 1, hashes);
      if !(s[i] == '"' && HashRun(s, i + 1) >= hashes) {
        RawEndIs(s, i + 1, hashes);
      }
    }
  }

  lemma RawEnds(s: string, from: nat, hashes: nat, e: nat)
    requires from <= |s|
    ensures RawEndsAt(s, from, hashes, e) <==> e == RawEnd(s, from, hashes)
  {
    hide RawEnd, ClosesRaw;
    RawEndIs(s, from, hashes);
  }

  /** The prefix and the hashes of a raw string are determined by where it starts. */
  lemma RawPrefixIs(s: string, i: nat, prefix: nat, hashes: nat)
    requires RawPrefixAt(s, i, prefix) && hashes <= MAX_HASHES
    requires Hashes(s, i + prefix, hashes) && CharAt(s, i + prefix + hashes, '"')
    ensures RawPrefix(s, i) == prefix && HashRun(s, i + prefix) == hashes
  {
    hide HashRun;
    HashRunIs(s, i + prefix, hashes);
    if prefix == 1 && i + 2 <= |s| {
      assert !RawPrefixAt(s, i, 2) by { assert s[i + 1] == '#' || s[i + 1] == '"'; }
    }
  }

  lemma RawStringEnds(s: string, i: nat, e: nat)
    requires i < |s|
    ensures (exists prefix: nat, hashes: nat :: RawString(s, i, prefix, hashes, e)) <==>
            var p := RawPrefix(s, i);
            p > 0 && e == RawEnd(s, i + p + HashRun(s, i + p) + 1, HashRun(s, i + p))
  {
    hide HashRun, RawEnd, RawEndsAt;
    forall prefix: nat, hashes: nat | RawString(s, i, prefix, hashes, e)
      ensures RawPrefix(s, i) == prefix > 0 && HashRun(s, i + prefix) == hashes
      ensures e == RawEnd(s, i + prefix + hashes + 1, hashes)
    {
      RawPrefixIs(s, i, prefix, hashes);
      RawEnds(s, i + prefix + hashes + 1, hashes, e);
    }
    var p := RawPrefix(s, i);
    if p > 0 {
      var h := HashRun(s, i + p);
      HashRunIs(s, i + p, h);
      RawEnds(s, i + p + h + 1, h, e);
      assert e == RawEnd(s, i + p + h + 1, h) ==> RawString(s, i, p, h, e);
    }
  }

  lemma CharLiteralEnds(s: string, i: nat, e: nat)
    ensures CharLiteral(s, i, e) <==> CharEnd(s, i) == Some(e)
  {
    hide HexRun;
    if CharLiteral(s, i, e) && i + 7 <= e && s[i + 2] == 'u' && s[i + 3] == '{' {
      var n := HexRun(s, i + 4);
      assert i + 4 + n == e - 2;
    }
  }

  /**
   The order in which the lexer tries its branches does not matter: at most one kind of token
   starts at a position, it has one end, and that is the end the lexer finds.
   */
  lemma TokenEndIs(s: string, i: nat, e: nat)
    requires i < |s|
    ensures Token(s, i, e) <==> TokenEnd(s, i) == Some(e)
  {
    hide LineEnd, BlockEnd, StringEnd, RawEnd, CharEnd, HashRun, StringEndsAt, NestedComment, RawOpens;
    RawStringEnds(s, i, e);
    CharLiteralEnds(s, i, e);
    if Pair(s, i, '/', '/') {
      LineCommentEnds(s, i, e);
    } else if Pair(s, i, '/', '*') {
      BlockCommentEnds(s, i, e);
    } else if s[i] == '"' {
      StringEnds(s, i + 1, e);
    } else if Pair(s, i, 'b', '"') || Pair(s, i, 'c', '"') {
      StringEnds(s, i + 2, e);
    }
  }
}
