/**
 The two redaction loops, turn by turn.

 Each loop rewrites the text it scans. What it makes of a text is stated on the original text,
 character by character (`WithoutBearerTokens`, `WithoutQueries`), and its invariant splits the
 current text in two: what is done, and the original from some position on.

 A search in the current text finds what it would find in the original from that position on,
 because the two agree there (`SameAhead`). One turn then moves a piece of the original, with the
 mark in place of what is hidden, from the rest to what is done (`BearerTurn`, `KeptTurn`,
 `MaskedTurn`). The loops themselves are methods of the text buffer in the module Redaction.
 */
module RedactionLoops {
  import opened Text

  const MARK := "[REDACTED]"

  lemma MarkIsPlain()
    ensures |MARK| == 10 && MARK[0] == '['
    ensures forall i: nat :: i < 10 ==> !IsWhitespace(MARK[i]) && MARK[i] != 'b' && MARK[i] != 'B' && MARK[i] != ':' && MARK[i] != '?'
  {
    assert MARK[0] == '[' && MARK[1] == 'R' && MARK[2] == 'E' && MARK[3] == 'D' && MARK[4] == 'A';
    assert MARK[5] == 'C' && MARK[6] == 'T' && MARK[7] == 'E' && MARK[8] == 'D' && MARK[9] == ']';
  }

  /** `c` is the letter `lower`, in either case. */
  predicate IsLetter(c: char, lower: char, upper: char) {
    c == lower || c == upper
  }

  /** `bearer `, in any ASCII case. */
  predicate BearerAt(s: string, i: nat) {
    && i + 7 <= |s|
    && IsLetter(s[i], 'b', 'B') && IsLetter(s[i + 1], 'e', 'E') && IsLetter(s[i + 2], 'a', 'A')
    && IsLetter(s[i + 3], 'r', 'R') && IsLetter(s[i + 4], 'e', 'E') && IsLetter(s[i + 5], 'r', 'R')
    && s[i + 6] == ' '
  }

  predicate SchemeAt(s: string, i: nat) {
    i + 3 <= |s| && s[i] == ':' && s[i + 1] == '/' && s[i + 2] == '/'
  }

  predicate WordEndsAt(s: string, i: nat) {
    i == |s| || (i < |s| && IsWhitespace(s[i]))
  }

  predicate MarkAt(s: string, i: nat) {
    i + 10 <= |s| && s[i..i + 10] == MARK
  }

  function FindBearer(s: string, i: nat): (r: nat)
    requires i <= |s|
    ensures i <= r <= |s| && (r < |s| ==> BearerAt(s, r))
    ensures forall k: nat :: i <= k < r ==> !BearerAt(s, k)
    decreases |s| - i
  {
    if i == |s| || BearerAt(s, i) then i else FindBearer(s, i + 1)
  }

  function FindScheme(s: string, i: nat): (r: nat)
    requires i <= |s|
    ensures i <= r <= |s| && (r < |s| ==> SchemeAt(s, r))
    ensures forall k: nat :: i <= k < r ==> !SchemeAt(s, k)
    decreases |s| - i
  {
    if i == |s| || SchemeAt(s, i) then i else FindScheme(s, i + 1)
  }

  /** The first whitespace at or after i, or the end. */
  function WordEnd(s: string, i: nat): (r: nat)
    requires i <= |s|
    ensures i <= r <= |s| && WordEndsAt(s, r)
    ensures forall k: nat :: i <= k < r ==> !IsWhitespace(s[k])
    decreases |s| - i
  {
    if i == |s| || IsWhitespace(s[i]) then i else WordEnd(s, i + 1)
  }

  /** The first `?` in s[i..end], or end. */
  function FindQuery(s: string, i: nat, end: nat): (r: nat)
    requires i <= end <= |s|
    ensures i <= r <= end && (r < end ==> s[r] == '?')
    ensures forall k: nat :: i <= k < r ==> s[k] != '?'
    decreases end - i
  {
    if i == end || s[i] == '?' then i else FindQuery(s, i + 1, end)
  }

  // ----- The redacted text, character by character -----

  /** The text from position i on, with the word after each `bearer ` masked. */
  function BearerFrom(s: string, i: nat): string
    requires i <= |s|
    decreases |s| - i
  {
    if i == |s| then ""
    else if BearerAt(s, i) then s[i..i + 7] + MARK + BearerFrom(s, WordEnd(s, i + 7))
    else [s[i]] + BearerFrom(s, i + 1)
  }

  /** The word s[i..end], with what follows its first `?` masked. */
  function UrlFrom(s: string, i: nat, end: nat): string
    requires i <= end <= |s|
    decreases end - i
  {
    if i == end then ""
    else if s[i] == '?' then [s[i]] + MARK
    else [s[i]] + UrlFrom(s, i + 1, end)
  }

  /** The text from position i on, with the query of each URL masked. */
  function QueriesFrom(s: string, i: nat): string
    requires i <= |s|
    decreases |s| - i
  {
    if i == |s| then ""
    else if SchemeAt(s, i) then UrlFrom(s, i, WordEnd(s, i)) + QueriesFrom(s, WordEnd(s, i))
    else [s[i]] + QueriesFrom(s, i + 1)
  }

  function WithoutBearerTokens(s: string): string {
    BearerFrom(s, 0)
  }

  function WithoutQueries(s: string): string {
    QueriesFrom(s, 0)
  }

  // ----- The searches depend on the text ahead only -----

  /** From position d on, t reads as s does from position i on. */
  predicate SameAhead(s: string, i: nat, t: string, d: nat) {
    && i <= |s| && d <= |t| && |s| - i == |t| - d
    && forall k: nat :: i <= k < |s| ==> t[k + (d - i)] == s[k]
  }

  lemma {:induction false} FindBearerAhead(s: string, i: nat, t: string, d: nat)
    requires SameAhead(s, i, t, d)
    ensures FindBearer(t, d) - d == FindBearer(s, i) - i
    decreases |s| - i
  {
    if i < |s| {
      assert BearerAt(s, i) == BearerAt(t, d);
      if !BearerAt(s, i) {
        FindBearerAhead(s, i + 1, t, d + 1);
      }
    }
  }

  lemma {:induction false} FindSchemeAhead(s: string, i: nat, t: string, d: nat)
    requires SameAhead(s, i, t, d)
    ensures FindScheme(t, d) - d == FindScheme(s, i) - i
    decreases |s| - i
  {
    if i < |s| {
      assert SchemeAt(s, i) == SchemeAt(t, d);
      if !SchemeAt(s, i) {
        FindSchemeAhead(s, i + 1, t, d + 1);
      }
    }
  }

  lemma {:induction false} FindQueryAhead(s: string, i: nat, end: nat, t: string, d: nat, stop: nat)
    requires SameAhead(s, i, t, d) && i <= end <= |s| && d <= stop <= |t| && end - i == stop - d
    ensures FindQuery(t, d, stop) - d == FindQuery(s, i, end) - i
    decreases |s| - i
  {
    if i < end {
      assert s[i] == t[i + (d - i)];
      if s[i] != '?' {
        FindQueryAhead(s, i + 1, end, t, d + 1, stop);
      }
    }
  }

  lemma {:induction false} WordAhead(s: string, i: nat, t: string, d: nat)
    requires SameAhead(s, i, t, d)
    ensures WordEnd(t, d) - d == WordEnd(s, i) - i
    decreases |s| - i
  {
    if i < |s| {
      assert s[i] == t[i + (d - i)];
      if !IsWhitespace(s[i]) {
        WordAhead(s, i + 1, t, d + 1);
      }
    }
  }

  /** The text while a loop runs: `done`, then the original from `at` on. */
  predicate Progress(text: string, offset: nat, done: string, origin: string, at: nat) {
    && offset == |done| <= |text| && text[..offset] == done
    && SameAhead(origin, at, text, offset)
  }

  lemma ProgressStarts(text: string)
    ensures Progress(text, 0, "", text, 0)
  {
  }

  lemma Finished(text: string, offset: nat, done: string, origin: string, at: nat)
    requires Progress(text, offset, done, origin, at)
    ensures text == done + origin[at..]
  {
    forall k: nat | k < |text| ensures text[k] == (done + origin[at..])[k] {
      if k < offset {
        assert text[..offset][k] == done[k];
      } else {
        assert origin[at + (k - offset)] == text[k];
      }
    }
  }

  /** Putting m in place of the text between positions i and j. */
  lemma Replaced(text: string, offset: nat, done: string, origin: string, at: nat, i: nat, m: string, j: nat)
    requires Progress(text, offset, done, origin, at) && offset <= i <= j <= |text|
    ensures at + (j - offset) <= |origin|
    ensures Progress(text[..i] + m + text[j..], i + |m|, done + origin[at..at + (i - offset)] + m, origin, at + (j - offset))
  {
    var next := text[..i] + m + text[j..];
    var c := at - offset;
    assert text[offset..i] == origin[at..i + c] by {
      forall k: nat | k < i - offset ensures text[offset..i][k] == origin[at..i + c][k] {
        assert origin[at + k] == text[k + offset];
      }
    }
    assert text[..i] == text[..offset] + text[offset..i];
    assert next[..i + |m|] == done + origin[at..i + c] + m;
    forall k: nat | j + c <= k < |origin| ensures next[k + (i + |m| - (j + c))] == origin[k] {
      assert text[k - c] == origin[k];
    }
  }

  lemma BearerFinished(text: string, offset: nat, done: string, origin: string, at: nat)
    requires Progress(text, offset, done, origin, at) && FindBearer(text, offset) == |text|
    ensures text == done + BearerFrom(origin, at)
  {
    Finished(text, offset, done, origin, at);
    FindBearerAhead(origin, at, text, offset);
    BearerSkipped(origin, at, |origin|);
  }

  /** Where no `bearer ` starts the text stays. */
  lemma {:induction false} BearerSkipped(s: string, i: nat, p: nat)
    requires i <= p <= |s| && forall k: nat :: i <= k < p ==> !BearerAt(s, k)
    ensures BearerFrom(s, i) == s[i..p] + BearerFrom(s, p)
    decreases p - i
  {
    if i < p {
      BearerSkipped(s, i + 1, p);
      Cons(s, i, p, BearerFrom(s, p));
    }
  }

  lemma Cons(s: string, i: nat, p: nat, left: string)
    requires i < p <= |s|
    ensures [s[i]] + (s[i + 1..p] + left) == s[i..p] + left
  {
  }

  lemma BearerLeads(done: string, s: string, at: nat, start: nat, end: nat)
    requires at <= |s| && start <= |s| && FindBearer(s, at) + 7 == start && WordEnd(s, start) == end
    ensures done + s[at..start] + MARK + BearerFrom(s, end) == done + BearerFrom(s, at)
  {
    var p: nat := start - 7;
    BearerSkipped(s, at, p);
    Regroup(done, s, at, p, start, MARK, BearerFrom(s, end));
  }

  lemma BearerAhead(text: string, offset: nat, done: string, origin: string, at: nat, start: nat, end: nat)
      returns (stop: nat, reached: nat)
    requires SameAhead(origin, at, text, offset)
    requires start <= |text| && FindBearer(text, offset) + 7 == start && WordEnd(text, start) == end
    ensures stop == at + (start - offset) && reached == at + (end - offset)
    ensures at <= stop <= reached <= |origin|
    ensures done + origin[at..stop] + MARK + BearerFrom(origin, reached) == done + BearerFrom(origin, at)
  {
    hide BearerFrom, FindBearer, WordEnd;
    stop, reached := at + (start - offset), at + (end - offset);
    FindBearerAhead(origin, at, text, offset);
    WordAhead(origin, stop, text, start);
    BearerLeads(done, origin, at, stop, reached);
  }

  lemma BearerTurn(text: string, offset: nat, done: string, origin: string, at: nat, start: nat, end: nat)
      returns (more: string, reached: nat)
    requires Progress(text, offset, done, origin, at)
    requires start <= |text| && FindBearer(text, offset) + 7 == start && WordEnd(text, start) == end
    ensures Progress(text[..start] + MARK + text[end..], start + |MARK|, more, origin, reached)
    ensures reached <= |origin| && more + BearerFrom(origin, reached) == done + BearerFrom(origin, at)
  {
    hide BearerFrom, FindBearer, WordEnd, SameAhead;
    var stop: nat;
    stop, reached := BearerAhead(text, offset, done, origin, at, start, end);
    more := done + origin[at..stop] + MARK;
    Replaced(text, offset, done, origin, at, start, MARK, end);
  }

  lemma Regroup(done: string, s: string, i: nat, p: nat, q: nat, m: string, left: string)
    requires i <= p <= q <= |s|
    ensures done + s[i..q] + m + left == done + (s[i..p] + (s[p..q] + m + left))
  {
    assert s[i..q] == s[i..p] + s[p..q];
  }

  lemma QueriesFinished(text: string, offset: nat, done: string, origin: string, at: nat)
    requires Progress(text, offset, done, origin, at) && FindScheme(text, offset) == |text|
    ensures text == done + QueriesFrom(origin, at)
  {
    Finished(text, offset, done, origin, at);
    FindSchemeAhead(origin, at, text, offset);
    UrlsSkipped(origin, at, |origin|);
  }

  /** Where no `://` stands the text stays. */
  lemma {:induction false} UrlsSkipped(s: string, i: nat, p: nat)
    requires i <= p <= |s| && forall k: nat :: i <= k < p ==> !SchemeAt(s, k)
    ensures QueriesFrom(s, i) == s[i..p] + QueriesFrom(s, p)
    decreases p - i
  {
    if i < p {
      UrlsSkipped(s, i + 1, p);
      Cons(s, i, p, QueriesFrom(s, p));
    }
  }

  lemma {:induction false} UrlIs(s: string, i: nat, end: nat)
    requires i <= end <= |s|
    ensures var q := FindQuery(s, i, end);
            UrlFrom(s, i, end) == if q == end then s[i..end] else s[i..q + 1] + MARK
    decreases end - i
  {
    if i < end && s[i] != '?' {
      UrlIs(s, i + 1, end);
      var q := FindQuery(s, i + 1, end);
      Cons(s, i, if q == end then end else q + 1, if q == end then "" else MARK);
      Empty(s[i + 1..end], s[i..end]);
    }
  }

  lemma Empty(a: string, b: string)
    ensures a + "" == a && b + "" == b
  {
  }

  /** The next URL of s from position `at` on is s[p..end]; q is its first `?`, or end. */
  predicate NextUrl(s: string, at: nat, p: nat, end: nat, q: nat) {
    at <= p < |s| && FindScheme(s, at) == p && WordEnd(s, p) == end && FindQuery(s, p, end) == q
  }

  lemma UrlAhead(text: string, cursor: nat, origin: string, at: nat, p: nat, end: nat, q: nat)
    requires SameAhead(origin, at, text, cursor) && NextUrl(text, cursor, p, end, q)
    ensures p < end && NextUrl(origin, at, p + at - cursor, end + at - cursor, q + at - cursor)
  {
    hide WordEnd, FindQuery, FindScheme;
    var c := at - cursor;
    FindSchemeAhead(origin, at, text, cursor);
    WordAhead(origin, p + c, text, p);
    FindQueryAhead(origin, p + c, end + c, text, p, end);
  }

  lemma KeptUrl(done: string, s: string, at: nat, p: nat, end: nat)
    requires NextUrl(s, at, p, end, end)
    ensures done + s[at..end] + QueriesFrom(s, end) == done + QueriesFrom(s, at)
  {
    UrlsSkipped(s, at, p);
    UrlIs(s, p, end);
    Regroup(done, s, at, p, end, "", QueriesFrom(s, end));
    Empty(done + s[at..end], s[p..end]);
  }

  lemma MaskedUrl(done: string, s: string, at: nat, p: nat, end: nat, stop: nat)
    requires 0 < stop <= end && NextUrl(s, at, p, end, stop - 1)
    ensures done + s[at..stop] + MARK + QueriesFrom(s, end) == done + QueriesFrom(s, at)
  {
    UrlsSkipped(s, at, p);
    MaskedWord(s, p, end, stop - 1);
    RegroupUrl(done, s, at, p, stop - 1, UrlFrom(s, p, end), QueriesFrom(s, end));
  }

  lemma MaskedWord(s: string, p: nat, end: nat, q: nat)
    requires p <= end <= |s| && FindQuery(s, p, end) == q && q < end
    ensures UrlFrom(s, p, end) == s[p..q + 1] + MARK
  {
    UrlIs(s, p, end);
  }

  lemma RegroupUrl(done: string, s: string, at: nat, p: nat, q: nat, url: string, left: string)
    requires at <= p <= q < |s| && url == s[p..q + 1] + MARK
    ensures done + s[at..q + 1] + MARK + left == done + (s[at..p] + (url + left))
  {
    Regroup(done, s, at, p, q + 1, MARK, left);
  }

  lemma KeptTurn(text: string, cursor: nat, done: string, origin: string, at: nat, p: nat, end: nat)
      returns (more: string, reached: nat)
    requires Progress(text, cursor, done, origin, at) && NextUrl(text, cursor, p, end, end)
    ensures Progress(text, end, more, origin, reached)
    ensures reached <= |origin| && more + QueriesFrom(origin, reached) == done + QueriesFrom(origin, at)
  {
    hide QueriesFrom, FindScheme, WordEnd, FindQuery;
    reached := end + at - cursor;
    more := done + origin[at..reached];
    UrlAhead(text, cursor, origin, at, p, end, end);
    KeptUrl(done, origin, at, p + at - cursor, reached);
    Kept(text, cursor, done, origin, at, end);
  }

  lemma MaskedAhead(text: string, cursor: nat, done: string, origin: string, at: nat, p: nat, end: nat, q: nat)
      returns (stop: nat, reached: nat)
    requires SameAhead(origin, at, text, cursor) && NextUrl(text, cursor, p, end, q) && q < end
    ensures stop == at + (q + 1 - cursor) && reached == at + (end - cursor)
    ensures at <= stop <= reached <= |origin|
    ensures done + origin[at..stop] + MARK + QueriesFrom(origin, reached) == done + QueriesFrom(origin, at)
  {
    stop, reached := at + (q + 1 - cursor), at + (end - cursor);
    UrlAhead(text, cursor, origin, at, p, end, q);
    MaskedUrl(done, origin, at, p + at - cursor, reached, stop);
  }

  lemma MaskedTurn(text: string, cursor: nat, done: string, origin: string, at: nat, p: nat, end: nat, q: nat)
      returns (more: string, reached: nat)
    requires Progress(text, cursor, done, origin, at) && NextUrl(text, cursor, p, end, q) && q < end
    ensures Progress(text[..q + 1] + MARK + text[end..], q + 1 + |MARK|, more, origin, reached)
    ensures reached <= |origin| && more + QueriesFrom(origin, reached) == done + QueriesFrom(origin, at)
  {
    hide QueriesFrom, FindScheme, WordEnd, FindQuery, SameAhead;
    var stop: nat;
    stop, reached := MaskedAhead(text, cursor, done, origin, at, p, end, q);
    more := done + origin[at..stop] + MARK;
    Replaced(text, cursor, done, origin, at, q + 1, MARK, end);
  }

  lemma Kept(text: string, offset: nat, done: string, origin: string, at: nat, i: nat)
    requires Progress(text, offset, done, origin, at) && offset <= i <= |text|
    ensures Progress(text, i, done + origin[at..at + (i - offset)], origin, at + (i - offset))
  {
    Replaced(text, offset, done, origin, at, i, "", i);
    assert text[..i] + "" + text[i..] == text;
    Empty(done + origin[at..at + (i - offset)], text);
  }
}
