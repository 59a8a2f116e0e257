/**
 Redaction in plain words: what the result shows and what it keeps, told from the text itself.

 Nothing here refers to a search. An occurrence is a piece of text that reads `bearer ` in lower
 case, or `://`; a word ends at white space or at the end. Each of the two specifications is
 determined by three laws: text without an occurrence stays, the first occurrence masks the word
 behind it (or the query of its URL), and what follows is redacted by itself.
 */
module RedactionLaws {
  import opened RedactedText
  import opened RedactionLoops
  import opened Text

  // ----- Occurrences, spelled out -----

  predicate ReadsBearer(s: string, i: nat) {
    i + 7 <= |s| && Lower(s[i..i + 7]) == "bearer "
  }

  predicate ReadsScheme(s: string, i: nat) {
    i + 3 <= |s| && s[i..i + 3] == "://"
  }

  /** The mark stands at i, and nothing but white space or the end follows. */
  predicate OnlyMark(s: string, i: nat) {
    i + 10 <= |s| && s[i..i + 10] == "[REDACTED]" && (i + 10 == |s| || IsWhitespace(s[i + 10]))
  }

  /** Behind every `bearer `, in any ASCII case, stands the mark alone. */
  ghost predicate NoTokenInClear(s: string) {
    forall i: nat :: ReadsBearer(s, i) ==> OnlyMark(s, i + 7)
  }

  /** Behind the first `?` of every URL stands the mark alone. */
  ghost predicate NoQueryInClear(s: string) {
    forall i: nat, q: nat :: ReadsScheme(s, i) && FirstQuery(s, i, q) ==> OnlyMark(s, q + 1)
  }

  predicate FirstQuery(s: string, i: nat, q: nat) {
    i <= q < |s| && s[q] == '?' && forall k :: i <= k < q ==> s[k] != '?' && !IsWhitespace(s[k])
  }

  lemma BearerReads(s: string, i: nat)
    ensures BearerAt(s, i) <==> ReadsBearer(s, i)
  {
    if i + 7 <= |s| {
      var w := s[i..i + 7];
      hide Lower;
      forall k: nat | k < 7 ensures Lower(w)[k] == LowerChar(s[i + k]) { LowerAt(w, k); }
      BearerLetters(s, i, Lower(w));
    }
  }

  lemma BearerLetters(s: string, i: nat, low: string)
    requires i + 7 <= |s| && |low| == 7
    requires forall k: nat :: k < 7 ==> low[k] == LowerChar(s[i + k])
    ensures BearerAt(s, i) <==> low == "bearer "
  {
    assert low[0] == LowerChar(s[i + 0]) && low[1] == LowerChar(s[i + 1]) && low[2] == LowerChar(s[i + 2]);
    assert low[3] == LowerChar(s[i + 3]) && low[4] == LowerChar(s[i + 4]) && low[5] == LowerChar(s[i + 5]);
    assert low[6] == LowerChar(s[i + 6]);
    if BearerAt(s, i) {
      assert low == ['b', 'e', 'a', 'r', 'e', 'r', ' '];
    }
  }

  lemma SchemeReads(s: string, i: nat)
    ensures SchemeAt(s, i) <==> ReadsScheme(s, i)
  {
    if i + 3 <= |s| {
      var w := s[i..i + 3];
      assert w[0] == s[i] && w[1] == s[i + 1] && w[2] == s[i + 2];
      if SchemeAt(s, i) {
        assert w == [':', '/', '/'];
      }
    }
  }

  // ----- What the result shows -----

  lemma HiddenIsNotInClear(s: string)
    ensures TokensHidden(s) <==> NoTokenInClear(s)
  {
    hide BearerAt, ReadsBearer;
    forall i: nat { BearerReads(s, i); }
    forall i: nat ensures OnlyMark(s, i) <==> MarkAt(s, i) && WordEndsAt(s, i + 10) {}
  }

  lemma FirstQueryIs(s: string, i: nat, q: nat)
    requires i < |s|
    ensures FirstQuery(s, i, q) <==> (q == FindQuery(s, i, WordEnd(s, i)) && q < WordEnd(s, i))
  {
    hide WordEnd, FindQuery;
  }

  lemma MarkIsRestOfWord(s: string, i: nat, q: nat)
    requires FirstQuery(s, i, q)
    ensures OnlyMark(s, q + 1) <==> MarkAt(s, q + 1) && WordEnd(s, i) == q + 11
  {
    hide WordEnd;
    if OnlyMark(s, q + 1) {
      MarkIsPlain();
      forall k: nat | i <= k < q + 11 ensures !IsWhitespace(s[k]) {
        if k > q {
          assert s[q + 1..q + 11][k - (q + 1)] == MARK[k - (q + 1)];
        }
      }
      WordEndIs(s, i, q + 11);
    }
  }

  lemma HiddenAtIs(s: string, i: nat)
    requires i < |s|
    ensures QueryHiddenAt(s, i) <==> forall q: nat :: FirstQuery(s, i, q) ==> OnlyMark(s, q + 1)
  {
    hide WordEnd, FindQuery, FirstQuery, OnlyMark, MarkAt;
    var end := WordEnd(s, i);
    var first := FindQuery(s, i, end);
    forall q: nat ensures FirstQuery(s, i, q) <==> q == first < end { FirstQueryIs(s, i, q); }
    if first < end {
      MarkIsRestOfWord(s, i, first);
    }
  }

  lemma HiddenQueriesAreNotInClear(s: string)
    ensures QueriesHidden(s) <==> NoQueryInClear(s)
  {
    hide SchemeAt, QueryHiddenAt, FirstQuery, OnlyMark;
    forall i: nat { SchemeReads(s, i); }
    forall i: nat | ReadsScheme(s, i)
      ensures QueryHiddenAt(s, i) <==> forall q: nat :: FirstQuery(s, i, q) ==> OnlyMark(s, q + 1)
    {
      HiddenAtIs(s, i);
    }
  }

  // ----- Upper and lower case are treated alike -----

  predicate SameButCase(s: string, t: string) {
    |s| == |t| && forall k: nat :: k < |s| ==> LowerChar(s[k]) == LowerChar(t[k])
  }

  lemma SameLower(s: string, t: string)
    ensures SameButCase(s, t) <==> Lower(s) == Lower(t)
  {
    hide Lower;
    if |s| == |t| {
      forall k: nat | k < |s| ensures Lower(s)[k] == LowerChar(s[k]) && Lower(t)[k] == LowerChar(t[k]) {
        LowerAt(s, k);
        LowerAt(t, k);
      }
    }
  }

  lemma SameOccurrences(s: string, t: string, i: nat)
    requires SameButCase(s, t) && i <= |s|
    ensures BearerAt(s, i) == BearerAt(t, i)
    ensures i < |s| ==> IsWhitespace(s[i]) == IsWhitespace(t[i])
  {
    if i + 7 <= |s| {
      assert LowerChar(s[i + 0]) == LowerChar(t[i + 0]) && LowerChar(s[i + 1]) == LowerChar(t[i + 1]);
      assert LowerChar(s[i + 2]) == LowerChar(t[i + 2]) && LowerChar(s[i + 3]) == LowerChar(t[i + 3]);
      assert LowerChar(s[i + 4]) == LowerChar(t[i + 4]) && LowerChar(s[i + 5]) == LowerChar(t[i + 5]);
      assert LowerChar(s[i + 6]) == LowerChar(t[i + 6]);
    }
    assert i < |s| ==> LowerChar(s[i]) == LowerChar(t[i]);
  }

  lemma {:induction false} SameWordEnd(s: string, t: string, i: nat)
    requires SameButCase(s, t) && i <= |s|
    ensures WordEnd(s, i) == WordEnd(t, i)
    decreases |s| - i
  {
    SameOccurrences(s, t, i);
    if i < |s| && !IsWhitespace(s[i]) {
      SameWordEnd(s, t, i + 1);
    }
  }

  lemma {:induction false} SameFrom(s: string, t: string, i: nat)
    requires SameButCase(s, t) && i <= |s|
    ensures SameButCase(BearerFrom(s, i), BearerFrom(t, i))
    decreases |s| - i
  {
    hide BearerFrom, BearerAt, WordEnd;
    SameOccurrences(s, t, i);
    if i == |s| {
      BearerNowhere(s);
      BearerNowhere(t);
    } else if BearerAt(s, i) {
      BearerIsInside(s, i);
      BearerHere(s, i);
      BearerHere(t, i);
      SameWordEnd(s, t, i + 7);
      SameFrom(s, t, WordEnd(s, i + 7));
    } else {
      NoBearerHere(s, i);
      NoBearerHere(t, i);
      SameFrom(s, t, i + 1);
    }
  }

  lemma BearerIsInside(s: string, i: nat)
    requires BearerAt(s, i)
    ensures i + 7 <= |s|
  {
  }

  /**
   Texts that differ only in ASCII case are redacted alike: the same words are masked, since the
   occurrences and the ends of words are at the same positions, and all else differs only in case.
   */
  lemma CaseDoesNotMatter(s: string, t: string)
    requires Lower(s) == Lower(t)
    ensures Lower(WithoutBearerTokens(s)) == Lower(WithoutBearerTokens(t))
    ensures forall i: nat :: ReadsBearer(s, i) <==> ReadsBearer(t, i)
    ensures |s| == |t| && forall i: nat :: i < |s| ==> (IsWhitespace(s[i]) <==> IsWhitespace(t[i]))
  {
    hide Lower, BearerAt, ReadsBearer, IsWhitespace, BearerFrom;
    SameLower(s, t);
    SameFrom(s, t, 0);
    SameLower(WithoutBearerTokens(s), WithoutBearerTokens(t));
    forall i: nat ensures ReadsBearer(s, i) <==> ReadsBearer(t, i) {
      BearerReads(s, i);
      BearerReads(t, i);
      if i <= |s| {
        SameOccurrences(s, t, i);
      } else {
        NoBearerBeyond(s, i);
        NoBearerBeyond(t, i);
      }
    }
    forall i: nat | i < |s| ensures IsWhitespace(s[i]) <==> IsWhitespace(t[i]) { SameOccurrences(s, t, i); }
  }

  lemma NoBearerBeyond(s: string, i: nat)
    requires i > |s|
    ensures !BearerAt(s, i)
  {
  }

  // ----- What the result keeps -----

  /** What a pass makes of the text behind a position depends on that text alone. */
  lemma {:induction false} BearerFromAhead(s: string, i: nat, t: string, d: nat)
    requires SameAhead(s, i, t, d)
    ensures BearerFrom(s, i) == BearerFrom(t, d)
    decreases |s| - i
  {
    hide BearerFrom, WordEnd;
    if i == |s| {
      BearerNowhere(s);
      BearerNowhere(t);
    } else {
      assert BearerAt(s, i) == BearerAt(t, d);
      if BearerAt(s, i) {
        BearerHere(s, i);
        BearerHere(t, d);
        WordAhead(s, i + 7, t, d + 7);
        assert s[i..i + 7] == t[d..d + 7];
        BearerFromAhead(s, WordEnd(s, i + 7), t, WordEnd(t, d + 7));
      } else {
        NoBearerHere(s, i);
        NoBearerHere(t, d);
        BearerFromAhead(s, i + 1, t, d + 1);
      }
    }
  }

  predicate IsWord(w: string) {
    forall k: nat :: k < |w| ==> !IsWhitespace(w[k])
  }

  lemma SamePiece(s: string, t: string, i: nat, n: nat)
    requires |t| <= |s| && s[..|t|] == t && i + n <= |t|
    ensures s[i..i + n] == t[i..i + n]
  {
    assert forall k: nat :: k < |t| ==> s[..|t|][k] == t[k];
  }

  lemma FirstBearerAt(s: string, p: nat, end: nat, b: string)
    requires BearerAt(s, p) && forall i: nat :: i < p ==> !BearerAt(s, i)
    requires WordEnd(s, p + 7) == end && SameAhead(b, 0, s, end)
    ensures WithoutBearerTokens(s) == s[0..p] + (s[p..p + 7] + MARK + WithoutBearerTokens(b))
  {
    hide BearerFrom, WordEnd;
    BearerSkipped(s, 0, p);
    BearerHere(s, p);
    BearerFromAhead(b, 0, s, end);
  }

  lemma NoEarlierBearer(s: string, a: string, key: string)
    requires |key| == 7 && |a + key| <= |s| && s[..|a + key|] == a + key
    requires forall i: nat :: i < |a| ==> !ReadsBearer(a + key, i)
    ensures forall i: nat :: i < |a| ==> !BearerAt(s, i)
  {
    hide BearerAt, Lower;
    forall i: nat | i < |a| ensures !BearerAt(s, i) {
      assert !ReadsBearer(a + key, i);
      SamePiece(s, a + key, i, 7);
      BearerReads(s, i);
    }
  }

  lemma Pieces(a: string, key: string, w: string, b: string)
    ensures var s := a + key + w + b;
            && s[..|a + key|] == a + key && s[0..|a|] == a && s[|a|..|a| + |key|] == key
  {
  }

  /**
   The first `bearer ` keeps what stands before it, masks the word behind it, and leaves the rest to
   be redacted by itself.
   */
  lemma FirstBearerLaw(a: string, key: string, w: string, b: string)
    requires Lower(key) == "bearer " && forall i: nat :: i < |a| ==> !ReadsBearer(a + key, i)
    requires IsWord(w) && WordEndsAt(b, 0)
    ensures WithoutBearerTokens(a + key + w + b) == a + key + "[REDACTED]" + WithoutBearerTokens(b)
  {
    hide BearerFrom, WordEnd, Lower, BearerAt, WithoutBearerTokens, IsWord, SameAhead;
    var s, p := a + key + w + b, |a|;
    assert |key| == 7;
    Pieces(a, key, w, b);
    BearerReads(s, p);
    NoEarlierBearer(s, a, key);
    EndOfWord(a + key, w, b);
    FirstBearerAt(s, p, p + 7 + |w|, b);
    Join(a, key, WithoutBearerTokens(b));
  }

  lemma Join(a: string, b: string, c: string)
    ensures a + (b + MARK + c) == a + b + "[REDACTED]" + c
  {
  }

  lemma EndOfWord(a: string, w: string, b: string)
    requires IsWord(w) && WordEndsAt(b, 0)
    ensures WordEnd(a + w + b, |a|) == |a| + |w|
    ensures SameAhead(b, 0, a + w + b, |a| + |w|)
  {
    hide WordEnd;
    var s := a + w + b;
    assert forall k: nat :: k < |w| ==> s[|a| + k] == w[k];
    assert b != [] ==> s[|a| + |w|] == b[0];
    forall k: nat | |a| <= k < |a| + |w| ensures !IsWhitespace(s[k]) {
      assert s[k] == w[k - |a|];
    }
    WordEndIs(s, |a|, |a| + |w|);
  }

  lemma {:induction false} UrlFromAhead(s: string, i: nat, end: nat, t: string, d: nat, stop: nat)
    requires SameAhead(s, i, t, d) && i <= end <= |s| && d <= stop <= |t| && end - i == stop - d
    ensures UrlFrom(s, i, end) == UrlFrom(t, d, stop)
    decreases end - i
  {
    if i < end {
      assert s[i] == t[i + (d - i)];
      if s[i] != '?' {
        UrlFromAhead(s, i + 1, end, t, d + 1, stop);
      }
    }
  }

  lemma UrlHere(s: string, i: nat)
    requires SchemeAt(s, i)
    ensures i < WordEnd(s, i)
    ensures QueriesFrom(s, i) == UrlFrom(s, i, WordEnd(s, i)) + QueriesFrom(s, WordEnd(s, i))
  {
    hide UrlFrom;
  }

  lemma UrlNowhere(s: string)
    ensures QueriesFrom(s, |s|) == ""
  {
  }

  lemma {:induction false} QueriesFromAhead(s: string, i: nat, t: string, d: nat)
    requires SameAhead(s, i, t, d)
    ensures QueriesFrom(s, i) == QueriesFrom(t, d)
    decreases |s| - i
  {
    hide QueriesFrom, UrlFrom, WordEnd;
    if i == |s| {
      UrlNowhere(s);
      UrlNowhere(t);
    } else {
      assert SchemeAt(s, i) == SchemeAt(t, d);
      if SchemeAt(s, i) {
        UrlHere(s, i);
        UrlHere(t, d);
        WordAhead(s, i, t, d);
        UrlFromAhead(s, i, WordEnd(s, i), t, d, WordEnd(t, d));
        QueriesFromAhead(s, WordEnd(s, i), t, WordEnd(t, d));
      } else {
        NoUrlHere(s, i);
        NoUrlHere(t, d);
        QueriesFromAhead(s, i + 1, t, d + 1);
      }
    }
  }

  lemma FirstUrlAt(s: string, p: nat, end: nat, b: string)
    requires SchemeAt(s, p) && forall i: nat :: i < p ==> !SchemeAt(s, i)
    requires WordEnd(s, p) == end && SameAhead(b, 0, s, end)
    ensures WithoutQueries(s) == s[0..p] + (UrlFrom(s, p, end) + WithoutQueries(b))
  {
    hide QueriesFrom, UrlFrom, WordEnd;
    UrlsSkipped(s, 0, p);
    UrlHere(s, p);
    QueriesFromAhead(b, 0, s, end);
  }

  /** The first URL of a text: what stands before it, and the URL with its word end. */
  predicate StartsFirstUrl(a: string, u: string) {
    ReadsScheme(u, 0) && IsWord(u) && forall i: nat :: i < |a| ==> !ReadsScheme(a + u, i)
  }

  lemma NoEarlierUrl(s: string, a: string, u: string)
    requires StartsFirstUrl(a, u) && |a + u| <= |s| && s[..|a + u|] == a + u
    ensures SchemeAt(s, |a|) && forall i: nat :: i < |a| ==> !SchemeAt(s, i)
  {
    hide SchemeAt;
    forall i: nat | i < |a| ensures !SchemeAt(s, i) {
      assert !ReadsScheme(a + u, i);
      SamePiece(s, a + u, i, 3);
      SchemeReads(s, i);
    }
    SamePiece(s, a + u, |a|, 3);
    assert (a + u)[|a|..|a| + 3] == u[0..3];
    SchemeReads(s, |a|);
  }

  /** A URL without a query stays, and the rest is redacted by itself. */
  lemma FirstUrlLaw(a: string, u: string, b: string)
    requires StartsFirstUrl(a, u) && '?' !in u && WordEndsAt(b, 0)
    ensures WithoutQueries(a + u + b) == a + u + WithoutQueries(b)
  {
    hide QueriesFrom, UrlFrom, WordEnd, SchemeAt, FindQuery, WithoutQueries, SameAhead;
    var s, p, end := a + u + b, |a|, |a| + |u|;
    assert s[..|a + u|] == a + u && s[0..p] == a && s[p..end] == u;
    NoEarlierUrl(s, a, u);
    EndOfWord(a, u, b);
    FirstUrlAt(s, p, end, b);
    UrlIs(s, p, end);
    NoQueryWithin(s, p, end, u);
    JoinUrl(a, u, WithoutQueries(b));
  }

  lemma NoQueryWithin(s: string, p: nat, end: nat, u: string)
    requires p <= end <= |s| && s[p..end] == u && '?' !in u
    ensures FindQuery(s, p, end) == end
  {
    hide FindQuery;
    forall k: nat | p <= k < end ensures s[k] != '?' {
      assert s[k] == u[k - p];
    }
  }

  lemma JoinUrl(a: string, b: string, c: string)
    ensures a + (b + c) == a + b + c
  {
  }

  /** The first `?` of a URL keeps what stands before it, masks the rest of the word, and leaves what follows. */
  lemma FirstQueryLaw(a: string, u: string, w: string, b: string)
    requires StartsFirstUrl(a, u) && '?' !in u && IsWord(w) && WordEndsAt(b, 0)
    ensures WithoutQueries(a + (u + "?" + w) + b) == a + (u + "?") + "[REDACTED]" + WithoutQueries(b)
  {
    hide QueriesFrom, UrlFrom, WordEnd, SchemeAt, FindQuery, WithoutQueries, SameAhead;
    var word := u + "?" + w;
    var s, p, end := a + word + b, |a|, |a| + |word|;
    var q := p + |u|;
    assert s[..|a + u|] == a + u && s[0..p] == a && s[p..q] == u && s[q] == '?' && s[p..q + 1] == u + "?";
    assert IsWord(word);
    NoEarlierUrl(s, a, u);
    EndOfWord(a, word, b);
    FirstUrlAt(s, p, end, b);
    UrlIs(s, p, end);
    FirstQueryWithin(s, p, end, q, u);
    Join(a, u + "?", WithoutQueries(b));
  }

  lemma FirstQueryWithin(s: string, p: nat, end: nat, q: nat, u: string)
    requires p <= q < end <= |s| && s[p..q] == u && '?' !in u && s[q] == '?'
    ensures FindQuery(s, p, end) == q
  {
    hide FindQuery;
    forall k: nat | p <= k < q ensures s[k] != '?' {
      assert s[k] == u[k - p];
    }
  }
}
