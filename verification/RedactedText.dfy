/**
 What redacted text looks like.

 `TokensHidden` and `QueriesHidden` say it without reference to how it came about. The lemmas
 follow the two specifications along the text: a piece in front of text that is already hidden
 keeps it hidden, whether the piece is an ordinary character, a marked word or a URL. That needs
 to know what the front of the redacted rest can be, since an occurrence may begin in one piece
 and end in the next: the front is never anything but the original text.

 The last part follows the second pass over the result of the first. A mark that stands alone as
 a word survives, because no URL starts in it; and a word of which the end is masked is no
 `bearer` any more.
 */
module RedactedText {
  import opened RedactionLoops
  import opened Text

  // ----- What is meant by hidden -----

  /** Every `bearer ` is followed by the mark alone. */
  ghost predicate TokensHidden(s: string) {
    forall i: nat :: BearerAt(s, i) ==> MarkAt(s, i + 7) && WordEndsAt(s, i + 17)
  }

  predicate QueryHiddenAt(s: string, i: nat)
    requires i <= |s|
  {
    var end := WordEnd(s, i);
    var q := FindQuery(s, i, end);
    q < end ==> MarkAt(s, q + 1) && q + 11 == end
  }

  /** In every URL the first `?` is followed by the mark alone. */
  ghost predicate QueriesHidden(s: string) {
    forall i: nat :: SchemeAt(s, i) ==> QueryHiddenAt(s, i)
  }

  lemma {:induction false} WordEndIs(s: string, i: nat, end: nat)
    requires i <= end <= |s| && WordEndsAt(s, end)
    requires forall k: nat :: i <= k < end ==> !IsWhitespace(s[k])
    ensures WordEnd(s, i) == end
  {
  }

  lemma BearerHere(s: string, i: nat)
    requires BearerAt(s, i)
    ensures BearerFrom(s, i) == s[i..i + 7] + MARK + BearerFrom(s, WordEnd(s, i + 7))
  {
    hide WordEnd;
  }

  lemma NoBearerHere(s: string, i: nat)
    requires i < |s| && !BearerAt(s, i)
    ensures BearerFrom(s, i) == [s[i]] + BearerFrom(s, i + 1)
  {
  }

  lemma BearerNowhere(s: string)
    ensures BearerFrom(s, |s|) == ""
  {
  }

  /** Rewriting leaves the characters that could complete an occurrence starting further left. */
  lemma {:induction false} BearerKeepsFront(s: string, i: nat, k: nat)
    requires i <= |s| && k < 7
    ensures i + k < |s| <==> k < |BearerFrom(s, i)|
    ensures i + k < |s| ==> BearerFrom(s, i)[k] == s[i + k]
    decreases |s| - i
  {
    hide WordEnd, BearerFrom;
    if i == |s| {
      BearerNowhere(s);
    } else if BearerAt(s, i) {
      BearerHere(s, i);
      FrontOf(s[i..i + 7], MARK, BearerFrom(s, WordEnd(s, i + 7)), k);
    } else {
      NoBearerHere(s, i);
      if k > 0 {
        BearerKeepsFront(s, i + 1, k - 1);
      }
    }
  }

  lemma FrontOf(a: string, b: string, c: string, k: nat)
    requires k < |a|
    ensures k < |a + b + c| && (a + b + c)[k] == a[k]
  {
  }

  lemma BearerMasked(a: string, b: string)
    requires BearerAt(a, 0) && |a| == 7 && TokensHidden(b) && WordEndsAt(b, 0)
    ensures TokensHidden(a + MARK + b)
  {
    var r := a + MARK + b;
    MarkIsPlain();
    forall k: nat | 7 <= k < 17 ensures r[k] != 'b' && r[k] != 'B' {
      assert r[k] == MARK[k - 7];
    }
    assert r[7] == '[';
    forall i: nat | BearerAt(r, i) ensures MarkAt(r, i + 7) && WordEndsAt(r, i + 17) {
      if i == 0 {
        assert r[7..17] == MARK;
      } else if i >= 17 {
        HiddenLater(a + MARK, b, i - 17);
      }
    }
  }

  lemma HiddenLater(a: string, b: string, i: nat)
    requires TokensHidden(b) && BearerAt(a + b, |a| + i)
    ensures MarkAt(a + b, |a| + i + 7) && WordEndsAt(a + b, |a| + i + 17)
  {
    assert BearerAt(b, i);
    assert (a + b)[|a| + i + 7..|a| + i + 17] == b[i + 7..i + 17];
  }

  lemma NoBearerAtFront(c: char, b: string)
    requires TokensHidden(b) && !BearerAt([c] + b, 0)
    ensures TokensHidden([c] + b)
  {
    var r := [c] + b;
    forall k: nat | BearerAt(r, k) ensures MarkAt(r, k + 7) && WordEndsAt(r, k + 17) {
      if k > 0 {
        HiddenLater([c], b, k - 1);
      }
    }
  }

  lemma NoBearerAppears(s: string, i: nat)
    requires i <= |s| && !BearerAt(s, i)
    ensures !BearerAt(BearerFrom(s, i), 0)
  {
    hide BearerFrom;
    BearerKeepsFront(s, i, 0);
    BearerKeepsFront(s, i, 1);
    BearerKeepsFront(s, i, 2);
    BearerKeepsFront(s, i, 3);
    BearerKeepsFront(s, i, 4);
    BearerKeepsFront(s, i, 5);
    BearerKeepsFront(s, i, 6);
  }

  lemma {:induction false} BearerFromHides(s: string, i: nat)
    requires i <= |s|
    ensures TokensHidden(BearerFrom(s, i))
    decreases |s| - i
  {
    hide WordEnd;
    if i == |s| {
    } else if BearerAt(s, i) {
      var end := WordEnd(s, i + 7);
      BearerFromHides(s, end);
      BearerKeepsFront(s, end, 0);
      BearerMasked(s[i..i + 7], BearerFrom(s, end));
    } else {
      BearerFromHides(s, i + 1);
      NoBearerAppears(s, i);
      NoBearerAtFront(s[i], BearerFrom(s, i + 1));
    }
  }

  lemma MarkIsAWord(s: string, i: nat)
    requires MarkAt(s, i) && WordEndsAt(s, i + 10)
    ensures WordEnd(s, i) == i + 10
    ensures forall k: nat :: i <= k < i + 10 ==> s[k] != ':'
  {
    hide WordEnd;
    MarkIsPlain();
    forall k: nat | i <= k < i + 10 ensures !IsWhitespace(s[k]) && s[k] != ':' {
      assert s[i..i + 10][k - i] == MARK[k - i];
    }
    WordEndIs(s, i, i + 10);
  }

  lemma MarkedSplits(s: string, i: nat)
    requires MarkAt(s, i + 7)
    ensures s[i..] == s[i..i + 7] + MARK + s[i + 17..]
  {
    assert s[i + 7..i + 17] == MARK;
    assert s[i..] == s[i..i + 7] + s[i + 7..i + 17] + s[i + 17..];
  }

  lemma {:induction false} BearerFromStops(s: string, i: nat)
    requires i <= |s| && TokensHidden(s)
    ensures BearerFrom(s, i) == s[i..]
    decreases |s| - i
  {
    hide WordEnd;
    if i == |s| {
    } else if BearerAt(s, i) {
      MarkIsAWord(s, i + 7);
      BearerFromStops(s, i + 17);
      MarkedSplits(s, i);
    } else {
      BearerFromStops(s, i + 1);
    }
  }

  lemma UrlKeepsFront(s: string, i: nat)
    requires SchemeAt(s, i)
    ensures i + 3 <= WordEnd(s, i) && var url := UrlFrom(s, i, WordEnd(s, i)); 3 <= |url| && url[..3] == s[i..i + 3]
  {
    UrlIs(s, i, WordEnd(s, i));
  }

  lemma {:induction false} QueriesKeepFront(s: string, i: nat, k: nat)
    requires i <= |s| && k < 3
    ensures i + k < |s| <==> k < |QueriesFrom(s, i)|
    ensures i + k < |s| ==> QueriesFrom(s, i)[k] == s[i + k]
    decreases |s| - i
  {
    hide UrlFrom, WordEnd;
    if i < |s| && SchemeAt(s, i) {
      UrlKeepsFront(s, i);
      assert UrlFrom(s, i, WordEnd(s, i))[..3][k] == s[i..i + 3][k];
    } else if i < |s| && k > 0 {
      QueriesKeepFront(s, i + 1, k - 1);
    }
  }

  lemma UrlLater(a: string, b: string, i: nat, end: nat, q: nat)
    requires i <= |b| && WordEnd(b, i) == end && FindQuery(b, i, end) == q
    ensures WordEnd(a + b, |a| + i) == |a| + end && FindQuery(a + b, |a| + i, |a| + end) == |a| + q
  {
    WordAhead(b, i, a + b, |a| + i);
    FindQueryAhead(b, i, end, a + b, |a| + i, |a| + end);
  }

  lemma QueriesHiddenLater(a: string, b: string, i: nat)
    requires QueriesHidden(b) && SchemeAt(a + b, |a| + i)
    ensures QueryHiddenAt(a + b, |a| + i)
  {
    assert SchemeAt(b, i) && QueryHiddenAt(b, i);
    var end := WordEnd(b, i);
    var q := FindQuery(b, i, end);
    UrlLater(a, b, i, end, q);
    MarkLater(a, b, q + 1);
  }

  lemma MarkLater(a: string, b: string, i: nat)
    ensures MarkAt(b, i) ==> MarkAt(a + b, |a| + i)
  {
    if MarkAt(b, i) {
      assert (a + b)[|a| + i..|a| + i + 10] == b[i..i + 10];
    }
  }

  lemma UrlWithoutQuery(a: string, b: string)
    requires forall k: nat :: k < |a| ==> !IsWhitespace(a[k]) && a[k] != '?'
    requires QueriesHidden(b) && WordEndsAt(b, 0)
    ensures QueriesHidden(a + b)
  {
    hide WordEnd, FindQuery;
    var r := a + b;
    forall i: nat | SchemeAt(r, i) ensures QueryHiddenAt(r, i) {
      if i < |a| {
        WordEndIs(r, i, |a|);
      } else {
        QueriesHiddenLater(a, b, i - |a|);
      }
    }
  }

  /** A word whose first `?` is its n-th character, and is followed by the mark alone. */
  predicate MaskedWordAt(r: string, n: nat) {
    && 0 < n && MarkAt(r, n) && WordEndsAt(r, n + 10)
    && forall k: nat :: k < n ==> !IsWhitespace(r[k]) && (k < n - 1 <==> r[k] != '?')
  }

  lemma MaskedWordJoins(a: string, b: string)
    requires forall k: nat :: k < |a| ==> !IsWhitespace(a[k]) && (k < |a| - 1 <==> a[k] != '?')
    requires |a| > 0 && WordEndsAt(b, 0)
    ensures MaskedWordAt(a + MARK + b, |a|)
  {
    var r := a + MARK + b;
    assert forall k: nat :: k < |a| ==> r[k] == a[k];
    assert r[|a|..|a| + 10] == MARK;
  }

  lemma MaskedWordIsHidden(r: string, n: nat, i: nat)
    requires MaskedWordAt(r, n) && i < n + 10 && SchemeAt(r, i)
    ensures QueryHiddenAt(r, i)
  {
    hide WordEnd, FindQuery;
    MarkIsPlain();
    forall k: nat | n <= k < n + 10 ensures !IsWhitespace(r[k]) && r[k] != ':' {
      assert r[n..n + 10][k - n] == MARK[k - n];
    }
    WordEndIs(r, i, n + 10);
    assert r[i] == ':' && i < n && r[n - 1] == '?';
    assert FindQuery(r, i, n + 10) == n - 1;
  }

  lemma UrlWithQuery(a: string, b: string)
    requires forall k: nat :: k < |a| ==> !IsWhitespace(a[k]) && (k < |a| - 1 <==> a[k] != '?')
    requires |a| > 0 && QueriesHidden(b) && WordEndsAt(b, 0)
    ensures QueriesHidden(a + MARK + b)
  {
    hide QueryHiddenAt, MaskedWordAt;
    var r, w := a + MARK + b, |a| + 10;
    MaskedWordJoins(a, b);
    forall i: nat | SchemeAt(r, i) ensures QueryHiddenAt(r, i) {
      if i < w {
        MaskedWordIsHidden(r, |a|, i);
      } else {
        QueriesHiddenLater(a + MARK, b, i - w);
      }
    }
  }

  lemma UrlHides(s: string, i: nat, end: nat, b: string)
    requires i < |s| && WordEnd(s, i) == end && QueriesHidden(b) && WordEndsAt(b, 0)
    ensures QueriesHidden(UrlFrom(s, i, end) + b)
  {
    hide UrlFrom, WordEnd, FindQuery, QueriesHidden;
    var q := FindQuery(s, i, end);
    UrlIs(s, i, end);
    if q == end {
      UrlWithoutQuery(s[i..end], b);
    } else {
      UrlWithQuery(s[i..q + 1], b);
    }
  }

  lemma NoUrlAtFront(c: char, b: string)
    requires QueriesHidden(b) && !SchemeAt([c] + b, 0)
    ensures QueriesHidden([c] + b)
  {
    forall k: nat | SchemeAt([c] + b, k) ensures QueryHiddenAt([c] + b, k) {
      if k > 0 {
        QueriesHiddenLater([c], b, k - 1);
      }
    }
  }

  lemma NoSchemeAppears(s: string, i: nat)
    requires i <= |s| && !SchemeAt(s, i)
    ensures !SchemeAt(QueriesFrom(s, i), 0)
  {
    hide QueriesFrom;
    QueriesKeepFront(s, i, 0);
    QueriesKeepFront(s, i, 1);
    QueriesKeepFront(s, i, 2);
  }

  lemma {:induction false} QueriesFromHides(s: string, i: nat)
    requires i <= |s|
    ensures QueriesHidden(QueriesFrom(s, i))
    decreases |s| - i
  {
    hide UrlFrom, WordEnd, QueryHiddenAt;
    if i == |s| {
    } else if SchemeAt(s, i) {
      var end := WordEnd(s, i);
      QueriesFromHides(s, end);
      QueriesKeepFront(s, end, 0);
      UrlHides(s, i, end, QueriesFrom(s, end));
    } else {
      QueriesFromHides(s, i + 1);
      NoSchemeAppears(s, i);
      NoUrlAtFront(s[i], QueriesFrom(s, i + 1));
    }
  }

  lemma HiddenUrlStays(s: string, i: nat, end: nat)
    requires i < |s| && WordEnd(s, i) == end && QueryHiddenAt(s, i)
    ensures UrlFrom(s, i, end) == s[i..end]
  {
    hide UrlFrom, WordEnd, FindQuery;
    var q := FindQuery(s, i, end);
    UrlIs(s, i, end);
    if q < end {
      assert s[i..end] == s[i..q + 1] + s[q + 1..q + 11];
    }
  }

  lemma UrlHiddenAt(s: string, i: nat)
    requires QueriesHidden(s) && SchemeAt(s, i)
    ensures QueryHiddenAt(s, i) && i < WordEnd(s, i)
  {
  }

  lemma {:induction false} QueriesFromStops(s: string, i: nat)
    requires i <= |s| && QueriesHidden(s)
    ensures QueriesFrom(s, i) == s[i..]
    decreases |s| - i
  {
    hide UrlFrom, WordEnd, QueriesHidden, QueryHiddenAt;
    if i == |s| {
    } else if SchemeAt(s, i) {
      var end := WordEnd(s, i);
      UrlHiddenAt(s, i);
      HiddenUrlStays(s, i, end);
      QueriesFromStops(s, end);
      Halves(s, i, end);
    } else {
      QueriesFromStops(s, i + 1);
      Halves(s, i, i + 1);
    }
  }

  lemma Halves(s: string, i: nat, j: nat)
    requires i <= j <= |s|
    ensures s[i..] == s[i..j] + s[j..]
  {
  }

  // ----- One pass after the other -----

  lemma NoUrlHere(s: string, i: nat)
    requires i < |s| && !SchemeAt(s, i)
    ensures QueriesFrom(s, i) == [s[i]] + QueriesFrom(s, i + 1)
  {
  }

  /** As long as no colon shows, the text is what it was, and no URL starts in it. */
  lemma {:induction false} PlainFrontIsKept(s: string, i: nat, n: nat)
    requires i <= |s| && n <= |QueriesFrom(s, i)|
    requires forall k: nat :: k < n ==> QueriesFrom(s, i)[k] != ':'
    ensures i + n <= |s| && QueriesFrom(s, i) == s[i..i + n] + QueriesFrom(s, i + n)
    decreases n
  {
    hide QueriesFrom;
    if n > 0 {
      QueriesKeepFront(s, i, 0);
      NoUrlHere(s, i);
      var left := QueriesFrom(s, i + 1);
      forall k: nat | k < n - 1 ensures left[k] != ':' {
        assert left[k] == QueriesFrom(s, i)[k + 1];
      }
      PlainFrontIsKept(s, i + 1, n - 1);
      Cons(s, i, i + n, QueriesFrom(s, i + n));
    }
  }

  /** The pass over the URLs leaves a mark that stands alone. */
  lemma MarkSurvives(s: string, i: nat)
    requires MarkAt(s, i) && WordEndsAt(s, i + 10)
    ensures MarkAt(QueriesFrom(s, i), 0) && WordEndsAt(QueriesFrom(s, i), 10)
  {
    hide QueriesFrom;
    MarkIsAWord(s, i);
    UrlsSkipped(s, i, i + 10);
    QueriesKeepFront(s, i + 10, 0);
    assert QueriesFrom(s, i)[0..10] == s[i..i + 10];
  }

  lemma HiddenBehind(a: string, b: string)
    requires MarkAt(b, 0) && WordEndsAt(b, 10)
    ensures MarkAt(a + b, |a|) && WordEndsAt(a + b, |a| + 10)
  {
    MarkLater(a, b, 0);
  }

  lemma FrontStaysHidden(s: string, i: nat)
    requires i <= |s| && TokensHidden(s) && BearerAt(QueriesFrom(s, i), 0)
    ensures MarkAt(QueriesFrom(s, i), 7) && WordEndsAt(QueriesFrom(s, i), 17)
  {
    hide QueriesFrom;
    PlainFrontIsKept(s, i, 7);
    assert QueriesFrom(s, i)[..7] == s[i..i + 7];
    SameBearer(QueriesFrom(s, i), s, i);
    MarkSurvives(s, i + 7);
    HiddenBehind(s[i..i + 7], QueriesFrom(s, i + 7));
  }

  lemma SameBearer(r: string, s: string, i: nat)
    requires i + 7 <= |s| && 7 <= |r| && r[..7] == s[i..i + 7]
    ensures BearerAt(r, 0) == BearerAt(s, i)
  {
    forall k: nat | k < 7 ensures r[k] == s[i + k] {
      assert r[..7][k] == s[i..i + 7][k];
    }
    assert r[0] == s[i + 0] && r[1] == s[i + 1] && r[2] == s[i + 2] && r[3] == s[i + 3];
    assert r[4] == s[i + 4] && r[5] == s[i + 5] && r[6] == s[i + 6];
  }

  /** A word in front of hidden tokens: only one that ends in `bearer` needs a mark behind it. */
  lemma WordThenText(u: string, b: string)
    requires forall k: nat :: k < |u| ==> !IsWhitespace(u[k])
    requires TokensHidden(b) && WordEndsAt(b, 0)
    requires |u| >= 6 && BearerAt(u + b, |u| - 6) ==> MarkAt(b, 1) && WordEndsAt(b, 11)
    ensures TokensHidden(u + b)
  {
    var r := u + b;
    assert forall k: nat :: k < |u| ==> r[k] == u[k];
    assert b != [] ==> IsWhitespace(r[|u|]);
    forall j: nat | BearerAt(r, j) ensures MarkAt(r, j + 7) && WordEndsAt(r, j + 17) {
      if j >= |u| {
        HiddenLater(u, b, j - |u|);
      } else if j + 6 == |u| {
        MarkLater(u, b, 1);
      }
    }
  }

  lemma KeptUrlKeepsTokensHidden(s: string, i: nat, end: nat)
    requires TokensHidden(s) && i < end <= |s| && WordEnd(s, i) == end && TokensHidden(QueriesFrom(s, end))
    ensures TokensHidden(s[i..end] + QueriesFrom(s, end))
  {
    hide QueriesFrom, WordEnd, TokensHidden;
    var u, b := s[i..end], QueriesFrom(s, end);
    QueriesKeepFront(s, end, 0);
    if |u| >= 6 && BearerAt(u + b, |u| - 6) {
      WordIsBearer(s, i, end, b);
      MarkComesNext(s, end);
    }
    WordThenText(u, b);
  }

  lemma MarkComesNext(s: string, end: nat)
    requires TokensHidden(s) && 6 <= end <= |s| && BearerAt(s, end - 6)
    ensures MarkAt(QueriesFrom(s, end), 1) && WordEndsAt(QueriesFrom(s, end), 11)
  {
    hide QueriesFrom, TokensHidden;
    TokenHiddenAt(s, end - 6);
    UrlsSkipped(s, end, end + 1);
    MarkSurvives(s, end + 1);
    HiddenBehind(s[end..end + 1], QueriesFrom(s, end + 1));
  }

  lemma MaskedUrlKeepsTokensHidden(s: string, i: nat, end: nat, q: nat)
    requires TokensHidden(s) && i <= q < end <= |s| && WordEnd(s, i) == end && TokensHidden(QueriesFrom(s, end))
    ensures TokensHidden(s[i..q + 1] + MARK + QueriesFrom(s, end))
  {
    hide QueriesFrom, WordEnd, TokensHidden;
    var a, b := s[i..q + 1], QueriesFrom(s, end);
    QueriesKeepFront(s, end, 0);
    MaskedWordHasNoBlank(a);
    MaskedWordIsNoBearer(a, b);
    WordThenText(a + MARK, b);
  }

  lemma UrlKeepsTokensHidden(s: string, i: nat, end: nat)
    requires TokensHidden(s) && i < end <= |s| && WordEnd(s, i) == end && TokensHidden(QueriesFrom(s, end))
    ensures TokensHidden(UrlFrom(s, i, end) + QueriesFrom(s, end))
  {
    hide QueriesFrom, UrlFrom, WordEnd, FindQuery, TokensHidden;
    var q := FindQuery(s, i, end);
    UrlIs(s, i, end);
    if q < end {
      MaskedUrlKeepsTokensHidden(s, i, end, q);
    } else {
      KeptUrlKeepsTokensHidden(s, i, end);
    }
  }

  lemma TokenHiddenAt(s: string, i: nat)
    requires TokensHidden(s) && BearerAt(s, i)
    ensures MarkAt(s, i + 7) && WordEndsAt(s, i + 17)
  {
  }

  lemma MaskedWordHasNoBlank(a: string)
    requires forall k: nat :: k < |a| ==> !IsWhitespace(a[k])
    ensures forall k: nat :: k < |a + MARK| ==> !IsWhitespace((a + MARK)[k])
  {
    MarkIsPlain();
  }

  lemma MaskedWordIsNoBearer(a: string, b: string)
    ensures !BearerAt(a + MARK + b, |a + MARK| - 6)
  {
    MarkIsPlain();
    assert (a + MARK + b)[|a + MARK| - 1] == MARK[9] == ']';
  }

  lemma WordIsBearer(s: string, i: nat, end: nat, b: string)
    requires i + 6 <= end <= |s| && WordEndsAt(s, end) && BearerAt(s[i..end] + b, end - i - 6)
    requires end < |s| <==> 0 < |b|
    requires end < |s| ==> b[0] == s[end]
    ensures BearerAt(s, end - 6)
  {
    var r, d := s[i..end] + b, end - i - 6;
    assert r[d] == s[end - 6] && r[d + 1] == s[end - 5] && r[d + 2] == s[end - 4] && r[d + 3] == s[end - 3];
    assert r[d + 4] == s[end - 2] && r[d + 5] == s[end - 1] && r[d + 6] == b[0];
  }

  lemma {:induction false} QueriesKeepTokensHidden(s: string, i: nat)
    requires i <= |s| && TokensHidden(s)
    ensures TokensHidden(QueriesFrom(s, i))
    decreases |s| - i
  {
    hide UrlFrom, WordEnd;
    if i == |s| {
    } else if SchemeAt(s, i) {
      var end := WordEnd(s, i);
      QueriesKeepTokensHidden(s, end);
      UrlKeepsTokensHidden(s, i, end);
    } else {
      QueriesKeepTokensHidden(s, i + 1);
      FrontThenText(s, i);
    }
  }

  lemma FrontThenText(s: string, i: nat)
    requires i < |s| && TokensHidden(s) && !SchemeAt(s, i) && TokensHidden(QueriesFrom(s, i + 1))
    ensures TokensHidden(QueriesFrom(s, i))
  {
    hide UrlFrom, WordEnd;
    var r, b := QueriesFrom(s, i), QueriesFrom(s, i + 1);
    assert r == [s[i]] + b;
    forall j: nat | BearerAt(r, j) ensures MarkAt(r, j + 7) && WordEndsAt(r, j + 17) {
      if j == 0 {
        FrontStaysHidden(s, i);
      } else {
        HiddenLater([s[i]], b, j - 1);
      }
    }
  }
}
