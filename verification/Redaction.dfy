/**
 Redaction of bearer tokens and URL queries in a line of diagnostics. Both loops rewrite the text
 they scan, so the text may grow while the cursor moves through it.
 */
module Redaction {
  import opened RedactedText
  import opened RedactionLaws
  import opened RedactionLoops
  import opened Text

  class TextBuffer {
    var text: string

    constructor (text: string)
      ensures this.text == text
    {
      this.text := text;
    }

    method RedactBearerTokens()
      modifies this
      ensures text == WithoutBearerTokens(old(text))
      ensures NoTokenInClear(text)
    {
      hide BearerFrom, FindBearer, WordEnd, Progress, NoTokenInClear;
      ProgressStarts(text);
      var offset: nat := 0;
      ghost var origin, done, at: nat := text, "", 0;
      while offset < |text|
        invariant offset <= |text| && at <= |origin| && Progress(text, offset, done, origin, at)
        invariant done + BearerFrom(origin, at) == BearerFrom(origin, 0)
        decreases |text| - offset
      {
        var position := FindBearer(text, offset);
        if position == |text| {
          break;
        }
        var start := position + 7;
        var end := WordEnd(text, start);
        done, at := BearerTurn(text, offset, done, origin, at, start, end);
        text := text[..start] + MARK + text[end..];
        offset := start + |MARK|;
      }
      BearerFinished(text, offset, done, origin, at);
      TokensAreHidden(origin);
    }

    method RedactUrlQueries()
      modifies this
      ensures text == WithoutQueries(old(text))
      ensures NoQueryInClear(text)
    {
      hide QueriesFrom, FindScheme, WordEnd, FindQuery, Progress, NoQueryInClear;
      ProgressStarts(text);
      var cursor: nat := 0;
      ghost var origin, done, at: nat := text, "", 0;
      while true
        invariant cursor <= |text| && at <= |origin| && Progress(text, cursor, done, origin, at)
        invariant done + QueriesFrom(origin, at) == QueriesFrom(origin, 0)
        decreases |text| - cursor
      {
        var scheme := FindScheme(text, cursor);
        if scheme == |text| {
          break;
        }
        var urlEnd := WordEnd(text, scheme);
        var query := FindQuery(text, scheme, urlEnd);
        if query == urlEnd {
          done, at := KeptTurn(text, cursor, done, origin, at, scheme, urlEnd);
          cursor := urlEnd;
          continue;
        }
        done, at := MaskedTurn(text, cursor, done, origin, at, scheme, urlEnd, query);
        text := text[..query + 1] + MARK + text[urlEnd..];
        cursor := query + 1 + |MARK|;
      }
      QueriesFinished(text, cursor, done, origin, at);
      QueriesAreHidden(origin);
    }

    /** The last two steps of the redaction of a line. */
    method RedactTokensAndQueries()
      modifies this
      ensures text == Redacted(old(text))
      ensures NoTokenInClear(text) && NoQueryInClear(text)
    {
      hide WithoutBearerTokens, WithoutQueries, NoTokenInClear, NoQueryInClear;
      RedactionHidesBoth(text);
      RedactBearerTokens();
      RedactUrlQueries();
    }
  }

  // ----- What the redaction promises -----

  /** Redaction leaves no token in sight, and leaves alone exactly the text that shows none. */
  lemma TokensAreHidden(s: string)
    ensures NoTokenInClear(WithoutBearerTokens(s))
    ensures WithoutBearerTokens(s) == s <==> NoTokenInClear(s)
  {
    hide NoTokenInClear, TokensHidden;
    HiddenIsNotInClear(s);
    HiddenIsNotInClear(WithoutBearerTokens(s));
    BearerFromHides(s, 0);
    if TokensHidden(s) {
      BearerFromStops(s, 0);
    }
  }

  lemma TokenRedactionIsIdempotent(s: string)
    ensures WithoutBearerTokens(WithoutBearerTokens(s)) == WithoutBearerTokens(s)
  {
    TokensAreHidden(s);
    TokensAreHidden(WithoutBearerTokens(s));
  }

  /** Redaction leaves no query in sight, and leaves alone exactly the text that shows none. */
  lemma QueriesAreHidden(s: string)
    ensures NoQueryInClear(WithoutQueries(s))
    ensures WithoutQueries(s) == s <==> NoQueryInClear(s)
  {
    hide NoQueryInClear, QueriesHidden;
    HiddenQueriesAreNotInClear(s);
    HiddenQueriesAreNotInClear(WithoutQueries(s));
    QueriesFromHides(s, 0);
    if QueriesHidden(s) {
      QueriesFromStops(s, 0);
    }
  }

  lemma QueryRedactionIsIdempotent(s: string)
    ensures WithoutQueries(WithoutQueries(s)) == WithoutQueries(s)
  {
    QueriesAreHidden(s);
    QueriesAreHidden(WithoutQueries(s));
  }

  // ----- One pass after the other -----

  function Redacted(s: string): string {
    WithoutQueries(WithoutBearerTokens(s))
  }

  /** The second pass keeps what the first has achieved, so both hold of the result, and only of it. */
  lemma RedactionHidesBoth(s: string)
    ensures NoTokenInClear(Redacted(s)) && NoQueryInClear(Redacted(s))
    ensures Redacted(s) == s <==> NoTokenInClear(s) && NoQueryInClear(s)
  {
    hide NoTokenInClear, NoQueryInClear, TokensHidden, WithoutBearerTokens;
    HiddenIsNotInClear(WithoutBearerTokens(s));
    HiddenIsNotInClear(Redacted(s));
    TokensAreHidden(s);
    QueriesAreHidden(s);
    QueriesAreHidden(WithoutBearerTokens(s));
    QueriesKeepTokensHidden(WithoutBearerTokens(s), 0);
  }

  lemma RedactionIsIdempotent(s: string)
    ensures Redacted(Redacted(s)) == Redacted(s)
  {
    hide Redacted;
    RedactionHidesBoth(s);
    RedactionHidesBoth(Redacted(s));
  }
}
