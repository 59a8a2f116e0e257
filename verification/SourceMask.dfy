/**
 The masker of the Rust maintenance audit: a hand-written lexer that blanks comments, strings
 and character literals in place, so that later scans see code only and offsets stay put.
 */
module SourceMask {
  import opened RustTokens
  import opened Wrappers

  // ----- The masked text -----

  /** The lexer, standing at i, later stands at k and finds no comment or literal there. */
  predicate IsCode(s: string, i: nat, k: nat)
    requires i <= k < |s|
    decreases |s| - i
  {
    match TokenEnd(s, i)
    case Some(e) => e <= k && IsCode(s, e, k)
    case None => k == i || IsCode(s, i + 1, k)
  }

  /** Code is kept; everything else becomes a space, newlines excepted. */
  function MaskedChar(s: string, k: nat): char
    requires k < |s|
  {
    if IsCode(s, 0, k) || s[k] == '\n' then s[k] else ' '
  }

  function Mask(s: string): (m: string)
    ensures |m| == |s|
  {
    seq(|s|, k requires 0 <= k < |s| => MaskedChar(s, k))
  }

  method BlankRange(masked: array<char>, start: nat, end: nat)
    requires start <= end <= masked.Length
    modifies masked
    ensures forall k :: 0 <= k < masked.Length ==>
              masked[k] == if start <= k < end && old(masked[k]) != '\n' then ' ' else old(masked[k])
  {
    for offset := start to end
      invariant forall k :: 0 <= k < masked.Length ==>
                  masked[k] == if start <= k < offset && old(masked[k]) != '\n' then ' ' else old(masked[k])
    {
      if masked[offset] != '\n' {
        masked[offset] := ' ';
      }
    }
  }

  method BlockCommentEnd(source: string, index: nat) returns (end: nat)
    requires Pair(source, index, '/', '*')
    ensures end == BlockEnd(source, index + 2, 1)
    ensures forall e: nat :: BlockComment(source, index, e) <==> e == end
  {
    forall e: nat { BlockCommentEnds(source, index, e); }
    var depth := 1;
    end := index + 2;
    while end < |source| && depth > 0
      invariant end <= |source|
      invariant BlockEnd(source, end, depth) == BlockEnd(source, index + 2, 1)
    {
      if Pair(source, end, '/', '*') {
        depth, end := depth + 1, end + 2;
      } else if Pair(source, end, '*', '/') {
        depth, end := depth - 1, end + 2;
      } else {
        end := end + 1;
      }
    }
  }

  method StringLiteralEnd(source: string, content: nat) returns (end: nat)
    requires content <= |source|
    ensures end == StringEnd(source, content, false)
    ensures forall e: nat :: StringEndsAt(source, content, e) <==> e == end
  {
    forall e: nat { StringEnds(source, content, e); }
    end := content;
    var escaped := false;
    while end < |source|
      invariant end <= |source|
      invariant StringEnd(source, content, false) == StringEnd(source, end, escaped)
    {
      var c := source[end];
      end := end + 1;
      if c == '"' && !escaped {
        return;
      }
      escaped := c == '\\' && !escaped;
    }
  }

  /** One pass through the body of the lexer's loop: the token that starts at `index`, if any. */
  method LiteralAt(source: string, index: nat) returns (end: Option<nat>)
    requires index < |source|
    ensures end == TokenEnd(source, index)
    ensures forall e: nat :: Token(source, index, e) <==> end == Some(e)
  {
    forall e: nat { TokenEndIs(source, index, e); }
    if Pair(source, index, '/', '/') {
      return Some(LineEnd(source, index + 2));
    }
    if Pair(source, index, '/', '*') {
      var e := BlockCommentEnd(source, index);
      return Some(e);
    }
    var prefix := RawPrefix(source, index);
    if prefix > 0 {
      var hashes := HashRun(source, index + prefix);
      return Some(RawEnd(source, index + prefix + hashes + 1, hashes));
    }
    var quoteIndex := index;
    if Pair(source, index, 'b', '"') || Pair(source, index, 'c', '"') {
      quoteIndex := quoteIndex + 1;
    }
    if source[quoteIndex] == '"' {
      var e := StringLiteralEnd(source, quoteIndex + 1);
      return Some(e);
    }
    return CharEnd(source, index);
  }

  method MaskNonCode(source: string) returns (result: string)
    ensures result == Mask(source)
    ensures exists cuts :: Tiling(source, cuts)
    ensures forall cuts :: Tiling(source, cuts) ==> BlanksTokens(source, cuts, result)
  {
    TilingExists(source);
    forall cuts | Tiling(source, cuts) { MaskBlanksTokens(source, cuts); }
    var masked := new char[|source|](i requires 0 <= i < |source| => source[i]);
    var index := 0;
    while index < |source|
      invariant index <= |source|
      invariant forall k :: index <= k < |source| ==> IsCode(source, 0, k) == IsCode(source, index, k)
      invariant forall k :: 0 <= k < |source| ==> masked[k] == if k < index then MaskedChar(source, k) else source[k]
    {
      var literal := LiteralAt(source, index);
      match literal {
        case Some(end) =>
          BlankRange(masked, index, end);
          index := end;
        case None =>
          index := index + 1;
      }
    }
    result := masked[..];
  }

  // ----- The masked text, told from the tokens -----

  /** No comment or literal starts here. */
  ghost predicate NoTokenAt(s: string, i: nat) {
    forall e: nat :: !Token(s, i, e)
  }

  /** The text cut into pieces from left to right: whole tokens, and single characters at which none starts. */
  ghost predicate Tiling(s: string, cuts: seq<nat>) {
    && cuts != [] && cuts[0] == 0 && cuts[|cuts| - 1] == |s|
    && forall j: nat :: j < |cuts| - 1 ==> Piece(s, cuts[j], cuts[j + 1])
  }

  ghost predicate Piece(s: string, from: nat, to: nat) {
    from < |s| && (Token(s, from, to) || (to == from + 1 && NoTokenAt(s, from)))
  }

  /** Tokens become spaces, newlines excepted; everything else stays. */
  ghost predicate BlanksTokens(s: string, cuts: seq<nat>, masked: string) {
    && |masked| == |s|
    && forall j: nat, k: nat :: j < |cuts| - 1 && cuts[j] <= k < cuts[j + 1] && k < |s| ==>
         masked[k] == if s[k] == '\n' || NoTokenAt(s, cuts[j]) then s[k] else ' '
  }

  lemma PieceIs(s: string, from: nat, to: nat)
    requires Piece(s, from, to)
    ensures from < to <= |s|
    ensures TokenEnd(s, from) == if NoTokenAt(s, from) then None else Some(to)
  {
    hide TokenEnd, Token;
    forall e: nat { TokenEndIs(s, from, e); }
    if TokenEnd(s, from).Some? {
      assert Token(s, from, TokenEnd(s, from).value);
    }
  }

  /** The lexer stands at every cut. */
  lemma {:induction false} LexerStandsAtCut(s: string, cuts: seq<nat>, j: nat, k: nat)
    requires Tiling(s, cuts) && j < |cuts| && cuts[j] <= k < |s|
    ensures IsCode(s, 0, k) == IsCode(s, cuts[j], k)
    decreases j
  {
    hide Token, TokenEnd;
    if j > 0 {
      PieceIs(s, cuts[j - 1], cuts[j]);
      LexerStandsAtCut(s, cuts, j - 1, k);
    }
  }

  /** Whatever the tiling, masking blanks exactly its tokens. */
  lemma MaskBlanksTokens(s: string, cuts: seq<nat>)
    requires Tiling(s, cuts)
    ensures BlanksTokens(s, cuts, Mask(s))
  {
    hide Token, TokenEnd;
    forall j: nat, k: nat | j < |cuts| - 1 && cuts[j] <= k < cuts[j + 1] && k < |s|
      ensures Mask(s)[k] == if s[k] == '\n' || NoTokenAt(s, cuts[j]) then s[k] else ' '
    {
      PieceIs(s, cuts[j], cuts[j + 1]);
      LexerStandsAtCut(s, cuts, j, k);
    }
  }

  lemma {:induction false} TilingFrom(s: string, i: nat) returns (cuts: seq<nat>)
    requires i <= |s|
    ensures cuts != [] && cuts[0] == i && cuts[|cuts| - 1] == |s|
    ensures forall j: nat :: j < |cuts| - 1 ==> Piece(s, cuts[j], cuts[j + 1])
    decreases |s| - i
  {
    hide Token, TokenEnd;
    if i == |s| {
      cuts := [i];
    } else {
      forall e: nat { TokenEndIs(s, i, e); }
      var next := if TokenEnd(s, i).Some? then TokenEnd(s, i).value else i + 1;
      assert Piece(s, i, next);
      PieceIs(s, i, next);
      var rest := TilingFrom(s, next);
      cuts := [i] + rest;
    }
  }

  /** Every text has such a tiling. */
  lemma TilingExists(s: string)
    ensures exists cuts :: Tiling(s, cuts)
  {
    var cuts := TilingFrom(s, 0);
    assert Tiling(s, cuts);
  }

  // ----- What masking guarantees -----

  lemma {:induction false} NoTokenInCode(s: string, i: nat, k: nat)
    requires i <= k < |s| && IsCode(s, i, k)
    ensures TokenEnd(s, k).None?
    decreases |s| - i
  {
    match TokenEnd(s, i)
    case Some(e) => NoTokenInCode(s, e, k);
    case None => if k != i { NoTokenInCode(s, i + 1, k); }
  }

  /** After a code position the lexer stands at the next one. */
  lemma {:induction false} NextToCode(s: string, i: nat, k: nat, j: nat)
    requires i <= k < j < |s| && IsCode(s, i, k)
    ensures IsCode(s, i, j) == IsCode(s, k + 1, j)
    decreases |s| - i
  {
    match TokenEnd(s, i)
    case Some(e) => NextToCode(s, e, k, j);
    case None => if k != i { NextToCode(s, i + 1, k, j); }
  }

  /** What is visible in the masked text is code, and was there before. */
  lemma VisibleIsCode(s: string, k: nat)
    requires k < |s| && Mask(s)[k] != ' ' && Mask(s)[k] != '\n'
    ensures IsCode(s, 0, k) && s[k] == Mask(s)[k] && TokenEnd(s, k).None?
  {
    NoTokenInCode(s, 0, k);
  }

  /** Between two visible characters nothing of length one was blanked. */
  lemma NoHole(s: string, k: nat)
    requires k + 2 < |s| && IsCode(s, 0, k) && IsCode(s, 0, k + 2)
    ensures IsCode(s, 0, k + 1)
  {
    NextToCode(s, 0, k, k + 1);
    NextToCode(s, 0, k, k + 2);
  }

  lemma NoQuoteVisible(s: string, k: nat)
    requires k < |s|
    ensures Mask(s)[k] != '"'
  {
    if Mask(s)[k] == '"' {
      VisibleIsCode(s, k);
    }
  }

  lemma BracedEscapeWasThere(s: string, k: nat)
    requires k < |s| && s[k] == '\''
    requires CharEnd(Mask(s), k).Some? && Mask(s)[k + 1] == '\\' && !CharAt(Mask(s), k + 3, '\'')
    ensures CharEnd(s, k).Some?
  {
    hide Mask, CharEnd, TokenEnd;
    var m, e := Mask(s), CharEnd(Mask(s), k).value;
    CharLiteralEnds(m, k, e);
    forall j: nat | k + 1 <= j < e ensures s[j] == m[j] {
      assert m[j] != ' ' && m[j] != '\n';
      VisibleIsCode(s, j);
    }
    CharLiteralEnds(s, k, e);
  }

  /** No character literal can start in the masked text. */
  lemma NoCharLiteral(s: string, k: nat)
    requires k < |s|
    ensures CharEnd(Mask(s), k).None?
  {
    var m := Mask(s);
    if CharEnd(m, k).Some? {
      VisibleIsCode(s, k);
      if m[k + 1] != '\\' {
        VisibleIsCode(s, k + 2);
        NoHole(s, k);
      } else if !CharAt(m, k + 3, '\'') {
        BracedEscapeWasThere(s, k);
      }
    }
  }

  /** No comment, string or character literal can start anywhere in the masked text. */
  lemma NothingLeftToMask(s: string, k: nat)
    requires k < |s|
    ensures TokenEnd(Mask(s), k).None?
    ensures forall e: nat :: !Token(Mask(s), k, e)
  {
    var m := Mask(s);
    forall e: nat { TokenEndIs(m, k, e); }
    forall j | 0 <= j < |s| ensures m[j] != '"' {
      NoQuoteVisible(s, j);
    }
    NoCharLiteral(s, k);
    if Pair(m, k, '/', '/') || Pair(m, k, '/', '*') {
      VisibleIsCode(s, k + 1);
      VisibleIsCode(s, k);
    }
  }

  lemma {:induction false} WithoutTokensAllIsCode(s: string, i: nat, k: nat)
    requires i <= k < |s| && forall j :: 0 <= j < |s| ==> TokenEnd(s, j).None?
    ensures IsCode(s, i, k)
    decreases |s| - i
  {
    if i < k {
      WithoutTokensAllIsCode(s, i + 1, k);
    }
  }

  /**
   The whole guarantee, for every source text: masking keeps length and newlines, leaves each
   position unchanged or blank, leaves no double quote, and is idempotent because nothing that
   it would blank can start in its own output.
   */
  lemma MaskIsIdempotent(s: string)
    ensures |Mask(s)| == |s|
    ensures forall k :: 0 <= k < |s| ==>
              && Mask(s)[k] in {s[k], ' '}
              && (Mask(s)[k] == '\n' <==> s[k] == '\n')
              && Mask(s)[k] != '"'
              && TokenEnd(Mask(s), k).None?
    ensures Mask(Mask(s)) == Mask(s)
  {
    forall k | 0 <= k < |s| ensures TokenEnd(Mask(s), k).None? && Mask(s)[k] != '"' {
      NothingLeftToMask(s, k);
      NoQuoteVisible(s, k);
    }
    forall k | 0 <= k < |s| ensures MaskedChar(Mask(s), k) == Mask(s)[k] {
      WithoutTokensAllIsCode(Mask(s), 0, k);
    }
  }
}
