/**
 Brace pairs of a masked source text, the function bodies found from them, and the lookup of
 the innermost function around a position.
 */
module BraceMatching {
  import opened Wrappers

  // ----- The pairs, defined by nesting depth -----

  /** Opening minus closing braces among the first i characters. */
  function Depth(s: string, i: nat): int
    requires i <= |s|
  {
    if i == 0 then 0
    else Depth(s, i - 1) + (if s[i - 1] == '{' then 1 else if s[i - 1] == '}' then -1 else 0)
  }

  /** An opening brace at o that nothing before i has closed. */
  ghost predicate OpenUntil(s: string, o: nat, i: nat)
    requires i <= |s|
  {
    o < i && s[o] == '{' && forall j :: o < j <= i ==> Depth(s, j) > Depth(s, o)
  }

  /** The interior of o..c is balanced: it never dips below its start and returns to it. */
  ghost predicate Matches(s: string, o: nat, c: nat) {
    c < |s| && s[c] == '}' && OpenUntil(s, o, c) && Depth(s, c) == Depth(s, o) + 1
  }

  /** What a stack holds after i characters: the open braces, one per level of depth. */
  ghost predicate StackOf(s: string, i: nat, stack: seq<nat>)
    requires i <= |s|
  {
    && (forall k :: 0 <= k < |stack| ==> OpenUntil(s, stack[k], i) && Depth(s, stack[k]) == Depth(s, i) - (|stack| - k))
    && (forall o: nat :: OpenUntil(s, o, i) ==> o in stack)
  }

  ghost predicate PairsOf(s: string, i: nat, pairs: map<nat, nat>)
    requires i <= |s|
  {
    forall o: nat, c: nat :: o in pairs && pairs[o] == c <==> c < i && Matches(s, o, c)
  }

  /** The scan finds exactly the pairs with a balanced interior; a stray `}` is ignored. */
  method MatchingBraces(masked: string) returns (pairs: map<nat, nat>)
    ensures PairsOf(masked, |masked|, pairs)
  {
    var stack: seq<nat> := [];
    pairs := map[];
    for index := 0 to |masked|
      invariant StackOf(masked, index, stack)
      invariant PairsOf(masked, index, pairs)
    {
      if masked[index] == '{' {
        PushKeepsStack(masked, index, stack);
        stack := stack + [index];
      } else if masked[index] == '}' && stack != [] {
        var opening := stack[|stack| - 1];
        PopMatches(masked, index, stack);
        PopRecordsPair(masked, index, opening, pairs);
        stack := stack[..|stack| - 1];
        pairs := pairs[opening := index];
      } else {
        SkipKeepsStack(masked, index, stack);
      }
    }
  }

  lemma PushKeepsStack(s: string, i: nat, stack: seq<nat>)
    requires i < |s| && s[i] == '{' && StackOf(s, i, stack)
    ensures StackOf(s, i + 1, stack + [i])
  {
    var next := stack + [i];
    forall k | 0 <= k < |next|
      ensures OpenUntil(s, next[k], i + 1) && Depth(s, next[k]) == Depth(s, i + 1) - (|next| - k)
    {
      if k < |stack| {
        assert OpenUntil(s, stack[k], i);
      }
    }
    forall o: nat | OpenUntil(s, o, i + 1) ensures o in next {
      if o < i {
        assert OpenUntil(s, o, i);
      } else {
        assert next[|stack|] == o;
      }
    }
  }

  lemma SkipKeepsStack(s: string, i: nat, stack: seq<nat>)
    requires i < |s| && s[i] != '{' && (s[i] == '}' ==> stack == []) && StackOf(s, i, stack)
    ensures StackOf(s, i + 1, stack)
  {
    forall o: nat | OpenUntil(s, o, i + 1) ensures o in stack {
      assert OpenUntil(s, o, i);
    }
    forall k | 0 <= k < |stack| ensures OpenUntil(s, stack[k], i + 1) {
      assert OpenUntil(s, stack[k], i);
    }
  }

  lemma PopMatches(s: string, i: nat, stack: seq<nat>)
    requires i < |s| && s[i] == '}' && StackOf(s, i, stack) && stack != []
    ensures Matches(s, stack[|stack| - 1], i)
    ensures forall o: nat :: Matches(s, o, i) ==> o == stack[|stack| - 1]
    ensures StackOf(s, i + 1, stack[..|stack| - 1])
  {
    var top := |stack| - 1;
    forall o: nat | Matches(s, o, i) ensures o == stack[top] {
      var k :| 0 <= k < |stack| && stack[k] == o;
    }
    forall o: nat | OpenUntil(s, o, i + 1) ensures o in stack[..top] {
      assert OpenUntil(s, o, i);
      var k :| 0 <= k < |stack| && stack[k] == o;
      assert Depth(s, i + 1) > Depth(s, o) && Depth(s, i + 1) == Depth(s, stack[top]);
      assert stack[..top][k] == o;
    }
    forall k | 0 <= k < top ensures OpenUntil(s, stack[k], i + 1) {
      assert OpenUntil(s, stack[k], i);
    }
  }

  /** A match is over: its opening brace is not open any more after its closing brace. */
  lemma MatchCloses(s: string, o: nat, c: nat, i: nat)
    requires Matches(s, o, c) && c < i <= |s|
    ensures !OpenUntil(s, o, i)
  {
    assert Depth(s, c + 1) == Depth(s, o);
  }

  lemma PopRecordsPair(s: string, i: nat, opening: nat, pairs: map<nat, nat>)
    requires i < |s| && PairsOf(s, i, pairs) && Matches(s, opening, i)
    requires forall o: nat :: Matches(s, o, i) ==> o == opening
    ensures PairsOf(s, i + 1, pairs[opening := i])
  {
    forall c: nat | c < i ensures !Matches(s, opening, c) {
      if Matches(s, opening, c) {
        MatchCloses(s, opening, c, i);
      }
    }
  }

  // ----- The family of pairs -----

  /** Two pairs share no brace and are nested or disjoint. */
  lemma PairsAreLaminar(s: string, o1: nat, c1: nat, o2: nat, c2: nat)
    requires Matches(s, o1, c1) && Matches(s, o2, c2) && o1 <= o2
    ensures o1 == o2 <==> c1 == c2
    ensures o1 < o2 ==> c1 < o2 || c2 < c1
  {
    if o1 == o2 && c1 != c2 {
      MatchCloses(s, o1, if c1 < c2 then c1 else c2, if c1 < c2 then c2 else c1);
    }
  }

  /** Inside a pair every prefix has at least as many opening as closing braces; in all, as many. */
  lemma InteriorIsBalanced(s: string, o: nat, c: nat, i: nat)
    requires Matches(s, o, c) && o < i <= c
    ensures Depth(s, i) >= Depth(s, o + 1) == Depth(s, c)
  {
    assert Depth(s, o + 1) == Depth(s, o) + 1;
  }

  // ----- Function bodies and their owner -----

  /** One hit of the function pattern: the name, and where the hit starts and ends. */
  datatype FunctionHit = FunctionHit(name: string, start: nat, end: nat)

  datatype FunctionRange = FunctionRange(name: string, start: nat, end: nat, isTest: bool)

  /** The text between two braces of a pair. */
  datatype Span = Span(start: nat, end: nat)

  ghost predicate HitsWithin(masked: string, hits: seq<FunctionHit>) {
    forall hit :: hit in hits ==> hit.start <= hit.end <= |masked|
  }

  /** The first index at or after i that holds c. */
  function Find(s: string, c: char, i: nat): (r: Option<nat>)
    ensures r.Some? ==> i <= r.value < |s| && s[r.value] == c && forall k :: i <= k < r.value ==> s[k] != c
    ensures r.None? ==> forall k :: i <= k < |s| ==> s[k] != c
    decreases |s| - i
  {
    if i >= |s| then None else if s[i] == c then Some(i) else Find(s, c, i + 1)
  }

  /** The brace that opens the body of an item, unless a `;` ends the item first. */
  function NextBodyOpen(masked: string, start: nat): (r: Option<nat>)
    ensures r.Some? <==> exists o :: start <= o < |masked| && masked[o] == '{' && forall k :: start <= k < o ==> masked[k] != ';'
    ensures r.Some? ==> start <= r.value < |masked| && masked[r.value] == '{'
                        && forall k :: start <= k < r.value ==> masked[k] != ';' && masked[k] != '{'
  {
    var opening := Find(masked, '{', start);
    var terminator := Find(masked, ';', start);
    if opening.None? || (terminator.Some? && terminator.value < opening.value) then None else opening
  }

  /** Where the item that reaches to i begins: behind the last `}` or `;` before it. */
  function ItemStart(masked: string, i: nat): (r: nat)
    requires i <= |masked|
    ensures r <= i && (r > 0 ==> masked[r - 1] == '}' || masked[r - 1] == ';')
    ensures forall k :: r <= k < i ==> masked[k] != '}' && masked[k] != ';'
  {
    if i == 0 || masked[i - 1] == '}' || masked[i - 1] == ';' then i else ItemStart(masked, i - 1)
  }

  /** The bodies of the items marked for tests only; `ends` says where the hits of that mark end. */
  ghost function TestSpans(masked: string, pairs: map<nat, nat>, ends: seq<nat>): seq<Span> {
    if ends == [] then []
    else
      var before := TestSpans(masked, pairs, ends[..|ends| - 1]);
      var opening := NextBodyOpen(masked, ends[|ends| - 1]);
      if opening.None? || opening.value !in pairs then before
      else before + [Span(opening.value, pairs[opening.value])]
  }

  method CfgTestRanges(masked: string, braces: map<nat, nat>, ends: seq<nat>) returns (ranges: seq<Span>)
    ensures ranges == TestSpans(masked, braces, ends)
  {
    ranges := [];
    for i := 0 to |ends|
      invariant ranges == TestSpans(masked, braces, ends[..i])
    {
      assert ends[..i + 1][..i] == ends[..i];
      var opening := NextBodyOpen(masked, ends[i]);
      if opening.Some? && opening.value in braces {
        ranges := ranges + [Span(opening.value, braces[opening.value])];
      }
    }
    assert ends[..|ends|] == ends;
  }

  predicate InSpan(spans: seq<Span>, i: nat) {
    exists k :: 0 <= k < |spans| && spans[k].start < i < spans[k].end
  }

  /**
   The bodies of the hits that have one, in the order of the hits. `isMark` tells whether the
   text in front of a hit carries one of the two test attributes.
   */
  ghost function RangesOf(masked: string, pairs: map<nat, nat>, hits: seq<FunctionHit>, ends: seq<nat>, isMark: string -> bool)
      : seq<FunctionRange>
    requires HitsWithin(masked, hits)
  {
    if hits == [] then []
    else
      var before := RangesOf(masked, pairs, hits[..|hits| - 1], ends, isMark);
      var hit := hits[|hits| - 1];
      var opening := NextBodyOpen(masked, hit.end);
      if opening.None? || opening.value !in pairs then before
      else
        var marked := isMark(masked[ItemStart(masked, hit.start)..hit.start]);
        var isTest := marked || InSpan(TestSpans(masked, pairs, ends), opening.value);
        before + [FunctionRange(hit.name, opening.value, pairs[opening.value], isTest)]
  }

  method FunctionRanges(masked: string, braces: map<nat, nat>, hits: seq<FunctionHit>, ends: seq<nat>, isMark: string -> bool)
      returns (ranges: seq<FunctionRange>)
    requires HitsWithin(masked, hits)
    ensures ranges == RangesOf(masked, braces, hits, ends, isMark)
  {
    var testRanges := CfgTestRanges(masked, braces, ends);
    ranges := [];
    for i := 0 to |hits|
      invariant ranges == RangesOf(masked, braces, hits[..i], ends, isMark)
    {
      assert hits[..i + 1][..i] == hits[..i];
      var opening := NextBodyOpen(masked, hits[i].end);
      if opening.None? || opening.value !in braces {
        continue;
      }
      var end := braces[opening.value];
      var prefix := masked[ItemStart(masked, hits[i].start)..hits[i].start];
      var isTest := isMark(prefix);
      isTest := isTest || InSpan(testRanges, opening.value);
      ranges := ranges + [FunctionRange(hits[i].name, opening.value, end, isTest)];
    }
    assert hits[..|hits|] == hits;
  }

  predicate Contains(f: FunctionRange, position: nat) {
    f.start < position < f.end
  }

  /** The first shortest range around the position. */
  function OwnerFor(position: nat, functions: seq<FunctionRange>): (r: Option<FunctionRange>)
    ensures r.None? <==> forall f :: f in functions ==> !Contains(f, position)
    ensures r.Some? ==> r.value in functions && Contains(r.value, position)
                        && forall f :: f in functions && Contains(f, position) ==> r.value.end - r.value.start <= f.end - f.start
  {
    if functions == [] then None
    else
      var last := functions[|functions| - 1];
      var best := OwnerFor(position, functions[..|functions| - 1]);
      assert forall f :: f in functions <==> f in functions[..|functions| - 1] || f == last;
      if !Contains(last, position) then best
      else if best.None? || last.end - last.start < best.value.end - best.value.start then Some(last)
      else best
  }

  lemma {:induction false} RangesArePairs(masked: string, pairs: map<nat, nat>, hits: seq<FunctionHit>, ends: seq<nat>, isMark: string -> bool)
    requires PairsOf(masked, |masked|, pairs) && HitsWithin(masked, hits)
    ensures forall f :: f in RangesOf(masked, pairs, hits, ends, isMark) ==>
              Matches(masked, f.start, f.end) && (InSpan(TestSpans(masked, pairs, ends), f.start) ==> f.isTest)
  {
    if hits != [] {
      RangesArePairs(masked, pairs, hits[..|hits| - 1], ends, isMark);
    }
  }

  lemma {:induction false} SpansArePairs(masked: string, pairs: map<nat, nat>, ends: seq<nat>)
    requires PairsOf(masked, |masked|, pairs)
    ensures forall span :: span in TestSpans(masked, pairs, ends) ==> Matches(masked, span.start, span.end)
  {
    if ends != [] {
      SpansArePairs(masked, pairs, ends[..|ends| - 1]);
    }
  }

  /** `begin` is where the item reaching to i begins: behind the last `}` or `;`, or at the front. */
  predicate ItemBegins(masked: string, begin: nat, i: nat) {
    && begin <= i <= |masked|
    && (begin == 0 || masked[begin - 1] == '}' || masked[begin - 1] == ';')
    && forall k :: begin <= k < i ==> masked[k] != '}' && masked[k] != ';'
  }

  /** The brace that opens the body of a hit, with no semicolon and no other brace before it. */
  predicate BodyOpens(masked: string, from: nat, opening: nat) {
    from <= opening < |masked| && masked[opening] == '{' && forall k :: from <= k < opening ==> masked[k] != ';' && masked[k] != '{'
  }

  /**
   Each hit with a matched body has its range, under its name, and is a test exactly if the text
   from the beginning of its item carries a mark or its body lies in a test-only item.
   */
  lemma {:induction false} HitHasRange(masked: string, pairs: map<nat, nat>, hits: seq<FunctionHit>, ends: seq<nat>, isMark: string -> bool,
                                       hit: FunctionHit, opening: nat, begin: nat)
    requires HitsWithin(masked, hits) && hit in hits
    requires BodyOpens(masked, hit.end, opening) && opening in pairs && ItemBegins(masked, begin, hit.start)
    ensures FunctionRange(hit.name, opening, pairs[opening],
                          isMark(masked[begin..hit.start]) || InSpan(TestSpans(masked, pairs, ends), opening))
            in RangesOf(masked, pairs, hits, ends, isMark)
  {
    var init, last := hits[..|hits| - 1], hits[|hits| - 1];
    if hit in init {
      HitHasRange(masked, pairs, init, ends, isMark, hit, opening, begin);
    } else {
      assert hit == last;
      assert NextBodyOpen(masked, hit.end) == Some(opening);
      assert ItemStart(masked, hit.start) == begin;
    }
  }

  /** And there are no other ranges: each belongs to a hit whose body it is. */
  lemma {:induction false} RangeHasHit(masked: string, pairs: map<nat, nat>, hits: seq<FunctionHit>, ends: seq<nat>, isMark: string -> bool,
                                       f: FunctionRange)
    requires HitsWithin(masked, hits) && f in RangesOf(masked, pairs, hits, ends, isMark)
    ensures exists hit :: hit in hits && hit.name == f.name && BodyOpens(masked, hit.end, f.start) && f.start in pairs && pairs[f.start] == f.end
  {
    var init, last := hits[..|hits| - 1], hits[|hits| - 1];
    if f in RangesOf(masked, pairs, init, ends, isMark) {
      RangeHasHit(masked, pairs, init, ends, isMark, f);
    } else {
      assert BodyOpens(masked, last.end, f.start);
    }
  }

  /** What is nested, at any depth, in a function of a test-only module counts as test code too. */
  lemma NestedTestCodeIsTest(masked: string, pairs: map<nat, nat>, hits: seq<FunctionHit>, ends: seq<nat>, isMark: string -> bool,
                             outer: FunctionRange, inner: FunctionRange)
    requires PairsOf(masked, |masked|, pairs) && HitsWithin(masked, hits)
    requires outer in RangesOf(masked, pairs, hits, ends, isMark) && inner in RangesOf(masked, pairs, hits, ends, isMark)
    requires InSpan(TestSpans(masked, pairs, ends), outer.start) && Contains(outer, inner.start)
    ensures inner.isTest
  {
    var spans := TestSpans(masked, pairs, ends);
    RangesArePairs(masked, pairs, hits, ends, isMark);
    SpansArePairs(masked, pairs, ends);
    var k :| 0 <= k < |spans| && spans[k].start < outer.start < spans[k].end;
    PairsAreLaminar(masked, spans[k].start, spans[k].end, outer.start, outer.end);
    assert spans[k].start < inner.start < spans[k].end;
  }

  /**
   For every source text and position, the range picked as owner lies inside every other
   function body around the position: the shortest is the innermost.
   */
  lemma OwnerIsInnermost(masked: string, pairs: map<nat, nat>, hits: seq<FunctionHit>, ends: seq<nat>, isMark: string -> bool,
                         position: nat, other: FunctionRange)
    requires PairsOf(masked, |masked|, pairs) && HitsWithin(masked, hits)
    requires other in RangesOf(masked, pairs, hits, ends, isMark) && Contains(other, position)
    ensures var owner := OwnerFor(position, RangesOf(masked, pairs, hits, ends, isMark));
            owner.Some? && other.start <= owner.value.start < position < owner.value.end <= other.end
  {
    RangesArePairs(masked, pairs, hits, ends, isMark);
    var owner := OwnerFor(position, RangesOf(masked, pairs, hits, ends, isMark)).value;
    if other.start <= owner.start {
      PairsAreLaminar(masked, other.start, other.end, owner.start, owner.end);
    } else {
      PairsAreLaminar(masked, owner.start, owner.end, other.start, other.end);
    }
  }
}
