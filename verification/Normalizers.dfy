/** Normalizers: the one-pass normalizers of the aggregator and of the stop list, proved against
    the split-clean-join normal form, and the exact relation between the two. */
module Normalizers {
  import opened Errors
  import opened Text

  const DEFAULT_MAX_QUERY_RUNES := 256

  /** What the aggregator's normalizer promises for every query and limit. */
  function Normalized(lower: Lower, query: string, maxRunes: int): Result<string> {
    var limit := if maxRunes <= 0 then DEFAULT_MAX_QUERY_RUNES else maxRunes;
    var canon := Canon(lower, query);
    if canon == "" then Err(EmptyQuery)
    else if |canon| > limit then Err(QueryTooLong)
    else Ok(canon)
  }

  /** The text a normalizer has written when it has read `q`: the normal form, and a separator
      as soon as a word has been closed. */
  function Written(lower: Lower, q: string): string {
    Canon(lower, q) + if SpaceWritten(lower, q) then " " else ""
  }

  predicate SpaceWritten(lower: Lower, q: string) {
    Words(lower, q) != [] && !Open(lower, q)
  }

  lemma {:induction false} WrittenStep(lower: Lower, q: string, r: char)
    ensures Written(lower, q) != "" <==> Words(lower, q) != []
    ensures IsSpace(r) ==>
              && SpaceWritten(lower, q + [r]) == (Words(lower, q) != [])
              && Written(lower, q + [r])
                 == Written(lower, q) + if Words(lower, q) != [] && !SpaceWritten(lower, q) then " " else ""
    ensures !IsSpace(r) && IsControl(r) ==>
              SpaceWritten(lower, q + [r]) == SpaceWritten(lower, q) && Written(lower, q + [r]) == Written(lower, q)
    ensures IsVisible(r) ==>
              && !SpaceWritten(lower, q + [r])
              && Written(lower, q + [r]) == Written(lower, q) + [lower(r)] == Canon(lower, q + [r])
  {
    WordsStep(lower, q, r);
    CanonStep(lower, q, r);
    WordsAreNormal(lower, q);
    if Words(lower, q) != [] {
      JoinEnds(lower, Words(lower, q));
    }
  }

  /** The loop state of a normalizer that has read `text`. */
  predicate HasRead(lower: Lower, text: string, builder: string, spaced: bool) {
    builder == Written(lower, text) && spaced == SpaceWritten(lower, text)
  }

  /** What the loop body has to do for one rune. */
  lemma {:induction false} ReadRune(lower: Lower, text: string, r: char, builder: string, spaced: bool)
    requires HasRead(lower, text, builder, spaced)
    ensures IsSpace(r) && builder != "" && !spaced ==> HasRead(lower, text + [r], builder + " ", true)
    ensures IsSpace(r) && (builder == "" || spaced) ==> HasRead(lower, text + [r], builder, spaced)
    ensures !IsSpace(r) && IsControl(r) ==> HasRead(lower, text + [r], builder, spaced)
    ensures IsVisible(r) ==> HasRead(lower, text + [r], builder + [lower(r)], false)
    ensures IsVisible(r) ==> builder + [lower(r)] == Canon(lower, text + [r])
  {
    WrittenStep(lower, text, r);
    assert Written(lower, text) + "" == Written(lower, text);
  }

  /** A normalizer never writes more runes than it reads. */
  lemma {:induction false} WrittenNotLonger(lower: Lower, q: string)
    ensures |Canon(lower, q)| <= |Written(lower, q)| <= |q|
  {
    if q == "" {
      WordsAreClosedAndCurrent(lower, q);
    } else {
      WrittenNotLonger(lower, Front(q));
      assert q == Front(q) + [Last(q)];
      WrittenStep(lower, Front(q), Last(q));
    }
  }

  /** The final trim removes at most the separator written last. */
  lemma {:induction false} TrimWritten(lower: Lower, text: string, builder: string, spaced: bool)
    requires HasRead(lower, text, builder, spaced)
    ensures TrimSpace(builder) == Canon(lower, text)
  {
    var j := Canon(lower, text);
    if Words(lower, text) != [] {
      WordsAreNormal(lower, text);
      JoinEnds(lower, Words(lower, text));
      assert TrimRight(j) == j;
      assert Front(j + " ") == j && Last(j + " ") == ' ' && (j + " ")[0] == j[0];
      assert TrimRight(j + " ") == TrimRight(j);
    }
  }

  /** `NormalizeQuery` refines split, clean, drop empties, join: it fails as empty exactly when no
      word remains and as too long exactly when the joined words exceed the limit. */
  method NormalizeQuery(lower: Lower, query: string, maxRunes: int) returns (r: Result<string>)
    ensures r == Normalized(lower, query, maxRunes)
    ensures r == Err(EmptyQuery) <==> Words(lower, query) == []
    ensures r == Err(QueryTooLong) <==> |Join(Words(lower, query))| > if maxRunes > 0 then maxRunes else 256
    ensures r.Ok? <==> r == Ok(Join(Words(lower, query)))
    ensures r.Err? <==> r == Err(EmptyQuery) || r == Err(QueryTooLong)
  {
    CanonEmptyIff(lower, query);
    var limit := if maxRunes <= 0 then DEFAULT_MAX_QUERY_RUNES else maxRunes;
    var trimmed := TrimSpace(query);
    TrimKeepsWords(lower, query);
    if trimmed == "" {
      return Err(EmptyQuery);
    }
    var tooLong, builder := CollapseWithin(lower, trimmed, limit);
    if tooLong {
      return Err(QueryTooLong);
    }
    var normalized := TrimSpace(builder);
    if normalized == "" {
      return Err(EmptyQuery);
    }
    if |normalized| > limit {
      return Err(QueryTooLong);
    }
    return Ok(normalized);
  }

  /** The loop of `NormalizeQuery`, with its early exit. */
  method CollapseWithin(lower: Lower, text: string, limit: nat) returns (tooLong: bool, builder: string)
    ensures tooLong ==> |Canon(lower, text)| > limit
    ensures !tooLong ==> TrimSpace(builder) == Canon(lower, text)
  {
    builder := "";
    var previousWasSpace, writtenRunes := false, 0;
    for k := 0 to |text|
      invariant HasRead(lower, text[..k], builder, previousWasSpace)
      invariant writtenRunes == |builder|
    {
      var c := text[k];
      ReadRune(lower, text[..k], c, builder, previousWasSpace);
      assert text[..k + 1] == text[..k] + [c];
      if IsSpace(c) {
        if |builder| > 0 && !previousWasSpace {
          builder, previousWasSpace, writtenRunes := builder + " ", true, writtenRunes + 1;
        }
        continue;
      }
      if IsControl(c) {
        continue;
      }
      builder, previousWasSpace, writtenRunes := builder + [lower(c)], false, writtenRunes + 1;
      if writtenRunes > limit {
        CanonGrows(lower, text, k + 1);
        return true, builder;
      }
    }
    assert text[..|text|] == text;
    TrimWritten(lower, text, builder, previousWasSpace);
    tooLong := false;
  }

  /** Every accepted query is stored under a key that normalizes to itself. */
  lemma {:induction false} NormalizedIsFixed(lower: Lower, query: string, maxRunes: int)
    requires Normalized(lower, query, maxRunes).Ok?
    ensures Normalized(lower, Normalized(lower, query, maxRunes).value, maxRunes)
            == Normalized(lower, query, maxRunes)
  {
    CanonIdempotent(lower, query);
  }

  // ---------- The stop list's normalizer ----------

  function StripControls(q: string): string {
    if q == "" then "" else StripControls(Front(q)) + if IsControl(Last(q)) then "" else [Last(q)]
  }

  /** The stop list deletes every control rune before it looks for words, also those that are spaces. */
  function StopCanon(lower: Lower, q: string): string {
    Canon(lower, StripControls(q))
  }

  lemma {:induction false} StripStep(q: string, r: char)
    ensures StripControls(q + [r]) == StripControls(q) + if IsControl(r) then "" else [r]
  {
    assert Front(q + [r]) == q;
  }

  lemma {:induction false} ConcatAssociates(a: string, b: string, c: string)
    ensures a + (b + c) == (a + b) + c
  {
  }

  lemma {:induction false} StripConcat(p: string, q: string)
    ensures StripControls(p + q) == StripControls(p) + StripControls(q)
  {
    if q == "" {
      assert p + q == p;
    } else {
      StripConcat(p, Front(q));
      assert p + q == p + Front(q) + [Last(q)];
      StripStep(p + Front(q), Last(q));
      ConcatAssociates(StripControls(p), StripControls(Front(q)), if IsControl(Last(q)) then "" else [Last(q)]);
    }
  }

  lemma {:induction false} StripOneLeft(lower: Lower, r: char, q: string)
    requires IsSpace(r)
    ensures Words(lower, StripControls([r] + q)) == Words(lower, StripControls(q))
  {
    StripConcat([r], q);
    StripStep("", r);
    assert "" + [r] == [r];
    if IsControl(r) {
      assert "" + StripControls(q) == StripControls(q);
    } else {
      LeadingSpace(lower, r, StripControls(q));
    }
  }

  lemma {:induction false} StripTrimLeft(lower: Lower, q: string)
    ensures Words(lower, StripControls(TrimLeft(q))) == Words(lower, StripControls(q))
    decreases |q|
  {
    if q == "" || !IsSpace(q[0]) {
    } else {
      StripTrimLeft(lower, q[1..]);
      StripFirst(lower, q);
    }
  }

  lemma {:induction false} StripFirst(lower: Lower, q: string)
    requires q != "" && IsSpace(q[0])
    ensures Words(lower, StripControls(q)) == Words(lower, StripControls(q[1..]))
  {
    assert q == [q[0]] + q[1..];
    StripOneLeft(lower, q[0], q[1..]);
  }

  lemma {:induction false} StripOneRight(lower: Lower, q: string, r: char)
    requires IsSpace(r)
    ensures Words(lower, StripControls(q + [r])) == Words(lower, StripControls(q))
  {
    StripStep(q, r);
    if IsControl(r) {
      assert StripControls(q) + "" == StripControls(q);
    } else {
      WordsStepInvisible(lower, StripControls(q), r);
    }
  }

  lemma {:induction false} StripTrimRight(lower: Lower, q: string)
    ensures Words(lower, StripControls(TrimRight(q))) == Words(lower, StripControls(q))
    decreases |q|
  {
    if q == "" || !IsSpace(Last(q)) {
    } else {
      StripTrimRight(lower, Front(q));
      StripLast(lower, q);
    }
  }

  lemma {:induction false} StripLast(lower: Lower, q: string)
    requires q != "" && IsSpace(Last(q))
    ensures Words(lower, StripControls(q)) == Words(lower, StripControls(Front(q)))
  {
    assert q == Front(q) + [Last(q)];
    StripOneRight(lower, Front(q), Last(q));
  }

  lemma {:induction false} StripTrim(lower: Lower, q: string)
    ensures StopCanon(lower, TrimSpace(q)) == StopCanon(lower, q)
  {
    StripTrimLeft(lower, q);
    StripTrimRight(lower, TrimLeft(q));
  }

  /** The stop list's `normalize`: the aggregator's normal form of the text without control runes. */
  method StopNormalize(lower: Lower, word: string) returns (r: string)
    ensures r == StopCanon(lower, word)
  {
    var trimmed := TrimSpace(word);
    StripTrim(lower, word);
    if trimmed == "" {
      return "";
    }
    r := CollapseControlFree(lower, trimmed);
  }

  /** The loop of the stop list's `normalize`. */
  method CollapseControlFree(lower: Lower, text: string) returns (r: string)
    ensures r == StopCanon(lower, text)
  {
    var builder, previousWasSpace := "", false;
    ghost var seen := "";
    for k := 0 to |text|
      invariant seen == StripControls(text[..k])
      invariant HasRead(lower, seen, builder, previousWasSpace)
    {
      var c := text[k];
      assert text[..k + 1] == text[..k] + [c];
      StripStep(text[..k], c);
      if IsControl(c) {
        assert seen + "" == seen;
        continue;
      }
      ReadRune(lower, seen, c, builder, previousWasSpace);
      seen := seen + [c];
      if IsSpace(c) {
        if |builder| > 0 && !previousWasSpace {
          builder, previousWasSpace := builder + " ", true;
        }
        continue;
      }
      builder, previousWasSpace := builder + [lower(c)], false;
    }
    assert text[..|text|] == text;
    TrimWritten(lower, seen, builder, previousWasSpace);
    r := TrimSpace(builder);
  }

  // ---------- Where the two normalizers agree ----------

  /** Tab, line feed, vertical tab, form feed, carriage return and next line. */
  predicate IsSpaceControl(r: char) {
    IsSpace(r) && IsControl(r)
  }

  lemma {:induction false} SpaceControls(r: char)
    ensures IsSpaceControl(r) <==> r as int in {0x09, 0x0A, 0x0B, 0x0C, 0x0D, 0x85}
  {
  }

  predicate IsPlainSpace(r: char) {
    IsSpace(r) && !IsControl(r)
  }

  predicate NoPlainSpace(q: string, i: nat, j: nat)
    requires j <= |q|
  {
    forall k :: i < k < j ==> !IsPlainSpace(q[k])
  }

  /** Two visible runes with a space-and-control rune, but no plain space, between them. */
  predicate Gap(q: string, i: nat, k: nat, j: nat) {
    && i < k < j < |q| && IsVisible(q[i]) && IsSpaceControl(q[k]) && IsVisible(q[j])
    && NoPlainSpace(q, i, j)
  }

  ghost predicate HasControlGap(q: string) {
    exists i: nat, k: nat, j: nat :: Gap(q, i, k, j)
  }

  /** A gap that the next visible rune would complete. */
  predicate HalfGap(q: string, i: nat, k: nat) {
    i < k < |q| && IsVisible(q[i]) && IsSpaceControl(q[k]) && NoPlainSpace(q, i, |q|)
  }

  ghost predicate HasHalfGap(q: string) {
    exists i: nat, k: nat :: HalfGap(q, i, k)
  }

  /** A visible rune with no plain space after it. */
  predicate Tail(q: string, i: nat) {
    i < |q| && IsVisible(q[i]) && NoPlainSpace(q, i, |q|)
  }

  ghost predicate HasTail(q: string) {
    exists i: nat :: Tail(q, i)
  }

  lemma {:induction false} GapStep(q: string, r: char)
    ensures HasControlGap(q + [r]) <==> HasControlGap(q) || (IsVisible(r) && HasHalfGap(q))
  {
    var q' := q + [r];
    assert forall m :: 0 <= m < |q| ==> q'[m] == q[m];
    if HasControlGap(q) {
      var i: nat, k: nat, j: nat :| Gap(q, i, k, j);
      assert Gap(q', i, k, j);
    }
    if IsVisible(r) && HasHalfGap(q) {
      var i: nat, k: nat :| HalfGap(q, i, k);
      assert Gap(q', i, k, |q|);
    }
    if HasControlGap(q') {
      var i: nat, k: nat, j: nat :| Gap(q', i, k, j);
      assert if j < |q| then Gap(q, i, k, j) else HalfGap(q, i, k);
    }
  }

  lemma {:induction false} HalfGapStep(q: string, r: char)
    ensures HasHalfGap(q + [r]) <==> !IsPlainSpace(r) && (HasHalfGap(q) || (IsSpaceControl(r) && HasTail(q)))
  {
    var q' := q + [r];
    assert forall m :: 0 <= m < |q| ==> q'[m] == q[m];
    if !IsPlainSpace(r) && HasHalfGap(q) {
      var i: nat, k: nat :| HalfGap(q, i, k);
      assert HalfGap(q', i, k);
    }
    if IsSpaceControl(r) && HasTail(q) {
      var i: nat :| Tail(q, i);
      assert HalfGap(q', i, |q|);
    }
    if HasHalfGap(q') {
      var i: nat, k: nat :| HalfGap(q', i, k);
      assert q'[|q|] == r;
      assert if k < |q| then HalfGap(q, i, k) else Tail(q, i);
    }
  }

  lemma {:induction false} TailStep(q: string, r: char)
    ensures HasTail(q + [r]) <==> IsVisible(r) || (!IsPlainSpace(r) && HasTail(q))
  {
    var q' := q + [r];
    assert forall m :: 0 <= m < |q| ==> q'[m] == q[m];
    if IsVisible(r) {
      assert Tail(q', |q|);
    }
    if !IsPlainSpace(r) && HasTail(q) {
      var i: nat :| Tail(q, i);
      assert Tail(q', i);
    }
    if HasTail(q') {
      var i: nat :| Tail(q', i);
      assert q'[|q|] == r;
      assert i < |q| ==> Tail(q, i);
    }
  }

  /** What the two normalizers have read of the same text: `words` and `open` of the aggregator's,
      `stopWords` and `stopOpen` of the stop list's. */
  ghost predicate InStep(q: string, words: seq<string>, open: bool, stopWords: seq<string>, stopOpen: bool) {
    && (open ==> stopOpen)
    && (stopOpen <==> HasTail(q))
    && if HasControlGap(q) then |words| > |stopWords|
       else words == stopWords && (stopOpen && !open <==> HasHalfGap(q))
  }

  lemma {:induction false} NormalizersInStep(lower: Lower, q: string)
    ensures InStep(q, Words(lower, q), Open(lower, q),
                   Words(lower, StripControls(q)), Open(lower, StripControls(q)))
  {
    if q == "" {
    } else {
      var p, r := Front(q), Last(q);
      assert q == p + [r];
      NormalizersInStep(lower, p);
      GapStep(p, r);
      HalfGapStep(p, r);
      TailStep(p, r);
      WordsStep(lower, p, r);
      StripStep(p, r);
      if IsControl(r) {
        assert StripControls(p) + "" == StripControls(p);
      } else {
        WordsStep(lower, StripControls(p), r);
      }
    }
  }

  /** The two normalizers agree on a text if and only if it has no gap of space-and-control runes:
      no tab, line break or the like that alone separates two visible runes. */
  lemma {:induction false} AgreeIffNoControlGap(lower: Lower, q: string)
    ensures StopCanon(lower, q) == Canon(lower, q) <==> !HasControlGap(q)
  {
    NormalizersInStep(lower, q);
    JoinInjective(lower, StripControls(q), q);
  }

  lemma {:induction false} JoinedHasNoControl(lower: Lower, ws: seq<string>)
    requires AreNormalWords(lower, ws)
    ensures forall i :: 0 <= i < |Join(ws)| ==> !IsControl(Join(ws)[i])
  {
    if |ws| <= 1 {
    } else {
      JoinedHasNoControl(lower, Front(ws));
    }
  }

  /** The stop list's normalizer leaves every key of the aggregator as it is. */
  lemma {:induction false} StopCanonOfCanon(lower: Lower, q: string)
    ensures StopCanon(lower, Canon(lower, q)) == Canon(lower, q)
  {
    var key := Canon(lower, q);
    WordsAreNormal(lower, q);
    JoinedHasNoControl(lower, Words(lower, q));
    AgreeIffNoControlGap(lower, key);
    CanonIdempotent(lower, q);
  }
}
