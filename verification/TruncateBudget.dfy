/** Does a truncated text meet its token budget? Exactly when, by how much it can miss, and
    inputs that make it miss (packages/shared/src/similarity.ts). */
module TruncateBudget {
  import opened Basics
  import opened SentenceSplit
  import opened TokenEstimates
  import opened Truncate

  /* ------------------------------- the length of a joined text ------------------------------- */

  /** Every part but the first begins with something other than a blank. */
  ghost predicate Joinable(parts: seq<string>) {
    parts != [] && parts[0] != "" && forall k :: 0 < k < |parts| ==> StartsSolid(parts[k])
  }

  function JoinedLength(parts: seq<string>): nat
    requires parts != []
  {
    var init, last := parts[..|parts| - 1], parts[|parts| - 1];
    if init == [] then |Collapse(last)|
    else JoinedLength(init) + |Gap(init[|init| - 1])| + |Collapse(last)|
  }

  ghost predicate SomeCode(parts: seq<string>) {
    exists k :: 0 <= k < |parts| && LooksLikeCode(Collapse(parts[k]))
  }

  lemma {:induction false} JoinedEnd(parts: seq<string>)
    requires Joinable(parts)
    ensures JoinWithBlanks(parts) != ""
    ensures EndsInBlank(JoinWithBlanks(parts)) <==> EndsInBlank(parts[|parts| - 1])
  {
    if |parts| > 1 {
      var init, last := parts[..|parts| - 1], parts[|parts| - 1];
      JoinedEnd(init);
      var text := JoinWithBlanks(init) + " " + last;
      assert text[|text| - 1] == last[|last| - 1];
    }
  }

  lemma {:induction false} JoinedLengthIsLength(parts: seq<string>)
    requires Joinable(parts)
    ensures |Collapse(JoinWithBlanks(parts))| == JoinedLength(parts)
  {
    if |parts| > 1 {
      var init, last := parts[..|parts| - 1], parts[|parts| - 1];
      JoinedLengthIsLength(init);
      JoinedEnd(init);
      CollapseOfJoin(JoinWithBlanks(init), last);
    }
  }

  lemma {:induction false} JoinedCode(parts: seq<string>)
    requires Joinable(parts)
    ensures LooksLikeCode(Collapse(JoinWithBlanks(parts))) <==> SomeCode(parts)
  {
    var init, last := parts[..|parts| - 1], parts[|parts| - 1];
    assert parts == init + [last];
    SomeCodeWithOneMore(init, last);
    if |parts| == 1 {
      assert init == [] && !SomeCode(init);
    } else {
      JoinedCode(init);
      CodeOfJoinedTexts(JoinWithBlanks(init), last);
    }
  }

  lemma JoinedText(parts: seq<string>)
    requires Joinable(parts)
    ensures EstimateTokens(JoinWithBlanks(parts)) == TokensOf(JoinedLength(parts), SomeCode(parts))
  {
    JoinedEnd(parts);
    JoinedLengthIsLength(parts);
    JoinedCode(parts);
  }

  lemma SomeCodeWithOneMore(parts: seq<string>, last: string)
    ensures SomeCode(parts + [last]) <==> SomeCode(parts) || LooksLikeCode(Collapse(last))
  {
    var all := parts + [last];
    if LooksLikeCode(Collapse(last)) {
      assert all[|parts|] == last;
    }
    if SomeCode(parts) {
      var k :| 0 <= k < |parts| && LooksLikeCode(Collapse(parts[k]));
      assert all[k] == parts[k];
    }
  }

  /* ------------------------------- the marker ------------------------------- */

  lemma {:induction false} NaturalIsDigits(n: nat)
    ensures forall c :: c in Natural(n) ==> '0' <= c <= '9'
  {
    if n >= 10 {
      NaturalIsDigits(n / 10);
    }
  }

  lemma MarkerIsCollapsed(dropped: nat)
    ensures Collapse(Marker(dropped)) == Marker(dropped) && StartsSolid(Marker(dropped))
    ensures |Marker(dropped)| == 22 + |Natural(dropped)|
  {
    NaturalIsDigits(dropped);
    var head, tail := "[" + Natural(dropped), " sentences truncated]";
    assert Marker(dropped) == head + tail;
    forall k | 0 <= k < |head|
      ensures head[k] == '[' || '0' <= head[k] <= '9'
    {
      if k > 0 {
        assert head[k] == Natural(dropped)[k - 1] && head[k] in Natural(dropped);
      }
    }
    assert Tight(head) && Tight(tail);
    TightIsCollapsed(Marker(dropped));
  }

  lemma CodeWordIsLetter(s: string, i: nat, j: nat)
    requires WordAt(s, i, j)
    ensures i < |s| && 'a' <= s[i] <= 'z' && s[i] in s
  {
    assert s[i..j] != "" && s[i..j][0] == s[i];
  }

  lemma DigitsAreNotCode(s: string)
    requires forall c :: c in s ==> '0' <= c <= '9' || c == '['
    ensures !LooksLikeCode(s)
  {
    forall i: nat, j: nat
      ensures !WordAt(s, i, j)
    {
      if WordAt(s, i, j) {
        CodeWordIsLetter(s, i, j);
      }
    }
  }

  predicate Closing(tail: string) {
    tail == "" || (|tail| == 1 && !IsWordChar(tail[0]) && tail[0] !in CODE_CHARS)
  }

  lemma WordIsWhole(word: string, tail: string, i: nat, j: nat)
    requires word != "" && (forall c :: c in word ==> IsWordChar(c)) && Closing(tail)
    requires WordAt(word + tail, i, j)
    ensures (word + tail)[i..j] == word
  {
    var s := word + tail;
    assert forall k :: 0 <= k < |word| ==> s[k] in word;
    assert i < j && s[i..j][0] == s[i];
    assert j <= |word| by {
      if j > |word| {
        WordCharInside(s, i, j, |word|);
      }
    }
  }

  /** A single word, with or without a closing mark, that is no code word. */
  lemma OtherWordIsNotCode(word: string, tail: string)
    requires word != "" && word !in CODE_WORDS && (forall c :: c in word ==> IsWordChar(c))
    requires Closing(tail)
    ensures !LooksLikeCode(word + tail)
  {
    forall i: nat, j: nat
      ensures !WordAt(word + tail, i, j)
    {
      if WordAt(word + tail, i, j) {
        WordIsWhole(word, tail, i, j);
      }
    }
    assert forall c :: c in word + tail ==> c in word || c in tail;
  }

  lemma MarkerWords()
    ensures !LooksLikeCode("sentences" + " " + "truncated]")
  {
    OtherWordIsNotCode("sentences", "");
    OtherWordIsNotCode("truncated", "]");
    assert "sentences" + "" == "sentences" && "truncated" + "]" == "truncated]";
    CodeOfJoin("sentences", "truncated]");
  }

  lemma MarkerIsNotCode(dropped: nat)
    ensures !LooksLikeCode(Marker(dropped))
  {
    var head, tail := "[" + Natural(dropped), "sentences" + " " + "truncated]";
    NaturalIsDigits(dropped);
    DigitsAreNotCode(head);
    MarkerWords();
    CodeOfJoin(head, tail);
    assert Marker(dropped) == head + " " + tail;
  }

  /* ------------------------------- excerpts ------------------------------- */

  function LengthOf(s: string): nat { |Collapse(s)| }

  /** Characters of the kept sentences, each with the blank before it. */
  function LengthOfKept(kept: seq<Sentence>): nat {
    if kept == [] then 0 else LengthOf(kept[0].text) + 1 + LengthOfKept(kept[1..])
  }

  /** Characters of the whole excerpt: the parts, the blanks between them, and the marker. */
  function WrittenLength(first: string, kept: seq<Sentence>, last: string, dropped: nat): nat {
    LengthOf(first) + LengthOfKept(kept) + 1 + LengthOf(last)
    + if dropped > 0 then |Gap(last)| + 22 + |Natural(dropped)| else 0
  }

  lemma JoinedWithOneMore(parts: seq<string>, last: string)
    requires parts != []
    ensures JoinedLength(parts + [last]) == JoinedLength(parts) + |Gap(parts[|parts| - 1])| + LengthOf(last)
  {
    assert (parts + [last])[..|parts|] == parts;
  }

  lemma {:induction false} JoinedLengthOfKept(first: string, kept: seq<Sentence>)
    requires !EndsInBlank(first) && forall x :: x in kept ==> !EndsInBlank(x.text)
    ensures var parts := [first] + Texts(kept);
      JoinedLength(parts) == LengthOf(first) + LengthOfKept(kept) && !EndsInBlank(parts[|parts| - 1])
    decreases |kept|
  {
    if kept == [] {
      assert [first] + [] == [first];
    } else {
      var init, x := kept[..|kept| - 1], kept[|kept| - 1];
      assert kept == init + [x];
      JoinedLengthOfKept(first, init);
      TextsOfOneMore(init, x);
      JoinedWithOneMore([first] + Texts(init), x.text);
      assert [first] + Texts(kept) == [first] + Texts(init) + [x.text];
    }
  }

  lemma {:induction false} TextsOfOneMore(init: seq<Sentence>, x: Sentence)
    ensures Texts(init + [x]) == Texts(init) + [x.text]
    ensures LengthOfKept(init + [x]) == LengthOfKept(init) + LengthOf(x.text) + 1
  {
    if init == [] {
      assert [] + [x] == [x];
    } else {
      TextsOfOneMore(init[1..], x);
      assert (init + [x])[1..] == init[1..] + [x];
    }
  }

  lemma JoinedLengthOfExcerpt(first: string, kept: seq<Sentence>, last: string, dropped: nat)
    requires !EndsInBlank(first) && forall x :: x in kept ==> !EndsInBlank(x.text)
    ensures var parts := [first] + Texts(kept) + [last];
      JoinedLength(if dropped > 0 then parts + [Marker(dropped)] else parts)
        == WrittenLength(first, kept, last, dropped)
  {
    JoinedLengthOfKept(first, kept);
    JoinedWithOneMore([first] + Texts(kept), last);
    if dropped > 0 {
      MarkerIsCollapsed(dropped);
      JoinedWithOneMore([first] + Texts(kept) + [last], Marker(dropped));
    }
  }

  ghost predicate Solid(text: string) { StartsSolid(text) && !EndsInBlank(text) }

  /** Sentences between two separators begin and end solid. */
  lemma MiddleIsSolid(highSignal: string -> bool, sentences: seq<string>, x: Sentence)
    requires |sentences| > 2 && WellSplit(sentences) && x in Middle(highSignal, sentences)
    ensures Solid(x.text)
  {
    var i :| 0 <= i < |sentences| - 2 && Middle(highSignal, sentences)[i] == x;
    assert Begun(sentences[i + 1]) && Ended(sentences[i + 1]);
  }

  lemma KeptIsSolid(highSignal: string -> bool, sentences: seq<string>, maxTokens: int)
    requires |sentences| > 2 && WellSplit(sentences)
    ensures forall x :: x in KeptSentences(highSignal, sentences, maxTokens) ==> Solid(x.text)
  {
    ExcerptIsBestEffort(highSignal, sentences, maxTokens);
    forall x | x in KeptSentences(highSignal, sentences, maxTokens)
      ensures Solid(x.text)
    {
      MiddleIsSolid(highSignal, sentences, x);
    }
  }

  lemma ExcerptIsJoinable(first: string, kept: seq<Sentence>, last: string)
    requires first != "" && StartsSolid(last) && forall x :: x in kept ==> Solid(x.text)
    ensures Joinable([first] + Texts(kept) + [last])
  {
    var parts := [first] + Texts(kept) + [last];
    forall k | 0 < k < |parts|
      ensures StartsSolid(parts[k])
    {
      if k <= |kept| {
        assert parts[k] == kept[k - 1].text && kept[k - 1] in kept;
      }
    }
  }

  lemma DroppedAreCounted(highSignal: string -> bool, sentences: seq<string>, maxTokens: int)
    requires |sentences| > 2
    ensures |Parts(highSignal, sentences, maxTokens)| <= |sentences|
  {
    var middle := Middle(highSignal, sentences);
    RestrictFacts(middle, Greedy(MiddleBudget(sentences, maxTokens), Prioritised(middle)));
  }

  lemma WithMarker(parts: seq<string>, dropped: nat)
    requires Joinable(parts)
    ensures var all := if dropped > 0 then parts + [Marker(dropped)] else parts;
      Joinable(all) && (SomeCode(all) <==> SomeCode(parts))
  {
    MarkerIsCollapsed(dropped);
    MarkerIsNotCode(dropped);
    SomeCodeWithOneMore(parts, Marker(dropped));
  }

  /** The estimate of a rendered excerpt, from the lengths of its parts. */
  lemma EstimateOfRendered(first: string, kept: seq<Sentence>, last: string, dropped: nat)
    requires first != "" && !EndsInBlank(first) && StartsSolid(last) && forall x :: x in kept ==> Solid(x.text)
    ensures var parts := [first] + Texts(kept) + [last];
      EstimateTokens(Rendered(parts, dropped)) == TokensOf(WrittenLength(first, kept, last, dropped), SomeCode(parts))
  {
    var parts := [first] + Texts(kept) + [last];
    ExcerptIsJoinable(first, kept, last);
    JoinedLengthOfExcerpt(first, kept, last, dropped);
    WithMarker(parts, dropped);
    var all := if dropped > 0 then parts + [Marker(dropped)] else parts;
    JoinedEnd(all);
    JoinedText(all);
  }

  /** Sentences left out of an excerpt. */
  function Dropped(highSignal: string -> bool, sentences: seq<string>, maxTokens: int): (n: nat)
    requires |sentences| > 2
  {
    DroppedAreCounted(highSignal, sentences, maxTokens);
    |sentences| - |Parts(highSignal, sentences, maxTokens)|
  }

  /** Characters of the excerpt that these sentences are truncated to. */
  function ExcerptLength(highSignal: string -> bool, sentences: seq<string>, maxTokens: int): nat
    requires |sentences| > 2
  {
    WrittenLength(sentences[0], KeptSentences(highSignal, sentences, maxTokens), sentences[|sentences| - 1],
      Dropped(highSignal, sentences, maxTokens))
  }

  /** What the estimate of an excerpt really is: its characters, the marker's and the separating
      blanks included, at 3.2 characters a token as soon as one kept part is code, 4 otherwise. */
  lemma ExcerptEstimate(highSignal: string -> bool, sentences: seq<string>, maxTokens: int)
    requires |sentences| > 2 && WellSplit(sentences)
    ensures EstimateTokens(ExcerptText(highSignal, sentences, maxTokens))
      == TokensOf(ExcerptLength(highSignal, sentences, maxTokens), SomeCode(Parts(highSignal, sentences, maxTokens)))
  {
    KeptIsSolid(highSignal, sentences, maxTokens);
    EndsAreSolid(sentences);
    EstimateOfRendered(sentences[0], KeptSentences(highSignal, sentences, maxTokens), sentences[|sentences| - 1],
      Dropped(highSignal, sentences, maxTokens));
  }

  lemma EndsAreSolid(sentences: seq<string>)
    requires |sentences| > 2 && WellSplit(sentences)
    ensures sentences[0] != "" && !EndsInBlank(sentences[0]) && StartsSolid(sentences[|sentences| - 1])
  {
    assert Ended(sentences[0]) && Begun(sentences[|sentences| - 1]);
  }

  /** Exactly when an excerpt meets its budget: when those characters fit what the budget stands
      for. The reserve of the source counts the tokens of separate parts and five for the
      marker, which does not guarantee it. */
  lemma BudgetMetIff(highSignal: string -> bool, content: string, maxTokens: int)
    requires |Sentences(content)| > 2
    ensures var sentences := Sentences(content);
      EstimateTokens(ExcerptText(highSignal, sentences, maxTokens)) <= maxTokens <==>
        ExcerptLength(highSignal, sentences, maxTokens)
          <= Capacity(maxTokens, SomeCode(Parts(highSignal, sentences, maxTokens)))
  {
    var sentences := Sentences(content);
    SentencesAreWellSplit(content);
    ExcerptEstimate(highSignal, sentences, maxTokens);
    FitsIff(ExcerptLength(highSignal, sentences, maxTokens), SomeCode(Parts(highSignal, sentences, maxTokens)),
      maxTokens);
  }

  /* ------------------------------- how far off ------------------------------- */

  ghost predicate CountedTokens(kept: seq<Sentence>) {
    forall x :: x in kept ==> x.tokens == EstimateTokens(x.text)
  }

  lemma {:induction false} KeptLengthFromCost(kept: seq<Sentence>)
    requires CountedTokens(kept)
    ensures LengthOfKept(kept) <= 4 * Cost(kept) + |kept|
  {
    if kept != [] {
      assert kept[0] in kept;
      KeptLengthFromCost(kept[1..]);
    }
  }

  /** Four characters for each token of the parts, a blank for each kept sentence, the marker. */
  lemma WrittenLengthFromTokens(first: string, kept: seq<Sentence>, last: string, dropped: nat)
    requires CountedTokens(kept)
    ensures WrittenLength(first, kept, last, dropped)
      <= 4 * (EstimateTokens(first) + Cost(kept) + EstimateTokens(last)) + |kept| + 24 + |Natural(dropped)|
  {
    KeptLengthFromCost(kept);
  }

  lemma KeptFitsReserve(highSignal: string -> bool, sentences: seq<string>, maxTokens: int)
    requires |sentences| > 2 && MiddleBudget(sentences, maxTokens) >= 0
    ensures Cost(KeptSentences(highSignal, sentences, maxTokens)) <= MiddleBudget(sentences, maxTokens)
  {
    ExcerptIsBestEffort(highSignal, sentences, maxTokens);
  }

  /** How far an excerpt can miss: if the reserved parts fit at all, it has at most four characters
      for each token left after the marker's five, one blank for each kept sentence, and the
      marker's text. At 3.2 characters a token that can be a quarter over the budget. */
  lemma OvershootIsBounded(highSignal: string -> bool, sentences: seq<string>, maxTokens: int)
    requires |sentences| > 2 && MiddleBudget(sentences, maxTokens) >= 0
    ensures ExcerptLength(highSignal, sentences, maxTokens)
      <= LengthBound(maxTokens, |KeptSentences(highSignal, sentences, maxTokens)|,
           Dropped(highSignal, sentences, maxTokens))
  {
    var kept := KeptSentences(highSignal, sentences, maxTokens);
    var first, last := sentences[0], sentences[|sentences| - 1];
    var dropped := Dropped(highSignal, sentences, maxTokens);
    KeptFitsReserve(highSignal, sentences, maxTokens);
    KeptTokensAreEstimates(highSignal, sentences, maxTokens);
    WrittenLengthFromTokens(first, kept, last, dropped);
  }

  /** That bound. */
  function LengthBound(maxTokens: int, kept: nat, dropped: nat): int {
    4 * (maxTokens - MARKER_TOKENS) + (kept + 24 + |Natural(dropped)|)
  }

  /** The same in tokens of the returned text. */
  lemma EstimateIsBounded(highSignal: string -> bool, sentences: seq<string>, maxTokens: int)
    requires |sentences| > 2 && WellSplit(sentences) && MiddleBudget(sentences, maxTokens) >= 0
    ensures var bound := LengthBound(maxTokens, |KeptSentences(highSignal, sentences, maxTokens)|,
                           Dropped(highSignal, sentences, maxTokens));
      bound >= 0 && EstimateTokens(ExcerptText(highSignal, sentences, maxTokens))
        <= TokensOf(bound, SomeCode(Parts(highSignal, sentences, maxTokens)))
  {
    OvershootIsBounded(highSignal, sentences, maxTokens);
    ExcerptEstimate(highSignal, sentences, maxTokens);
    var bound := LengthBound(maxTokens, |KeptSentences(highSignal, sentences, maxTokens)|,
                   Dropped(highSignal, sentences, maxTokens));
    var length := ExcerptLength(highSignal, sentences, maxTokens);
    assert length <= bound;
    MoreCharactersMoreTokens(length, bound, SomeCode(Parts(highSignal, sentences, maxTokens)));
  }

  lemma {:induction false} LargerIsLonger(a: nat, b: nat)
    requires a <= b
    ensures |Natural(a)| <= |Natural(b)|
  {
    if a >= 10 {
      LargerIsLonger(a / 10, b / 10);
    }
  }

  ghost predicate NoCode(sentences: seq<string>) {
    forall x :: x in sentences ==> !LooksLikeCode(Collapse(x))
  }

  lemma PartsAreNoCode(highSignal: string -> bool, sentences: seq<string>, maxTokens: int)
    requires |sentences| > 2 && NoCode(sentences)
    ensures !SomeCode(Parts(highSignal, sentences, maxTokens))
  {
    KeptAreNoCode(highSignal, sentences, maxTokens);
  }

  /** Tokens for a blank before each of the inner sentences, and for what the marker takes beyond
      the five reserved. */
  function ProseExcess(inner: nat): nat { CeilDiv(inner + 4 + |Natural(inner)|, 4) }

  lemma KeptAndDropped(highSignal: string -> bool, sentences: seq<string>, maxTokens: int)
    requires |sentences| > 2
    ensures |KeptSentences(highSignal, sentences, maxTokens)| + Dropped(highSignal, sentences, maxTokens)
      == |sentences| - 2
  {
  }

  /** For prose, a bound on the overshoot that can be read off the number of sentences. */
  lemma ProseOvershootIsBounded(highSignal: string -> bool, sentences: seq<string>, maxTokens: int)
    requires |sentences| > 2 && WellSplit(sentences) && NoCode(sentences) && MiddleBudget(sentences, maxTokens) >= 0
    ensures EstimateTokens(ExcerptText(highSignal, sentences, maxTokens))
      <= maxTokens + ProseExcess(|sentences| - 2)
  {
    var kept, dropped := |KeptSentences(highSignal, sentences, maxTokens)|, Dropped(highSignal, sentences, maxTokens);
    KeptAndDropped(highSignal, sentences, maxTokens);
    EstimateIsBounded(highSignal, sentences, maxTokens);
    PartsAreNoCode(highSignal, sentences, maxTokens);
    ProseBound(maxTokens, kept, dropped);
  }

  lemma ProseBound(maxTokens: int, kept: nat, dropped: nat)
    requires LengthBound(maxTokens, kept, dropped) >= 0
    ensures TokensOf(LengthBound(maxTokens, kept, dropped), false)
      <= maxTokens + ProseExcess(kept + dropped)
  {
    LargerIsLonger(dropped, kept + dropped);
  }

  /* ------------------------------- conditions on the input ------------------------------- */

  /** Characters that a text's tokens leave over. */
  function Spare(x: string): int { 4 * EstimateTokens(x) - LengthOf(x) }

  /** Texts that fill their last token, so that the blank before them starts another. */
  function Brimming(parts: seq<string>): nat {
    if parts == [] then 0 else (if LengthOf(parts[0]) % 4 == 0 then 1 else 0) + Brimming(parts[1..])
  }

  lemma {:induction false} KeptLengthFromBrimming(kept: seq<Sentence>)
    requires CountedTokens(kept) && forall x :: x in kept ==> !LooksLikeCode(Collapse(x.text))
    ensures LengthOfKept(kept) <= 4 * Cost(kept) + Brimming(Texts(kept))
  {
    if kept != [] {
      assert kept[0] in kept;
      KeptLengthFromBrimming(kept[1..]);
      assert Texts(kept)[0] == kept[0].text && Texts(kept)[1..] == Texts(kept[1..]);
    }
  }

  lemma {:induction false} FewerBrim(s: seq<Sentence>, chosen: seq<Sentence>)
    ensures Brimming(Texts(Restrict(s, chosen))) <= Brimming(Texts(s))
  {
    if s != [] {
      FewerBrim(s[1..], chosen);
      assert Texts(s)[0] == s[0].text && Texts(s)[1..] == Texts(s[1..]);
      var rest := Restrict(s[1..], chosen);
      assert ([s[0]] + rest)[1..] == rest;
      assert Texts([s[0]] + rest) == [s[0].text] + Texts(rest);
      assert ([s[0].text] + Texts(rest))[1..] == Texts(rest);
    }
  }

  /** First and last sentence leave enough characters over for the marker, and for the blanks
      before sentences that fill their last token. */
  predicate RoomForMarker(sentences: seq<string>)
    requires |sentences| > 2
  {
    Spare(sentences[0]) + Spare(sentences[|sentences| - 1])
      >= 4 + |Natural(|sentences| - 2)| + Brimming(sentences[1..|sentences| - 1])
  }

  lemma KeptBrimming(highSignal: string -> bool, sentences: seq<string>, maxTokens: int)
    requires |sentences| > 2
    ensures Brimming(Texts(KeptSentences(highSignal, sentences, maxTokens))) <= Brimming(sentences[1..|sentences| - 1])
  {
    var middle := Middle(highSignal, sentences);
    FewerBrim(middle, Greedy(MiddleBudget(sentences, maxTokens), Prioritised(middle)));
    TextsOfMiddle(highSignal, sentences);
  }

  /** A condition on the input alone: prose with a reserve and that much room meets its budget. */
  lemma RoomMeetsBudget(highSignal: string -> bool, sentences: seq<string>, maxTokens: int)
    requires |sentences| > 2 && WellSplit(sentences) && NoCode(sentences)
    requires MiddleBudget(sentences, maxTokens) >= 0 && RoomForMarker(sentences)
    ensures EstimateTokens(ExcerptText(highSignal, sentences, maxTokens)) <= maxTokens
  {
    var kept := KeptSentences(highSignal, sentences, maxTokens);
    var first, last := sentences[0], sentences[|sentences| - 1];
    var dropped := Dropped(highSignal, sentences, maxTokens);
    KeptFitsReserve(highSignal, sentences, maxTokens);
    KeptTokensAreEstimates(highSignal, sentences, maxTokens);
    KeptAreNoCode(highSignal, sentences, maxTokens);
    KeptLengthFromBrimming(kept);
    KeptBrimming(highSignal, sentences, maxTokens);
    LargerIsLonger(dropped, |sentences| - 2);
    PartsAreNoCode(highSignal, sentences, maxTokens);
    ExcerptEstimate(highSignal, sentences, maxTokens);
    assert WrittenLength(first, kept, last, dropped) <= 4 * maxTokens;
    FitsIff(WrittenLength(first, kept, last, dropped), false, maxTokens);
  }

  lemma KeptAreNoCode(highSignal: string -> bool, sentences: seq<string>, maxTokens: int)
    requires |sentences| > 2 && NoCode(sentences)
    ensures forall x :: x in KeptSentences(highSignal, sentences, maxTokens) ==> !LooksLikeCode(Collapse(x.text))
  {
    ExcerptIsBestEffort(highSignal, sentences, maxTokens);
  }

  /** A token stands for more characters than one token less can. */
  lemma LengthAboveTokens(s: string)
    requires s != ""
    ensures 5 * LengthOf(s) >= 16 * EstimateTokens(s) - 15
    ensures !LooksLikeCode(Collapse(s)) ==> LengthOf(s) >= 4 * EstimateTokens(s) - 3
  {
  }

  /** If no inner sentence fits the reserve, the budget is met exactly if first, last and marker
      fit it by their real length. */
  lemma NothingFitsMetIff(highSignal: string -> bool, sentences: seq<string>, maxTokens: int)
    requires |sentences| > 2 && WellSplit(sentences)
    requires forall k :: 0 < k < |sentences| - 1 ==> EstimateTokens(sentences[k]) > MiddleBudget(sentences, maxTokens)
    ensures var first, last := sentences[0], sentences[|sentences| - 1];
      EstimateTokens(ExcerptText(highSignal, sentences, maxTokens)) <= maxTokens <==>
        WrittenLength(first, [], last, |sentences| - 2) <= Capacity(maxTokens, SomeCode([first, last]))
  {
    NothingIsKept(highSignal, sentences, maxTokens);
    ExcerptEstimate(highSignal, sentences, maxTokens);
    var first, last := sentences[0], sentences[|sentences| - 1];
    FitsIff(WrittenLength(first, [], last, |sentences| - 2), SomeCode([first, last]), maxTokens);
  }

  /** If all of them fit, exactly if all sentences do by their real length, without a marker. */
  lemma EverythingFitsMetIff(highSignal: string -> bool, sentences: seq<string>, maxTokens: int)
    requires |sentences| > 2 && WellSplit(sentences)
    requires Cost(Middle(highSignal, sentences)) <= MiddleBudget(sentences, maxTokens)
    ensures var first, last := sentences[0], sentences[|sentences| - 1];
      EstimateTokens(ExcerptText(highSignal, sentences, maxTokens)) <= maxTokens <==>
        WrittenLength(first, Middle(highSignal, sentences), last, 0) <= Capacity(maxTokens, SomeCode(sentences))
  {
    EverythingIsKept(highSignal, sentences, maxTokens);
    ExcerptEstimate(highSignal, sentences, maxTokens);
    var first, last := sentences[0], sentences[|sentences| - 1];
    FitsIff(WrittenLength(first, Middle(highSignal, sentences), last, 0), SomeCode(sentences), maxTokens);
  }

  lemma EverythingIsKept(highSignal: string -> bool, sentences: seq<string>, maxTokens: int)
    requires |sentences| > 2 && Cost(Middle(highSignal, sentences)) <= MiddleBudget(sentences, maxTokens)
    ensures KeptSentences(highSignal, sentences, maxTokens) == Middle(highSignal, sentences)
    ensures Parts(highSignal, sentences, maxTokens) == sentences && Dropped(highSignal, sentences, maxTokens) == 0
  {
    AllAreKept(MiddleBudget(sentences, maxTokens), Middle(highSignal, sentences));
    TextsOfMiddle(highSignal, sentences);
    EndsAndInner(sentences);
  }

  lemma EndsAndInner(sentences: seq<string>)
    requires |sentences| > 2
    ensures [sentences[0]] + sentences[1..|sentences| - 1] + [sentences[|sentences| - 1]] == sentences
  {
  }

  lemma TextsOfMiddle(highSignal: string -> bool, sentences: seq<string>)
    requires |sentences| > 2
    ensures Texts(Middle(highSignal, sentences)) == sentences[1..|sentences| - 1]
  {
  }

  lemma AllAreKept(budget: int, middle: seq<Sentence>)
    requires Cost(middle) <= budget
    ensures KeptMiddle(budget, middle) == middle
  {
    CostOfPrioritised(middle);
    AllOfThem(budget, Prioritised(middle));
    PrioritisedHasSameMembers(middle);
    RestrictToAll(middle, Prioritised(middle));
  }

  lemma CostOfPrioritised(middle: seq<Sentence>)
    ensures Cost(Prioritised(middle)) == Cost(middle)
  {
    PrioritisedIsPermutation(middle);
    CostIsBag(Prioritised(middle), middle);
  }

  lemma {:induction false} AllOfThem(budget: int, s: seq<Sentence>)
    requires Cost(s) <= budget
    ensures Greedy(budget, s) == s
  {
    if s != [] {
      AllOfThem(budget - s[0].tokens, s[1..]);
    }
  }

  lemma {:induction false} RestrictToAll(s: seq<Sentence>, chosen: seq<Sentence>)
    requires forall x :: x in s ==> x in chosen
    ensures Restrict(s, chosen) == s
  {
    if s != [] {
      RestrictToAll(s[1..], chosen);
    }
  }

  /** And without a reserve, never: if first, last and five tokens do not fit, neither do first,
      last and the marker, code or not. */
  lemma NoReserveMissesBudget(highSignal: string -> bool, sentences: seq<string>, maxTokens: int)
    requires |sentences| > 2 && WellSplit(sentences) && MiddleBudget(sentences, maxTokens) < 0
    ensures EstimateTokens(ExcerptText(highSignal, sentences, maxTokens)) > maxTokens
  {
    var first, last := sentences[0], sentences[|sentences| - 1];
    NothingIsKept(highSignal, sentences, maxTokens);
    ExcerptEstimate(highSignal, sentences, maxTokens);
    assert first != "" && last != "";
    LengthAboveTokens(first);
    LengthAboveTokens(last);
    var code := SomeCode([first, last]);
    assert [first, last][0] == first && [first, last][1] == last;
    var written := WrittenLength(first, [], last, |sentences| - 2);
    assert written >= LengthOf(first) + LengthOf(last) + 24;
    TooLong(LengthOf(first), LengthOf(last), EstimateTokens(first), EstimateTokens(last), code, maxTokens, written);
    FitsIff(written, code, maxTokens);
  }

  lemma NothingIsKept(highSignal: string -> bool, sentences: seq<string>, maxTokens: int)
    requires |sentences| > 2
    requires forall k :: 0 < k < |sentences| - 1 ==> EstimateTokens(sentences[k]) > MiddleBudget(sentences, maxTokens)
    ensures KeptSentences(highSignal, sentences, maxTokens) == []
      && Dropped(highSignal, sentences, maxTokens) == |sentences| - 2
    ensures Parts(highSignal, sentences, maxTokens) == [sentences[0], sentences[|sentences| - 1]]
  {
    AllAreTooLarge(MiddleBudget(sentences, maxTokens), Middle(highSignal, sentences));
    assert [sentences[0]] + [] + [sentences[|sentences| - 1]] == [sentences[0], sentences[|sentences| - 1]];
  }

  lemma AllAreTooLarge(budget: int, middle: seq<Sentence>)
    requires forall x :: x in middle ==> x.tokens > budget
    ensures KeptMiddle(budget, middle) == []
  {
    PrioritisedHasSameMembers(middle);
    NoneOfThem(budget, Prioritised(middle));
    RestrictToNone(middle);
  }

  lemma {:induction false} NoneOfThem(budget: int, s: seq<Sentence>)
    requires forall x :: x in s ==> x.tokens > budget
    ensures Greedy(budget, s) == []
  {
    if s != [] {
      NoneOfThem(budget, s[1..]);
    }
  }

  lemma {:induction false} RestrictToNone(s: seq<Sentence>)
    ensures Restrict(s, []) == []
  {
    if s != [] {
      RestrictToNone(s[1..]);
    }
  }

  lemma TooLong(a: nat, b: nat, s: nat, t: nat, code: bool, maxTokens: int, written: nat)
    requires 5 * a >= 16 * s - 15 && 5 * b >= 16 * t - 15
    requires !code ==> a >= 4 * s - 3 && b >= 4 * t - 3
    requires maxTokens <= s + t + 4 && written >= a + b + 24
    ensures written > Capacity(maxTokens, code)
  {
  }

  lemma KeptTokensAreEstimates(highSignal: string -> bool, sentences: seq<string>, maxTokens: int)
    requires |sentences| > 2
    ensures CountedTokens(KeptSentences(highSignal, sentences, maxTokens))
  {
    ExcerptIsBestEffort(highSignal, sentences, maxTokens);
    forall x | x in KeptSentences(highSignal, sentences, maxTokens)
      ensures x.tokens == EstimateTokens(x.text)
    {
      var middle := Middle(highSignal, sentences);
      var i :| 0 <= i < |middle| && middle[i] == x;
    }
  }

  /* ------------------------------- hard cuts ------------------------------- */

  const ELLIPSIS := "\U{2026}"

  lemma CollapseOfCut(cut: string)
    ensures Collapse(cut + ELLIPSIS) == Collapse(cut) + ELLIPSIS
    ensures LooksLikeCode(Collapse(cut) + ELLIPSIS) <==> LooksLikeCode(Collapse(cut))
  {
    assert (cut + ELLIPSIS)[..|cut|] == cut;
    assert (CollapseBlanks(cut) + ELLIPSIS)[..|CollapseBlanks(cut)|] == CollapseBlanks(cut);
    CodeBeforeEllipsis(Collapse(cut));
  }

  lemma CodeBeforeEllipsis(x: string)
    ensures LooksLikeCode(x + ELLIPSIS) <==> LooksLikeCode(x)
  {
    forall i: nat, j: nat
      ensures WordAt(x + ELLIPSIS, i, j) <==> WordAt(x, i, j)
    {
      WordBeforeEllipsis(x, i, j);
    }
    assert forall c :: c in x + ELLIPSIS <==> c in x || c == '\U{2026}';
  }

  lemma WordBeforeEllipsis(x: string, i: nat, j: nat)
    ensures WordAt(x + ELLIPSIS, i, j) <==> WordAt(x, i, j)
  {
    var s := x + ELLIPSIS;
    if WordAt(s, i, j) {
      assert j <= |x| by {
        if j > |x| {
          CodeWordIsLetter(s, i, j);
          WordCharInside(s, i, j, |x|);
        }
      }
    }
    if i <= j <= |x| {
      assert s[i..j] == x[i..j];
    }
  }

  /** Exactly when a text that is cut off by characters meets its budget. */
  lemma HardCutMeetsBudgetIff(content: string, maxTokens: int)
    ensures var cut := CutPrefix(content, maxTokens);
      EstimateTokens(cut + ELLIPSIS) <= maxTokens <==>
        LengthOf(cut) + 1 <= Capacity(maxTokens, LooksLikeCode(Collapse(cut)))
  {
    var cut := CutPrefix(content, maxTokens);
    CollapseOfCut(cut);
    FitsIff(LengthOf(cut) + 1, LooksLikeCode(Collapse(cut)), maxTokens);
  }

  /** Text that does not look like code always does. */
  lemma HardCutOfProseFits(content: string, maxTokens: int)
    requires maxTokens >= 1 && !LooksLikeCode(Collapse(CutPrefix(content, maxTokens)))
    ensures EstimateTokens(CutPrefix(content, maxTokens) + ELLIPSIS) <= maxTokens
  {
    var cut := CutPrefix(content, maxTokens);
    CollapseShortens(cut);
    CollapseShortens(CollapseBlanks(cut));
    HardCutMeetsBudgetIff(content, maxTokens);
  }

  lemma {:induction false} ScanToSeparator(s: string, start: nat, i: nat, to: nat)
    requires start <= i <= to <= |s| && forall k :: i <= k < to ==> !SeparatorAt(s, k)
    ensures SplitFrom(s, start, i) == SplitFrom(s, start, to)
    decreases |s| - i
  {
    if i < to {
      ScanToSeparator(s, start, i + 1, to);
    }
  }

  lemma OneSentence(content: string)
    requires forall k :: 0 <= k < |content| ==> !IsSpace(content[k])
    ensures |Sentences(content)| <= 1
  {
    assert content[0..] == content;
    ScanToSeparator(content, 0, 0, |content|);
    assert SplitFrom(content, 0, 0) == [content] && [content][1..] == [];
    assert NonEmpty([content]) == if content == "" then [] else [content];
  }

  /** Code without runs of blanks never does, once it is long enough to be cut. */
  lemma HardCutOfCodeMisses(content: string, maxTokens: int)
    requires maxTokens >= 1 && 2 * |content| >= 7 * maxTokens
    requires Tight(CutPrefix(content, maxTokens)) && LooksLikeCode(CutPrefix(content, maxTokens))
    ensures EstimateTokens(CutPrefix(content, maxTokens) + ELLIPSIS) > maxTokens
  {
    var cut := CutPrefix(content, maxTokens);
    CutIsFull(content, maxTokens);
    TightIsCollapsed(cut);
    HardCutMeetsBudgetIff(content, maxTokens);
    CodeCapacity(maxTokens, |cut|);
  }

  lemma CutIsFull(content: string, maxTokens: int)
    requires maxTokens >= 1 && 2 * |content| >= 7 * maxTokens
    ensures 2 * |CutPrefix(content, maxTokens)| >= 7 * maxTokens - 1
  {
    var n := (maxTokens as real * 3.5).Floor;
    assert 7 * maxTokens - 1 <= 2 * n <= 7 * maxTokens;
  }

  lemma CodeCapacity(maxTokens: int, length: nat)
    requires maxTokens >= 1 && 2 * length >= 7 * maxTokens - 1
    ensures length + 1 > Capacity(maxTokens, true)
  {
  }

  /** Eight braces, say, which have no sentence marks either: three tokens, and cut to two of them
      still three. */
  lemma BracesAreCutTooLong(content: string)
    requires |content| == 8 && forall c :: c in content ==> c == '{'
    ensures EstimateTokens(content) == 3 && |Sentences(content)| <= 2
    ensures EstimateTokens(CutPrefix(content, 2) + ELLIPSIS) > 2
  {
    assert forall k :: 0 <= k < 8 ==> content[k] in content;
    assert CutPrefix(content, 2) == content[..7];
    OneSentence(content);
    BracesAreCode(content);
    BracesAreCode(content[..7]);
    HardCutOfCodeMisses(content, 2);
  }

  lemma BracesAreCode(s: string)
    requires s != "" && forall k :: 0 <= k < |s| ==> s[k] == '{'
    ensures Tight(s) && Collapse(s) == s && LooksLikeCode(s)
  {
    TightIsCollapsed(s);
    assert s[0] in s && '{' in CODE_CHARS;
  }

  /* ------------------------------- inputs that miss ------------------------------- */

  ghost predicate OneWord(x: string) { Ended(x) && forall k :: 0 <= k < |x| ==> !IsSpace(x[k]) }

  lemma OnlySeparator(s: string, start: nat, word: string, next: nat)
    requires OneWord(word) && next == start + |word| + 1 && next < |s|
    requires s[start..next - 1] == word && s[next - 1] == ' '
    ensures SeparatorAt(s, next - 1) && forall k :: start <= k < next - 1 ==> !SeparatorAt(s, k)
  {
    forall k | start <= k < next - 1
      ensures !IsSpace(s[k])
    {
      assert s[k] == word[k - start];
    }
    assert s[next - 2] == word[|word| - 1];
  }

  lemma WordThenRest(s: string, start: nat, word: string, next: nat)
    requires OneWord(word) && next == start + |word| + 1 && next < |s|
    requires s[start..next - 1] == word && s[next - 1] == ' ' && !IsSpace(s[next])
    ensures SplitFrom(s, start, start) == [word] + SplitFrom(s, next, next)
  {
    OnlySeparator(s, start, word, next);
    ScanToSeparator(s, start, start, next - 1);
    assert SkipSpace(s, next) == next && SkipSpace(s, next - 1) == next;
  }

  lemma WordAtTheEnd(s: string, start: nat)
    requires start < |s| && OneWord(s[start..])
    ensures SplitFrom(s, start, start) == [s[start..]]
  {
    assert forall k :: start <= k < |s| ==> s[k] == s[start..][k - start];
    ScanToSeparator(s, start, start, |s|);
  }

  /** Three words with one blank between them. */
  lemma ThreeSentences(a: string, b: string, c: string)
    requires OneWord(a) && OneWord(b) && OneWord(c)
    ensures Sentences(a + " " + b + " " + c) == [a, b, c]
  {
    var s := a + " " + b + " " + c;
    var i, j := |a| + 1, |a| + |b| + 2;
    assert s[0..i - 1] == a && s[i..j - 1] == b && s[j..] == c;
    assert s[i - 1] == ' ' && s[j - 1] == ' ' && s[i] == b[0] && s[j] == c[0];
    WordThenRest(s, 0, a, i);
    WordThenRest(s, i, b, j);
    WordAtTheEnd(s, j);
    assert SplitFrom(s, 0, 0) == [a] + ([b] + [c]) == [a, b, c];
    NoneIsEmpty(a, b, c);
  }

  lemma NoneIsEmpty(a: string, b: string, c: string)
    requires a != "" && b != "" && c != ""
    ensures NonEmpty([a, b, c]) == [a, b, c]
  {
    assert [c][1..] == [] && [b, c][1..] == [c] && [a, b, c][1..] == [b, c];
    assert NonEmpty([c]) == [c] && NonEmpty([b, c]) == [b] + [c];
  }

  /** A word with a full stop is estimated at a quarter of its length. */
  lemma WordEstimate(word: string, tokens: nat)
    requires word != "" && word !in CODE_WORDS && (forall c :: c in word ==> IsWordChar(c))
    requires tokens == CeilDiv(|word| + 1, 4)
    ensures EstimateTokens(word + ".") == tokens && Solid(word + ".") && LengthOf(word + ".") == |word| + 1
    ensures !LooksLikeCode(Collapse(word + "."))
  {
    OtherWordIsNotCode(word, ".");
    assert forall k :: 0 <= k < |word| ==> (word + ".")[k] in word;
    TightIsCollapsed(word + ".");
  }

  lemma NothingFits(x: Sentence)
    requires x.tokens > 0
    ensures KeptMiddle(0, [x]) == []
  {
    assert [x][1..] == [];
    assert Prioritised([x]) == [x] by {
      assert OfSignal([], x.high) == [] && OfSignal([], !x.high) == [];
      assert OfSignal([x], x.high) == [x] && OfSignal([x], !x.high) == [];
    }
    assert Greedy(0, [x]) == [];
    assert Restrict([x], []) == [];
  }

  /** Twenty-one times the letter a, say: six tokens with its full stop, and no code. */
  ghost predicate LongWord(word: string) {
    |word| == 21 && forall c :: c in word ==> c == 'a'
  }

  lemma ShortWordEstimates()
    ensures EstimateTokens("Hi.") == 1 && Solid("Hi.") && LengthOf("Hi.") == 3 && !LooksLikeCode(Collapse("Hi."))
    ensures EstimateTokens("Ok.") == 1 && Solid("Ok.") && LengthOf("Ok.") == 3 && !LooksLikeCode(Collapse("Ok."))
  {
    assert "Hi" + "." == "Hi." && "Ok" + "." == "Ok.";
    WordEstimate("Hi", 1);
    WordEstimate("Ok", 1);
  }

  lemma LongWordEstimate(word: string)
    requires LongWord(word)
    ensures EstimateTokens(word + ".") == 6 && Solid(word + ".") && LengthOf(word + ".") == 22
    ensures !LooksLikeCode(Collapse(word + "."))
  {
    WordEstimate(word, 6);
  }

  lemma NoCodeAmong(a: string, b: string, c: string)
    requires !LooksLikeCode(Collapse(a)) && !LooksLikeCode(Collapse(b)) && !LooksLikeCode(Collapse(c))
    ensures !SomeCode([a, b, c]) && !SomeCode([a, c])
  {
  }

  lemma DroppedMiddle(highSignal: string -> bool, word: string)
    requires LongWord(word)
    ensures Parts(highSignal, ["Hi.", word + ".", "Ok."], 7) == ["Hi.", "Ok."]
  {
    var sentences := ["Hi.", word + ".", "Ok."];
    ShortWordEstimates();
    LongWordEstimate(word);
    var middle := Middle(highSignal, sentences);
    assert middle == [middle[0]] && middle[0].tokens == 6;
    assert MiddleBudget(sentences, 7) == 0;
    NothingFits(middle[0]);
    assert Texts([]) == [];
  }

  lemma ShortLength()
    ensures WrittenLength("Hi.", [], "Ok.", 1) == 31
  {
    ShortWordEstimates();
    assert Natural(1) == "1";
  }

  lemma MarkerTakesSixTokens()
    ensures EstimateTokens(Rendered(["Hi.", "Ok."], 1)) == 8
  {
    ShortWordEstimates();
    NoCodeAmong("Hi.", "Hi.", "Ok.");
    assert ["Hi."] + Texts([]) + ["Ok."] == ["Hi.", "Ok."];
    EstimateOfRendered("Hi.", [], "Ok.", 1);
    ShortLength();
  }

  /** Three sentences joined by blanks, without a marker. */
  lemma EstimateOfThree(a: string, b: string, c: string)
    requires Solid(a) && Solid(b) && Solid(c)
    requires !LooksLikeCode(Collapse(a)) && !LooksLikeCode(Collapse(b)) && !LooksLikeCode(Collapse(c))
    ensures EstimateTokens(a + " " + b + " " + c) == TokensOf(LengthOf(a) + LengthOf(b) + LengthOf(c) + 2, false)
  {
    var parts := [a, b, c];
    assert parts[..2] == [a, b] && [a, b][..1] == [a];
    assert JoinWithBlanks([a, b]) == a + " " + b && JoinWithBlanks(parts) == a + " " + b + " " + c;
    assert JoinedLength([a]) == LengthOf(a) && JoinedLength([a, b]) == LengthOf(a) + 1 + LengthOf(b);
    NoCodeAmong(a, b, c);
    JoinedEnd(parts);
    JoinedText(parts);
  }

  /** First, last and the marker's five tokens fit exactly; the middle is dropped; yet the marker
      that replaces it takes more, and the result is estimated higher than the budget. */
  lemma MarkerOverrunsBudget(highSignal: string -> bool, word: string)
    requires LongWord(word)
    ensures var content, sentences := "Hi." + " " + (word + ".") + " " + "Ok.", ["Hi.", word + ".", "Ok."];
      && Sentences(content) == sentences && EstimateTokens(content) == 8
      && EstimateTokens("Hi.") + EstimateTokens("Ok.") + MARKER_TOKENS == 7
      && Parts(highSignal, sentences, 7) == ["Hi.", "Ok."]
      && EstimateTokens(ExcerptText(highSignal, sentences, 7)) == 8
  {
    assert forall k :: 0 <= k < 21 ==> (word + ".")[k] in word;
    ThreeSentences("Hi.", word + ".", "Ok.");
    ShortWordEstimates();
    LongWordEstimate(word);
    EstimateOfThree("Hi.", word + ".", "Ok.");
    DroppedMiddle(highSignal, word);
    MarkerTakesSixTokens();
  }
}
