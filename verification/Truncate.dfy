/** Budgeted truncation of a text to its most informative sentences
    (packages/shared/src/similarity.ts). */
module Truncate {
  import opened Basics
  import opened SentenceSplit
  import opened TokenEstimates

  const MARKER_TOKENS := 5

  datatype Sentence = Sentence(text: string, idx: nat, high: bool, tokens: nat)

  /* ------------------------------- list functions ------------------------------- */

  /** The members of `chosen`, in the order of `s`. */
  function Restrict(s: seq<Sentence>, chosen: seq<Sentence>): seq<Sentence> {
    if s == [] then []
    else if s[0] in chosen then [s[0]] + Restrict(s[1..], chosen)
    else Restrict(s[1..], chosen)
  }

  /** The sentences of one signal class. */
  function OfSignal(s: seq<Sentence>, high: bool): seq<Sentence> {
    if s == [] then []
    else if s[0].high == high then [s[0]] + OfSignal(s[1..], high)
    else OfSignal(s[1..], high)
  }

  function Texts(s: seq<Sentence>): (r: seq<string>)
    ensures |r| == |s| && forall i :: 0 <= i < |s| ==> r[i] == s[i].text
  {
    if s == [] then [] else [s[0].text] + Texts(s[1..])
  }

  function Cost(s: seq<Sentence>): nat {
    if s == [] then 0 else s[0].tokens + Cost(s[1..])
  }

  lemma {:induction false} CostAppend(a: seq<Sentence>, b: seq<Sentence>)
    ensures Cost(a + b) == Cost(a) + Cost(b)
  {
    if a == [] {
      assert a + b == b;
    } else {
      CostAppend(a[1..], b);
      assert (a + b)[1..] == a[1..] + b;
    }
  }

  /** Strictly ascending original positions. */
  ghost predicate InOrder(s: seq<Sentence>) {
    s == [] || ((forall y :: y in s[1..] ==> s[0].idx < y.idx) && InOrder(s[1..]))
  }

  lemma {:induction false} OfSignalFacts(s: seq<Sentence>, high: bool)
    ensures forall x :: x in OfSignal(s, high) <==> x in s && x.high == high
    ensures InOrder(s) ==> InOrder(OfSignal(s, high))
  {
    if s != [] {
      OfSignalFacts(s[1..], high);
      assert s == [s[0]] + s[1..];
      assert ([s[0]] + OfSignal(s[1..], high))[1..] == OfSignal(s[1..], high);
    }
  }

  lemma {:induction false} RestrictFacts(s: seq<Sentence>, chosen: seq<Sentence>)
    ensures forall x :: x in Restrict(s, chosen) <==> x in s && x in chosen
    ensures InOrder(s) ==> InOrder(Restrict(s, chosen))
    ensures |Restrict(s, chosen)| <= |s|
  {
    if s != [] {
      RestrictFacts(s[1..], chosen);
      assert s == [s[0]] + s[1..];
      assert ([s[0]] + Restrict(s[1..], chosen))[1..] == Restrict(s[1..], chosen);
    }
  }

  /* ------------------------------- the two sorts ------------------------------- */

  /** The comparator of the source: high signal first, then original position. */
  predicate Before(a: Sentence, b: Sentence) {
    if a.high != b.high then a.high else a.idx < b.idx
  }

  /** What sorting by that comparator gives when the sentences start in order. */
  function Prioritised(middle: seq<Sentence>): seq<Sentence> {
    OfSignal(middle, true) + OfSignal(middle, false)
  }

  lemma {:induction false} PrioritisedIsPermutation(middle: seq<Sentence>)
    ensures multiset(OfSignal(middle, true)) + multiset(OfSignal(middle, false)) == multiset(middle)
  {
    if middle != [] {
      PrioritisedIsPermutation(middle[1..]);
      assert middle == [middle[0]] + middle[1..];
    }
  }

  ghost predicate Sorted(p: seq<Sentence>) {
    p == [] || ((forall y :: y in p[1..] ==> Before(p[0], y)) && Sorted(p[1..]))
  }

  lemma PrioritisedIsTheSort(middle: seq<Sentence>)
    requires InOrder(middle)
    ensures multiset(Prioritised(middle)) == multiset(middle) && Sorted(Prioritised(middle))
  {
    PrioritisedIsPermutation(middle);
    OfSignalFacts(middle, true);
    OfSignalFacts(middle, false);
    SortedAppend(OfSignal(middle, true), OfSignal(middle, false));
  }

  lemma FirstIsFirst(p: seq<Sentence>, x: Sentence)
    requires Sorted(p) && x in p
    ensures x == p[0] || Before(p[0], x)
  {
    assert p == [p[0]] + p[1..];
  }

  lemma SameFirst(p: seq<Sentence>, q: seq<Sentence>)
    requires Sorted(p) && Sorted(q) && p != [] && q != [] && p[0] in q && q[0] in p
    ensures p[0] == q[0]
  {
    FirstIsFirst(p, q[0]);
    FirstIsFirst(q, p[0]);
  }

  lemma {:induction false} SortedByMembers(p: seq<Sentence>, q: seq<Sentence>)
    requires Sorted(p) && Sorted(q) && forall x :: x in p <==> x in q
    ensures p == q
  {
    HasMember(p);
    HasMember(q);
    if p != [] && q != [] {
      SameFirst(p, q);
      TailMembers(p);
      TailMembers(q);
      SortedByMembers(p[1..], q[1..]);
      assert p == [p[0]] + p[1..] && q == [q[0]] + q[1..];
    }
  }

  lemma HasMember(p: seq<Sentence>)
    ensures p != [] ==> p[0] in p
  {
  }

  lemma TailMembers(p: seq<Sentence>)
    requires Sorted(p) && p != []
    ensures forall x :: x in p[1..] <==> x in p && x != p[0]
  {
    assert p == [p[0]] + p[1..];
  }

  /** There is no other way to sort them. */
  lemma SortedIsUnique(p: seq<Sentence>, q: seq<Sentence>)
    requires Sorted(p) && Sorted(q) && multiset(p) == multiset(q)
    ensures p == q
  {
    forall x
      ensures x in p <==> x in q
    {
      assert x in p <==> x in multiset(p);
    }
    SortedByMembers(p, q);
  }

  lemma {:induction false} SortedAppend(h: seq<Sentence>, l: seq<Sentence>)
    requires InOrder(h) && forall x :: x in h ==> x.high
    requires InOrder(l) && forall x :: x in l ==> !x.high
    ensures Sorted(h + l)
  {
    if h != [] {
      SortedAppend(h[1..], l);
      assert (h + l)[1..] == h[1..] + l;
      assert forall x :: x in h[1..] ==> x in h;
    } else if l != [] {
      assert forall x :: x in l[1..] ==> x in l;
      SortedAppend(h, l[1..]);
      assert h + l == l && h + l[1..] == l[1..];
    }
  }

  lemma PrioritisedHasSameMembers(middle: seq<Sentence>)
    ensures forall x :: x in Prioritised(middle) <==> x in middle
  {
    OfSignalFacts(middle, true);
    OfSignalFacts(middle, false);
  }

  /* ------------------------------- the greedy pass ------------------------------- */

  /** Takes every sentence that still fits. */
  function Greedy(budget: int, s: seq<Sentence>): seq<Sentence> {
    if s == [] then []
    else if budget < s[0].tokens then Greedy(budget, s[1..])
    else [s[0]] + Greedy(budget - s[0].tokens, s[1..])
  }

  /** What is kept fits (or is nothing), and nothing that was left out fits in what remains. */
  lemma {:induction false} GreedyFitsAndIsMaximal(budget: int, s: seq<Sentence>)
    ensures Greedy(budget, s) == [] || Cost(Greedy(budget, s)) <= budget
    ensures forall x :: x in Greedy(budget, s) ==> x in s
    ensures forall x :: x in s && x !in Greedy(budget, s) ==> x.tokens > budget - Cost(Greedy(budget, s))
  {
    if s != [] {
      if budget < s[0].tokens {
        GreedyFitsAndIsMaximal(budget, s[1..]);
      } else {
        GreedyFitsAndIsMaximal(budget - s[0].tokens, s[1..]);
        assert Greedy(budget, s)[1..] == Greedy(budget - s[0].tokens, s[1..]);
      }
    }
  }

  /** The pass over a concatenation is two passes, the second with what the first left. */
  lemma {:induction false} GreedyInTwoPasses(budget: int, a: seq<Sentence>, b: seq<Sentence>)
    ensures Greedy(budget, a + b) == Greedy(budget, a) + Greedy(budget - Cost(Greedy(budget, a)), b)
  {
    if a == [] {
      assert a + b == b;
    } else {
      assert (a + b)[1..] == a[1..] + b;
      if budget < a[0].tokens {
        GreedyInTwoPasses(budget, a[1..], b);
      } else {
        GreedyInTwoPasses(budget - a[0].tokens, a[1..], b);
        assert Greedy(budget, a)[1..] == Greedy(budget - a[0].tokens, a[1..]);
      }
    }
  }

  /** The kept middle sentences, in original order. */
  function KeptMiddle(budget: int, middle: seq<Sentence>): seq<Sentence> {
    Restrict(middle, Greedy(budget, Prioritised(middle)))
  }

  /** Restoring the order keeps exactly the chosen sentences. */
  lemma RestoredOrderKeepsChoice(budget: int, middle: seq<Sentence>)
    requires InOrder(middle)
    ensures var kept, chosen := KeptMiddle(budget, middle), Greedy(budget, Prioritised(middle));
            && InOrder(kept) && (forall x :: x in kept <==> x in chosen)
            && multiset(kept) == multiset(chosen) && Cost(kept) == Cost(chosen)
  {
    var sorted := Prioritised(middle);
    var kept, chosen := KeptMiddle(budget, middle), Greedy(budget, sorted);
    RestrictFacts(middle, chosen);
    PrioritisedHasSameMembers(middle);
    GreedyFitsAndIsMaximal(budget, sorted);
    PrioritisedIsTheSort(middle);
    SortedIsDistinct(sorted);
    SortedIsDistinct(kept);
    GreedyIsDistinct(budget, sorted);
    SameMembersSameBag(kept, chosen);
    CostIsBag(kept, chosen);
  }

  ghost predicate Distinct(s: seq<Sentence>) {
    s == [] || (s[0] !in s[1..] && Distinct(s[1..]))
  }

  lemma {:induction false} SortedIsDistinct(s: seq<Sentence>)
    ensures Sorted(s) ==> Distinct(s)
    ensures InOrder(s) ==> Distinct(s)
  {
    if s != [] {
      SortedIsDistinct(s[1..]);
    }
  }

  lemma {:induction false} GreedyIsDistinct(budget: int, s: seq<Sentence>)
    requires Distinct(s)
    ensures Distinct(Greedy(budget, s))
  {
    if s != [] {
      if budget < s[0].tokens {
        GreedyIsDistinct(budget, s[1..]);
      } else {
        var rest := Greedy(budget - s[0].tokens, s[1..]);
        GreedyIsDistinct(budget - s[0].tokens, s[1..]);
        GreedyFitsAndIsMaximal(budget - s[0].tokens, s[1..]);
        assert ([s[0]] + rest)[1..] == rest;
      }
    }
  }

  lemma {:induction false} DistinctCounts(s: seq<Sentence>, x: Sentence)
    requires Distinct(s)
    ensures multiset(s)[x] == if x in s then 1 else 0
  {
    if s != [] {
      DistinctCounts(s[1..], x);
      assert s == [s[0]] + s[1..];
    }
  }

  lemma SameMembersSameBag(a: seq<Sentence>, b: seq<Sentence>)
    requires Distinct(a) && Distinct(b) && forall x :: x in a <==> x in b
    ensures multiset(a) == multiset(b)
  {
    forall x
      ensures multiset(a)[x] == multiset(b)[x]
    {
      DistinctCounts(a, x);
      DistinctCounts(b, x);
    }
  }

  lemma {:induction false} CostIsBag(a: seq<Sentence>, b: seq<Sentence>)
    requires multiset(a) == multiset(b)
    ensures Cost(a) == Cost(b)
  {
    if a != [] {
      var k := Whereabouts(a, b);
      WithoutFirst(a, b, k);
      CostWithout(b, k);
      CostIsBag(a[1..], b[..k] + b[k + 1..]);
    } else {
      OnlyEmptyBag(b);
    }
  }

  lemma OnlyEmptyBag(b: seq<Sentence>)
    ensures multiset(b) == multiset([]) ==> b == []
  {
    assert |multiset(b)| == |b|;
  }

  lemma Whereabouts(a: seq<Sentence>, b: seq<Sentence>) returns (k: nat)
    requires multiset(a) == multiset(b) && a != []
    ensures k < |b| && b[k] == a[0]
  {
    assert a[0] in multiset(b);
    k :| 0 <= k < |b| && b[k] == a[0];
  }

  lemma WithoutFirst(a: seq<Sentence>, b: seq<Sentence>, k: nat)
    requires multiset(a) == multiset(b) && a != [] && k < |b| && b[k] == a[0]
    ensures multiset(a[1..]) == multiset(b[..k] + b[k + 1..])
  {
    BagOfRest(a);
    BagWithout(b, k);
  }

  lemma BagOfRest(a: seq<Sentence>)
    requires a != []
    ensures multiset(a[1..]) == multiset(a) - multiset{a[0]}
  {
    assert a == [a[0]] + a[1..];
  }

  lemma BagWithout(b: seq<Sentence>, k: nat)
    requires k < |b|
    ensures multiset(b[..k] + b[k + 1..]) == multiset(b) - multiset{b[k]}
  {
    assert b == b[..k] + [b[k]] + b[k + 1..];
  }

  lemma CostWithout(b: seq<Sentence>, k: nat)
    requires k < |b|
    ensures Cost(b) == b[k].tokens + Cost(b[..k] + b[k + 1..])
  {
    CostAppend(b[..k], b[k + 1..]);
    CostAppend(b[..k], b[k..]);
    assert b == b[..k] + b[k..] && b[k..][1..] == b[k + 1..];
  }

  /** Which high-signal sentences survive depends on the high-signal sentences alone. */
  lemma LowSignalNeverDisplacesHigh(budget: int, middle: seq<Sentence>, x: Sentence)
    requires InOrder(middle) && x.high
    ensures x in KeptMiddle(budget, middle) <==> x in Greedy(budget, OfSignal(middle, true))
  {
    var high, low := OfSignal(middle, true), OfSignal(middle, false);
    var left := budget - Cost(Greedy(budget, high));
    RestoredOrderKeepsChoice(budget, middle);
    assert x in KeptMiddle(budget, middle) <==> x in Greedy(budget, high + low);
    GreedyInTwoPasses(budget, high, low);
    assert x !in Greedy(left, low) by {
      GreedyFitsAndIsMaximal(left, low);
      OfSignalFacts(middle, false);
    }
  }

  /* ------------------------------- the whole function ------------------------------- */

  /** The sentences between the first and the last; `highSignal` is the keyword test. */
  function Middle(highSignal: string -> bool, sentences: seq<string>): (m: seq<Sentence>)
    requires |sentences| > 2
    ensures |m| == |sentences| - 2
  {
    seq(|sentences| - 2, i requires 0 <= i < |sentences| - 2 =>
      Sentence(sentences[i + 1], i, highSignal(sentences[i + 1]), EstimateTokens(sentences[i + 1])))
  }

  lemma {:induction false} IndexedInOrder(s: seq<Sentence>)
    requires forall i, j :: 0 <= i < j < |s| ==> s[i].idx < s[j].idx
    ensures InOrder(s)
  {
    if s != [] {
      IndexedInOrder(s[1..]);
    }
  }

  /** Tokens left for the middle after the first and last sentence and the marker. */
  function MiddleBudget(sentences: seq<string>, maxTokens: int): int
    requires |sentences| > 2
  {
    maxTokens - EstimateTokens(sentences[0]) - EstimateTokens(sentences[|sentences| - 1]) - MARKER_TOKENS
  }

  function KeptSentences(highSignal: string -> bool, sentences: seq<string>, maxTokens: int): seq<Sentence>
    requires |sentences| > 2
  {
    KeptMiddle(MiddleBudget(sentences, maxTokens), Middle(highSignal, sentences))
  }

  /** First, kept middle, last. */
  function Parts(highSignal: string -> bool, sentences: seq<string>, maxTokens: int): seq<string>
    requires |sentences| > 2
  {
    [sentences[0]] + Texts(KeptSentences(highSignal, sentences, maxTokens)) + [sentences[|sentences| - 1]]
  }

  function Marker(dropped: nat): string { "[" + Natural(dropped) + " sentences truncated]" }

  function JoinWithBlanks(parts: seq<string>): string
    requires parts != []
  {
    if |parts| == 1 then parts[0] else JoinWithBlanks(parts[..|parts| - 1]) + " " + parts[|parts| - 1]
  }

  function Rendered(parts: seq<string>, dropped: nat): string
    requires parts != []
  {
    JoinWithBlanks(if dropped > 0 then parts + [Marker(dropped)] else parts)
  }

  /** JavaScript's `slice(0, n)`: a negative end counts from the back. */
  function SlicePrefix(s: string, n: int): string {
    if n >= |s| then s else if n >= 0 then s[..n] else if -n >= |s| then "" else s[..|s| + n]
  }

  /** The part of a text that a hard cut leaves. */
  function CutPrefix(content: string, maxTokens: int): string {
    SlicePrefix(content, (maxTokens as real * 3.5).Floor)
  }

  /** A hard cut leaves a beginning of the text: seven characters for two tokens, or, for a
      negative budget, without as many at its end. */
  lemma CutIsBeginning(content: string, maxTokens: int)
    ensures var cut, characters := CutPrefix(content, maxTokens), 7 * maxTokens / 2;
      && cut <= content
      && (0 <= characters <= |content| ==> |cut| == characters) && (characters > |content| ==> cut == content)
      && (-|content| <= characters < 0 ==> |cut| == |content| + characters)
      && (characters < -|content| ==> cut == "")
  {
    assert (maxTokens as real * 3.5).Floor == 7 * maxTokens / 2;
  }

  /* ------------------------------- the choice, read off the sentences ------------------------------- */

  function TokensEach(sentences: seq<string>): (tokens: seq<nat>)
    ensures |tokens| == |sentences| && forall i :: 0 <= i < |sentences| ==> tokens[i] == EstimateTokens(sentences[i])
  {
    seq(|sentences|, i requires 0 <= i < |sentences| => EstimateTokens(sentences[i]))
  }

  function SignalsEach(highSignal: string -> bool, sentences: seq<string>): (signals: seq<bool>)
    ensures |signals| == |sentences| && forall i :: 0 <= i < |sentences| ==> signals[i] == highSignal(sentences[i])
  {
    seq(|sentences|, i requires 0 <= i < |sentences| => highSignal(sentences[i]))
  }

  /** Tokens of the kept inner sentences before the `n`-th that pass the keyword test, or fail it. */
  function Spent(signals: seq<bool>, tokens: seq<nat>, kept: set<nat>, high: bool, n: nat): nat
    requires n <= |tokens| == |signals|
  {
    if n <= 1 then 0
    else
      Spent(signals, tokens, kept, high, n - 1) + if n - 1 in kept && signals[n - 1] == high then tokens[n - 1] else 0
  }

  /** What is left for the `i`-th sentence: one that passes the test competes with those before it
      that pass too; one that fails gets what all that pass, and those before it that fail, leave. */
  function LeftFor(signals: seq<bool>, tokens: seq<nat>, reserve: int, kept: set<nat>, i: nat): int
    requires 0 < i < |tokens| - 1 && |tokens| == |signals|
  {
    if signals[i] then reserve - Spent(signals, tokens, kept, true, i)
    else reserve - Spent(signals, tokens, kept, true, |tokens| - 1) - Spent(signals, tokens, kept, false, i)
  }

  /** The positions kept are inner ones, and exactly those whose sentence fits what is left for it. */
  ghost predicate Chosen(signals: seq<bool>, tokens: seq<nat>, reserve: int, kept: set<nat>)
    requires |tokens| == |signals| > 2
  {
    && (forall i :: i in kept ==> 0 < i < |tokens| - 1)
    && forall i :: 0 < i < |tokens| - 1 ==> KeptIfFits(signals, tokens, reserve, kept, i)
  }

  ghost predicate KeptIfFits(signals: seq<bool>, tokens: seq<nat>, reserve: int, kept: set<nat>, i: nat)
    requires 0 < i < |tokens| - 1 && |tokens| == |signals|
  {
    i in kept <==> tokens[i] <= LeftFor(signals, tokens, reserve, kept, i)
  }

  /** The sentences at these positions before the `n`-th, in their order. */
  function TextsAt(sentences: seq<string>, kept: set<nat>, n: nat): seq<string>
    requires n <= |sentences|
  {
    if n == 0 then [] else TextsAt(sentences, kept, n - 1) + if n - 1 in kept then [sentences[n - 1]] else []
  }

  /** First, the chosen ones, last; and the marker with the number of those left out. */
  ghost predicate IsExcerpt(highSignal: string -> bool, sentences: seq<string>, maxTokens: int, text: string)
    requires |sentences| > 2
  {
    var first, last := sentences[0], sentences[|sentences| - 1];
    exists kept ::
      Chosen(SignalsEach(highSignal, sentences), TokensEach(sentences), Reserve(first, last, maxTokens), kept)
      && text == ExcerptOf(first, TextsAt(sentences, kept, |sentences|), last, |sentences| - 2 - |kept|)
  }

  /** Tokens left beside the first sentence, the last one and five for the marker. */
  function Reserve(first: string, last: string, maxTokens: int): int {
    maxTokens - EstimateTokens(first) - EstimateTokens(last) - 5
  }

  lemma ReserveIsBudget(sentences: seq<string>, maxTokens: int)
    requires |sentences| > 2
    ensures Reserve(sentences[0], sentences[|sentences| - 1], maxTokens) == MiddleBudget(sentences, maxTokens)
  {
  }

  function ExcerptOf(first: string, inner: seq<string>, last: string, dropped: int): string {
    var parts := [first] + inner + [last];
    Spaced(if dropped > 0 then parts + ["[" + Natural(dropped) + " sentences truncated]"] else parts)
  }

  /** The parts with one blank between any two. */
  function Spaced(parts: seq<string>): string
    requires parts != []
  {
    if |parts| == 1 then parts[0] else parts[0] + " " + Spaced(parts[1..])
  }

  lemma {:induction false} JoinedIsSpaced(parts: seq<string>)
    requires parts != []
    ensures JoinWithBlanks(parts) == Spaced(parts)
  {
    if |parts| > 1 {
      var init, last := parts[..|parts| - 1], parts[|parts| - 1];
      JoinedIsSpaced(init);
      assert parts == init + [last];
      SpacedAppend(init, last);
    }
  }

  lemma {:induction false} SpacedAppend(parts: seq<string>, last: string)
    requires parts != []
    ensures Spaced(parts + [last]) == Spaced(parts) + " " + last
  {
    if |parts| > 1 {
      SpacedAppend(parts[1..], last);
      assert (parts + [last])[1..] == parts[1..] + [last];
    } else {
      assert (parts + [last])[1..] == [last];
    }
  }

  lemma {:induction false} OfSignalAppend(s: seq<Sentence>, x: Sentence, high: bool)
    ensures OfSignal(s + [x], high) == OfSignal(s, high) + if x.high == high then [x] else []
  {
    if s == [] {
      assert [] + [x] == [x] && [x][1..] == [];
    } else {
      OfSignalAppend(s[1..], x, high);
      assert (s + [x])[1..] == s[1..] + [x];
    }
  }

  lemma {:induction false} RestrictAppend(s: seq<Sentence>, x: Sentence, chosen: seq<Sentence>)
    ensures Restrict(s + [x], chosen) == Restrict(s, chosen) + if x in chosen then [x] else []
  {
    if s == [] {
      assert [] + [x] == [x] && [x][1..] == [];
    } else {
      RestrictAppend(s[1..], x, chosen);
      assert (s + [x])[1..] == s[1..] + [x];
    }
  }

  /** What the greedy pass takes of the first `k` sentences of one class. */
  function Taken(budget: int, middle: seq<Sentence>, high: bool, k: nat): seq<Sentence>
    requires k <= |middle|
  {
    Greedy(budget, OfSignal(middle[..k], high))
  }

  lemma TakenOneMore(budget: int, middle: seq<Sentence>, high: bool, k: nat)
    requires k < |middle|
    ensures var before, x := Taken(budget, middle, high, k), middle[k];
      Taken(budget, middle, high, k + 1)
        == before + if x.high == high && x.tokens <= budget - Cost(before) then [x] else []
  {
    var x := middle[k];
    assert middle[..k + 1] == middle[..k] + [x];
    OfSignalAppend(middle[..k], x, high);
    GreedyInTwoPasses(budget, OfSignal(middle[..k], high), if x.high == high then [x] else []);
    GreedyOfOne(budget - Cost(Taken(budget, middle, high, k)), x);
  }

  lemma GreedyOfOne(budget: int, x: Sentence)
    ensures Greedy(budget, [x]) == (if x.tokens <= budget then [x] else []) && Greedy(budget, []) == []
  {
    assert [x][1..] == [];
  }

  /** A sentence is taken exactly if it fits what those before it leave. */
  lemma {:induction false} TakenIff(budget: int, middle: seq<Sentence>, high: bool, k: nat, i: nat)
    requires k <= |middle| && (forall a, b :: 0 <= a < b < |middle| ==> middle[a].idx < middle[b].idx) && i < |middle|
    ensures middle[i] in Taken(budget, middle, high, k) <==>
      i < k && middle[i].high == high && middle[i].tokens <= budget - Cost(Taken(budget, middle, high, i))
    decreases k
  {
    if k > 0 {
      TakenIff(budget, middle, high, k - 1, i);
      TakenOneMore(budget, middle, high, k - 1);
      assert middle[i] == middle[k - 1] ==> i == k - 1;
    }
  }

  /** The positions of what is taken of both classes. */
  ghost function KeptAt(middle: seq<Sentence>, chosen: seq<Sentence>): set<nat> {
    set i | 0 <= i < |middle| && middle[i] in chosen :: i + 1
  }

  /** The inner sentences, by signal and tokens alone. */
  ghost predicate Weighed(middle: seq<Sentence>, signals: seq<bool>, tokens: seq<nat>) {
    && |middle| + 2 == |tokens| == |signals|
    && (forall i :: 0 <= i < |middle| ==> middle[i].high == signals[i + 1] && middle[i].tokens == tokens[i + 1])
    && forall a, b :: 0 <= a < b < |middle| ==> middle[a].idx < middle[b].idx
  }

  ghost predicate KeptAsTaken(middle: seq<Sentence>, kept: set<nat>, budget: int, high: bool) {
    forall i :: 0 <= i < |middle| && middle[i].high == high ==>
      (i + 1 in kept <==> middle[i] in Taken(budget, middle, high, |middle|))
  }

  lemma {:induction false} SpentIsCost(middle: seq<Sentence>, signals: seq<bool>, tokens: seq<nat>, budget: int,
                                       high: bool, kept: set<nat>, n: nat)
    requires Weighed(middle, signals, tokens) && 0 < n < |tokens|
    requires KeptAsTaken(middle, kept, budget, high)
    ensures Spent(signals, tokens, kept, high, n) == Cost(Taken(budget, middle, high, n - 1))
    decreases n
  {
    if n == 1 {
      assert middle[..0] == [];
    } else {
      SpentIsCost(middle, signals, tokens, budget, high, kept, n - 1);
      CostOfTaken(budget, middle, high, n - 2);
    }
  }

  lemma CostOfTaken(budget: int, middle: seq<Sentence>, high: bool, k: nat)
    requires k < |middle| && forall a, b :: 0 <= a < b < |middle| ==> middle[a].idx < middle[b].idx
    ensures Cost(Taken(budget, middle, high, k + 1)) == Cost(Taken(budget, middle, high, k))
      + if middle[k].high == high && middle[k] in Taken(budget, middle, high, |middle|) then middle[k].tokens else 0
  {
    TakenOneMore(budget, middle, high, k);
    TakenIff(budget, middle, high, |middle|, k);
    CostAppend(Taken(budget, middle, high, k), [middle[k]]);
    assert Cost([middle[k]]) == middle[k].tokens;
    assert Taken(budget, middle, high, k) + [] == Taken(budget, middle, high, k);
  }

  /** The greedy choice takes of either class what the passes over that class take. */
  lemma PlacesOf(reserve: int, middle: seq<Sentence>, i: nat)
    requires i < |middle| && forall a, b :: 0 <= a < b < |middle| ==> middle[a].idx < middle[b].idx
    ensures var n := |middle|; var high := Taken(reserve, middle, true, n);
      var left := reserve - Cost(high);
      (i + 1 in KeptAt(middle, Greedy(reserve, Prioritised(middle))) <==>
        if middle[i].high then middle[i] in high else middle[i] in Taken(left, middle, false, n))
  {
    var n := |middle|;
    var high := Taken(reserve, middle, true, n);
    var left := reserve - Cost(high);
    assert middle[..n] == middle;
    GreedyInTwoPasses(reserve, OfSignal(middle, true), OfSignal(middle, false));
    TakenIff(left, middle, false, n, i);
    TakenIff(reserve, middle, true, n, i);
  }

  /** The greedy choice is the chosen positions. */
  lemma GreedyIsChosen(middle: seq<Sentence>, signals: seq<bool>, tokens: seq<nat>, reserve: int)
    requires Weighed(middle, signals, tokens) && middle != []
    ensures Chosen(signals, tokens, reserve, KeptAt(middle, Greedy(reserve, Prioritised(middle))))
  {
    var kept := KeptAt(middle, Greedy(reserve, Prioritised(middle)));
    forall i | 0 < i < |tokens| - 1
      ensures KeptIfFits(signals, tokens, reserve, kept, i)
    {
      KeptIfItFits(middle, signals, tokens, reserve, kept, i);
    }
  }

  lemma KeptIfItFits(middle: seq<Sentence>, signals: seq<bool>, tokens: seq<nat>, reserve: int, kept: set<nat>, i: nat)
    requires Weighed(middle, signals, tokens) && 0 < i < |tokens| - 1
    requires kept == KeptAt(middle, Greedy(reserve, Prioritised(middle)))
    ensures KeptIfFits(signals, tokens, reserve, kept, i)
  {
    KeptIsTaken(middle, reserve, kept);
    var left := reserve - Cost(Taken(reserve, middle, true, |middle|));
    SpentIsCost(middle, signals, tokens, reserve, true, kept, |tokens| - 1);
    if signals[i] {
      TakenIfFits(middle, signals, tokens, reserve, kept, i);
    } else {
      TakenIfFits(middle, signals, tokens, left, kept, i);
    }
  }

  lemma TakenIfFits(middle: seq<Sentence>, signals: seq<bool>, tokens: seq<nat>, budget: int, kept: set<nat>, i: nat)
    requires Weighed(middle, signals, tokens) && 0 < i < |tokens| - 1 && KeptAsTaken(middle, kept, budget, signals[i])
    ensures i in kept <==> tokens[i] <= budget - Spent(signals, tokens, kept, signals[i], i)
  {
    SpentIsCost(middle, signals, tokens, budget, signals[i], kept, i);
    TakenIff(budget, middle, signals[i], |middle|, i - 1);
    assert middle[i - 1].high == signals[i] && middle[i - 1].tokens == tokens[i];
  }

  lemma KeptIsTaken(middle: seq<Sentence>, reserve: int, kept: set<nat>)
    requires forall a, b :: 0 <= a < b < |middle| ==> middle[a].idx < middle[b].idx
    requires kept == KeptAt(middle, Greedy(reserve, Prioritised(middle)))
    ensures KeptAsTaken(middle, kept, reserve, true)
    ensures KeptAsTaken(middle, kept, reserve - Cost(Taken(reserve, middle, true, |middle|)), false)
  {
    forall j | 0 <= j < |middle|
      ensures var n := |middle|; j + 1 in kept <==>
        if middle[j].high then middle[j] in Taken(reserve, middle, true, n)
        else middle[j] in Taken(reserve - Cost(Taken(reserve, middle, true, n)), middle, false, n)
    {
      PlacesOf(reserve, middle, j);
    }
  }

  lemma MiddleIsWeighed(highSignal: string -> bool, sentences: seq<string>)
    requires |sentences| > 2
    ensures Weighed(Middle(highSignal, sentences), SignalsEach(highSignal, sentences), TokensEach(sentences))
  {
    var middle := Middle(highSignal, sentences);
    forall i | 0 <= i < |middle|
      ensures middle[i].high == SignalsEach(highSignal, sentences)[i + 1]
      ensures middle[i].tokens == TokensEach(sentences)[i + 1] && middle[i].idx == i
    {
      MiddleAt(highSignal, sentences, i);
    }
  }

  lemma MiddleAt(highSignal: string -> bool, sentences: seq<string>, i: nat)
    requires |sentences| > 2 && i < |sentences| - 2
    ensures Middle(highSignal, sentences)[i]
      == Sentence(sentences[i + 1], i, SignalsEach(highSignal, sentences)[i + 1], TokensEach(sentences)[i + 1])
  {
  }

  lemma {:induction false} RestrictIsTextsAt(middle: seq<Sentence>, sentences: seq<string>, chosen: seq<Sentence>,
      n: nat)
    requires |middle| + 2 == |sentences| && n <= |middle|
    requires forall i :: 0 <= i < |middle| ==> middle[i].text == sentences[i + 1]
    ensures Texts(Restrict(middle[..n], chosen)) == TextsAt(sentences, KeptAt(middle, chosen), n + 1)
  {
    if n == 0 {
      assert middle[..0] == [] && TextsAt(sentences, KeptAt(middle, chosen), 0) == [];
    } else {
      RestrictIsTextsAt(middle, sentences, chosen, n - 1);
      assert middle[..n] == middle[..n - 1] + [middle[n - 1]];
      RestrictAppend(middle[..n - 1], middle[n - 1], chosen);
      TextsAppend(Restrict(middle[..n - 1], chosen), if middle[n - 1] in chosen then [middle[n - 1]] else []);
    }
  }

  lemma {:induction false} TextsAppend(a: seq<Sentence>, b: seq<Sentence>)
    ensures Texts(a + b) == Texts(a) + Texts(b)
  {
  }

  lemma {:induction false} TextsAreCounted(sentences: seq<string>, kept: set<nat>, n: nat)
    requires n <= |sentences|
    ensures |TextsAt(sentences, kept, n)| == |set i | i in kept && i < n|
  {
    if n == 0 {
      assert (set i | i in kept && i < 0) == {};
    } else {
      TextsAreCounted(sentences, kept, n - 1);
      assert (set i | i in kept && i < n) == (set i | i in kept && i < n - 1) + if n - 1 in kept then {n - 1} else {};
    }
  }

  lemma PartsAt(highSignal: string -> bool, sentences: seq<string>, maxTokens: int, kept: set<nat>)
    requires |sentences| > 2
    requires var middle := Middle(highSignal, sentences);
      kept == KeptAt(middle, Greedy(MiddleBudget(sentences, maxTokens), Prioritised(middle)))
    ensures var texts := TextsAt(sentences, kept, |sentences|);
      |texts| == |kept| <= |sentences| - 2
        && Parts(highSignal, sentences, maxTokens) == [sentences[0]] + texts + [sentences[|sentences| - 1]]
  {
    var middle := Middle(highSignal, sentences);
    var n := |sentences|;
    RestrictIsTextsAt(middle, sentences, Greedy(MiddleBudget(sentences, maxTokens), Prioritised(middle)), n - 2);
    assert middle[..n - 2] == middle;
    NotTheLast(sentences, kept);
    RestrictFacts(middle, Greedy(MiddleBudget(sentences, maxTokens), Prioritised(middle)));
  }

  lemma NotTheLast(sentences: seq<string>, kept: set<nat>)
    requires |sentences| > 2 && forall i :: i in kept ==> 0 < i < |sentences| - 1
    ensures TextsAt(sentences, kept, |sentences|) == TextsAt(sentences, kept, |sentences| - 1)
    ensures |TextsAt(sentences, kept, |sentences|)| == |kept|
  {
    TextsAreCounted(sentences, kept, |sentences|);
    assert (set i | i in kept && i < |sentences|) == kept;
  }

  lemma RenderedIsSpaced(first: string, inner: seq<string>, last: string, dropped: nat)
    ensures Rendered([first] + inner + [last], dropped) == ExcerptOf(first, inner, last, dropped)
  {
    var parts := [first] + inner + [last];
    JoinedIsSpaced(if dropped > 0 then parts + [Marker(dropped)] else parts);
  }

  /** The text of an excerpt is an excerpt in this sense. */
  lemma ExcerptIsExcerpt(highSignal: string -> bool, sentences: seq<string>, maxTokens: int)
    requires |sentences| > 2
    ensures IsExcerpt(highSignal, sentences, maxTokens, ExcerptText(highSignal, sentences, maxTokens))
  {
    var middle := Middle(highSignal, sentences);
    var kept := KeptAt(middle, Greedy(MiddleBudget(sentences, maxTokens), Prioritised(middle)));
    MiddleIsWeighed(highSignal, sentences);
    ReserveIsBudget(sentences, maxTokens);
    GreedyIsChosen(middle, SignalsEach(highSignal, sentences), TokensEach(sentences),
      MiddleBudget(sentences, maxTokens));
    TextOfChoice(highSignal, sentences, maxTokens, kept);
  }

  lemma TextOfChoice(highSignal: string -> bool, sentences: seq<string>, maxTokens: int, kept: set<nat>)
    requires |sentences| > 2
    requires var middle := Middle(highSignal, sentences);
      kept == KeptAt(middle, Greedy(MiddleBudget(sentences, maxTokens), Prioritised(middle)))
    ensures ExcerptText(highSignal, sentences, maxTokens)
      == ExcerptOf(sentences[0], TextsAt(sentences, kept, |sentences|), sentences[|sentences| - 1],
        |sentences| - 2 - |kept|)
  {
    PartsAt(highSignal, sentences, maxTokens, kept);
    RenderedIsSpaced(sentences[0], TextsAt(sentences, kept, |sentences|), sentences[|sentences| - 1],
      |sentences| - 2 - |kept|);
  }

  /** There is one choice only. */
  lemma ChoiceIsUnique(signals: seq<bool>, tokens: seq<nat>, reserve: int, a: set<nat>, b: set<nat>)
    requires |tokens| == |signals| > 2
    requires Chosen(signals, tokens, reserve, a) && Chosen(signals, tokens, reserve, b)
    ensures a == b
  {
    SameSpent(signals, tokens, reserve, a, b, true, |tokens| - 1);
    forall i | 0 < i < |tokens| - 1
      ensures i in a <==> i in b
    {
      SameSpent(signals, tokens, reserve, a, b, signals[i], i);
      SamePick(signals, tokens, reserve, a, b, i);
    }
  }

  lemma {:induction false} SameSpent(signals: seq<bool>, tokens: seq<nat>, reserve: int,
                                     a: set<nat>, b: set<nat>, high: bool, n: nat)
    requires |tokens| == |signals| > 2 && n <= |tokens| - 1
    requires Chosen(signals, tokens, reserve, a) && Chosen(signals, tokens, reserve, b)
    requires !high ==> Spent(signals, tokens, a, true, |tokens| - 1) == Spent(signals, tokens, b, true, |tokens| - 1)
    ensures Spent(signals, tokens, a, high, n) == Spent(signals, tokens, b, high, n)
    decreases n
  {
    if n > 1 {
      SameSpent(signals, tokens, reserve, a, b, high, n - 1);
      if signals[n - 1] == high {
        SamePick(signals, tokens, reserve, a, b, n - 1);
      }
    }
  }

  lemma SamePick(signals: seq<bool>, tokens: seq<nat>, reserve: int, a: set<nat>, b: set<nat>, i: nat)
    requires |tokens| == |signals| > 2 && 0 < i < |tokens| - 1
    requires Chosen(signals, tokens, reserve, a) && Chosen(signals, tokens, reserve, b)
    requires Spent(signals, tokens, a, signals[i], i) == Spent(signals, tokens, b, signals[i], i)
    requires !signals[i] ==>
      Spent(signals, tokens, a, true, |tokens| - 1) == Spent(signals, tokens, b, true, |tokens| - 1)
    ensures i in a <==> i in b
  {
    assert KeptIfFits(signals, tokens, reserve, a, i) && KeptIfFits(signals, tokens, reserve, b, i);
    assert LeftFor(signals, tokens, reserve, a, i) == LeftFor(signals, tokens, reserve, b, i);
  }

  /** The loop over the sorted middle. */
  method TakeWhatFits(reserve: int, sorted: seq<Sentence>) returns (kept: seq<Sentence>)
    ensures kept == Greedy(reserve, sorted)
  {
    kept := [];
    var budget := reserve;
    for i := 0 to |sorted|
      invariant Greedy(reserve, sorted) == kept + Greedy(budget, sorted[i..])
    {
      var s := sorted[i];
      assert sorted[i..][1..] == sorted[i + 1..];
      if budget >= s.tokens {
        budget := budget - s.tokens;
        assert kept + ([s] + Greedy(budget, sorted[i + 1..])) == (kept + [s]) + Greedy(budget, sorted[i + 1..]);
        kept := kept + [s];
      }
    }
  }

  /** The text of an excerpt. */
  function ExcerptText(highSignal: string -> bool, sentences: seq<string>, maxTokens: int): string
    requires |sentences| > 2
  {
    var parts := Parts(highSignal, sentences, maxTokens);
    Rendered(parts, if |parts| < |sentences| then |sentences| - |parts| else 0)
  }

  method BuildExcerpt(highSignal: string -> bool, sentences: seq<string>, maxTokens: int) returns (text: string)
    requires |sentences| > 2
    ensures text == ExcerptText(highSignal, sentences, maxTokens)
  {
    var middle := Middle(highSignal, sentences);
    var kept := TakeWhatFits(MiddleBudget(sentences, maxTokens), Prioritised(middle));
    var parts := [sentences[0]] + Texts(Restrict(middle, kept)) + [sentences[|sentences| - 1]];
    assert parts == Parts(highSignal, sentences, maxTokens);
    var truncatedCount := |sentences| - |parts|;
    if truncatedCount > 0 {
      parts := parts + [Marker(truncatedCount)];
    }
    text := JoinWithBlanks(parts);
  }

  method SmartTruncate(highSignal: string -> bool, content: string, maxTokens: int) returns (text: string)
    ensures EstimateTokens(content) <= maxTokens ==> text == content
    ensures EstimateTokens(content) > maxTokens && |Sentences(content)| <= 2 ==>
      text == CutPrefix(content, maxTokens) + "\U{2026}"
    ensures EstimateTokens(content) > maxTokens && |Sentences(content)| > 2 ==>
      text == ExcerptText(highSignal, Sentences(content), maxTokens)
      && IsExcerpt(highSignal, Sentences(content), maxTokens, text)
  {
    if EstimateTokens(content) <= maxTokens { return content; }
    var sentences := Sentences(content);
    if |sentences| <= 2 {
      return CutPrefix(content, maxTokens) + "\U{2026}";
    }
    text := BuildExcerpt(highSignal, sentences, maxTokens);
    ExcerptIsExcerpt(highSignal, sentences, maxTokens);
  }

  /** What an excerpt contains: in-order middle sentences that fit what the reserved parts
      leave (or none), such that no dropped one would still fit. */
  lemma ExcerptIsBestEffort(highSignal: string -> bool, sentences: seq<string>, maxTokens: int)
    requires |sentences| > 2
    ensures var middle, budget := Middle(highSignal, sentences), MiddleBudget(sentences, maxTokens);
            var kept := KeptSentences(highSignal, sentences, maxTokens);
            && InOrder(kept) && (kept == [] || Cost(kept) <= budget)
            && (forall x :: x in kept ==> x in middle)
            && (forall x :: x in middle && x !in kept ==> x.tokens > budget - Cost(kept))
  {
    var middle, budget := Middle(highSignal, sentences), MiddleBudget(sentences, maxTokens);
    var chosen := Greedy(budget, Prioritised(middle));
    IndexedInOrder(middle);
    RestoredOrderKeepsChoice(budget, middle);
    PrioritisedHasSameMembers(middle);
    GreedyFitsAndIsMaximal(budget, Prioritised(middle));
    assert KeptMiddle(budget, middle) != [] ==> KeptMiddle(budget, middle)[0] in chosen;
  }
}
