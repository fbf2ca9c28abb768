/** Near-duplicate removal: the size-blocked scan, the streaming index, and the all-pairs
    references they are measured against (packages/shared/src/similarity.ts). */
module Dedup {
  import opened Similarity
  import opened BloomFilters

  datatype Item = Item(content: string, relevance: real)

  ghost function Contents(items: seq<Item>): (r: seq<string>)
    ensures |r| == |items|
  {
    seq(|items|, i requires 0 <= i < |items| => items[i].content)
  }

  /* -------------------------- when is a content a duplicate? -------------------------- */

  /** Some kept content has the same fingerprint (the first 100 collapsed characters). */
  ghost predicate FingerprintSeen(rules: TextRules, kept: seq<string>, c: string) {
    exists i :: 0 <= i < |kept| && Fingerprint(rules, kept[i]) == Fingerprint(rules, c)
  }

  /** Some kept content reaches the threshold. */
  ghost predicate ScoreReached(rules: TextRules, kept: seq<string>, c: string, threshold: real) {
    exists i :: 0 <= i < |kept| && Score(rules, c, kept[i]) >= threshold
  }

  /** The pairs that the size-blocked scan bothers to compare. */
  ghost predicate Compared(rules: TextRules, c: string, k: string, threshold: real) {
    var a, b := |TrigramsOf(rules, c)|, |TrigramsOf(rules, k)|;
    if a == 0 then b == 0
    else b > 0 && var band := AdmissibleSizeBand(a, threshold); band.lo <= b <= band.hi
  }

  ghost predicate ComparedScoreReached(rules: TextRules, kept: seq<string>, c: string, threshold: real) {
    exists i :: 0 <= i < |kept| && Compared(rules, c, kept[i], threshold)
             && Score(rules, c, kept[i]) >= threshold
  }

  /** `BruteForce` compares all pairs; `Reference` adds the fingerprint cache to it;
      `SizeBlocked` is what the code decides. */
  datatype Scan = BruteForce | Reference | SizeBlocked

  ghost predicate IsDuplicate(how: Scan, rules: TextRules, kept: seq<string>, c: string, threshold: real) {
    match how
    case BruteForce => ScoreReached(rules, kept, c, threshold)
    case Reference => FingerprintSeen(rules, kept, c) || ScoreReached(rules, kept, c, threshold)
    case SizeBlocked => FingerprintSeen(rules, kept, c) || ComparedScoreReached(rules, kept, c, threshold)
  }

  /** Scans from the left and keeps what is not a duplicate of something kept before. */
  ghost function Kept(how: Scan, rules: TextRules, items: seq<Item>, threshold: real): seq<Item> {
    if items == [] then []
    else
      var kept := Kept(how, rules, items[..|items| - 1], threshold);
      var item := items[|items| - 1];
      if IsDuplicate(how, rules, Contents(kept), item.content, threshold) then kept else kept + [item]
  }

  /* ---------------------------- the blocking loses nothing ---------------------------- */

  lemma MatchIsCompared(rules: TextRules, c: string, k: string, threshold: real)
    requires threshold > 0.0 && Score(rules, c, k) >= threshold
    ensures Compared(rules, c, k, threshold)
  {
    var a, b := TrigramsOf(rules, c), TrigramsOf(rules, k);
    if (a == {}) != (b == {}) {
      assert false;
    }
    if a != {} {
      ScoreIsJaccard(rules, c, k);
      BandAdmitsEveryMatch(a, b, threshold);
    }
  }

  /** For a positive threshold the blocked verdict is the all-pairs verdict, against any
      contents kept so far. */
  lemma BlockedVerdictIsReference(rules: TextRules, kept: seq<string>, c: string, threshold: real)
    requires threshold > 0.0
    ensures IsDuplicate(SizeBlocked, rules, kept, c, threshold)
        <==> IsDuplicate(Reference, rules, kept, c, threshold)
  {
    if ScoreReached(rules, kept, c, threshold) {
      var i :| 0 <= i < |kept| && Score(rules, c, kept[i]) >= threshold;
      MatchIsCompared(rules, c, kept[i], threshold);
    }
  }

  lemma {:induction false} BlockedKeepsReference(rules: TextRules, items: seq<Item>, threshold: real)
    requires threshold > 0.0
    ensures Kept(SizeBlocked, rules, items, threshold) == Kept(Reference, rules, items, threshold)
  {
    if items != [] {
      var init := items[..|items| - 1];
      BlockedKeepsReference(rules, init, threshold);
      BlockedVerdictIsReference(rules, Contents(Kept(Reference, rules, init, threshold)),
                                items[|items| - 1].content, threshold);
    }
  }

  /* ------------------ thresholds of zero or less: where the blocking shows ------------------ */

  ghost predicate Short(rules: TextRules, c: string) { TrigramsOf(rules, c) == {} }

  /** An item of the first one's size class, or repeating its fingerprint. */
  ghost predicate Alike(rules: TextRules, k: string, c: string) {
    Fingerprint(rules, k) == Fingerprint(rules, c) || (Short(rules, c) <==> Short(rules, k))
  }

  ghost predicate OneSizeClass(rules: TextRules, items: seq<Item>) {
    forall j :: 0 < j < |items| ==> Alike(rules, items[0].content, items[j].content)
  }

  lemma {:induction false} ReferenceKeepsFirst(rules: TextRules, items: seq<Item>, threshold: real)
    requires items != [] && threshold <= 0.0
    ensures Kept(Reference, rules, items, threshold) == [items[0]]
  {
    var init, item := items[..|items| - 1], items[|items| - 1];
    if init == [] {
      assert Kept(Reference, rules, init, threshold) == [];
    } else {
      ReferenceKeepsFirst(rules, init, threshold);
      ScoreProperties(rules, item.content, items[0].content);
      assert Score(rules, item.content, Contents([items[0]])[0]) >= threshold;
    }
  }

  /** No text outgrows the band that a non-positive threshold asks for. */
  lemma SizesAreSafe(rules: TextRules, c: string)
    requires |rules.normalize(c)| <= MAX_SAFE_INTEGER
    ensures |TrigramsOf(rules, c)| <= MAX_SAFE_INTEGER
  {
    ShortIffNoTrigrams(rules.normalize(c));
  }

  /** With a non-positive threshold the scan compares exactly within a size class. */
  lemma ComparedWithinClass(rules: TextRules, c: string, k: string, threshold: real)
    requires threshold <= 0.0 && |rules.normalize(k)| <= MAX_SAFE_INTEGER
    ensures Compared(rules, c, k, threshold) <==> (Short(rules, c) <==> Short(rules, k))
    ensures Score(rules, c, k) >= threshold
  {
    SizesAreSafe(rules, k);
    ScoreProperties(rules, c, k);
  }

  /** Against the first item alone, the blocked verdict is membership in its class. */
  lemma VerdictAgainstOne(rules: TextRules, k: string, c: string, threshold: real)
    requires threshold <= 0.0 && |rules.normalize(k)| <= MAX_SAFE_INTEGER
    ensures IsDuplicate(SizeBlocked, rules, [k], c, threshold) <==> Alike(rules, k, c)
  {
    ComparedWithinClass(rules, c, k, threshold);
    assert [k][0] == k;
  }

  lemma {:induction false} BlockedKeepsOneIffOneClass(rules: TextRules, items: seq<Item>, threshold: real)
    requires items != [] && threshold <= 0.0
    requires |rules.normalize(items[0].content)| <= MAX_SAFE_INTEGER
    ensures var kept := Kept(SizeBlocked, rules, items, threshold);
            kept != [] && kept[0] == items[0] && (|kept| == 1 <==> OneSizeClass(rules, items))
  {
    var init, item := items[..|items| - 1], items[|items| - 1];
    if init == [] {
      assert Kept(SizeBlocked, rules, init, threshold) == [];
    } else {
      BlockedKeepsOneIffOneClass(rules, init, threshold);
      var kept := Kept(SizeBlocked, rules, init, threshold);
      if |kept| == 1 {
        assert Contents(kept) == [items[0].content];
        VerdictAgainstOne(rules, items[0].content, item.content, threshold);
      }
    }
  }

  /** Exactly when the size-blocked scan keeps what the all-pairs scan keeps: always for a
      positive threshold; otherwise only when no item falls outside the first one's class. */
  lemma BlockedMatchesReferenceIff(rules: TextRules, items: seq<Item>, threshold: real)
    requires items != [] ==> |rules.normalize(items[0].content)| <= MAX_SAFE_INTEGER
    ensures Kept(SizeBlocked, rules, items, threshold) == Kept(Reference, rules, items, threshold)
       <==> threshold > 0.0 || items == [] || OneSizeClass(rules, items)
  {
    if threshold > 0.0 {
      BlockedKeepsReference(rules, items, threshold);
    } else if items != [] {
      ReferenceKeepsFirst(rules, items, threshold);
      BlockedKeepsOneIffOneClass(rules, items, threshold);
    }
  }

  /* --------------------- what the reference scan guarantees --------------------- */

  lemma {:induction false} KeptGrows(how: Scan, rules: TextRules, items: seq<Item>, j: nat, threshold: real)
    requires j <= |items|
    ensures Kept(how, rules, items[..j], threshold) <= Kept(how, rules, items, threshold)
  {
    if j < |items| {
      var init := items[..|items| - 1];
      KeptGrows(how, rules, init, j, threshold);
      assert init[..j] == items[..j];
    } else {
      assert items[..j] == items;
    }
  }

  /** No two kept items share a fingerprint or reach the threshold together. */
  lemma {:induction false} KeptAreSpread(rules: TextRules, items: seq<Item>, threshold: real, i: nat, j: nat)
    requires i < j < |Kept(Reference, rules, items, threshold)|
    ensures var kept := Kept(Reference, rules, items, threshold);
            Fingerprint(rules, kept[i].content) != Fingerprint(rules, kept[j].content)
            && Score(rules, kept[j].content, kept[i].content) < threshold
  {
    var init, item := items[..|items| - 1], items[|items| - 1];
    var before := Kept(Reference, rules, init, threshold);
    if j < |before| {
      KeptAreSpread(rules, init, threshold, i, j);
    } else {
      assert !IsDuplicate(Reference, rules, Contents(before), item.content, threshold);
      assert Contents(before)[i] == before[i].content;
    }
  }

  /** Every item of the input is kept, or is a duplicate of an item kept before it. */
  lemma DroppedAreCovered(rules: TextRules, items: seq<Item>, threshold: real, j: nat)
    requires j < |items|
    ensures var before := Kept(Reference, rules, items[..j], threshold);
            var kept := Kept(Reference, rules, items, threshold);
            before <= kept &&
            (IsDuplicate(Reference, rules, Contents(before), items[j].content, threshold)
             || (|before| < |kept| && kept[|before|] == items[j]))
  {
    KeptGrows(Reference, rules, items, j, threshold);
    KeptGrows(Reference, rules, items, j + 1, threshold);
    assert items[..j + 1][..j] == items[..j];
  }

  /* --------------------- what is kept, read off the texts --------------------- */

  /** Equal as far as the first hundred characters go. */
  predicate SameStart(a: string, b: string) {
    (|a| == |b| || (|a| >= 100 && |b| >= 100)) && forall i :: 0 <= i < 100 && i < |a| && i < |b| ==> a[i] == b[i]
  }

  /** The later text repeats the earlier one: by its first hundred characters, or by its score. */
  ghost predicate Repeats(rules: TextRules, threshold: real, earlier: string, later: string) {
    SameStart(rules.collapse(earlier), rules.collapse(later)) || Score(rules, later, earlier) >= threshold
  }

  lemma FingerprintsAgreeIff(rules: TextRules, a: string, b: string)
    ensures Fingerprint(rules, a) == Fingerprint(rules, b) <==> SameStart(rules.collapse(a), rules.collapse(b))
  {
    var x, y := rules.collapse(a), rules.collapse(b);
    if SameStart(x, y) {
      assert |Fingerprint(rules, a)| == |Fingerprint(rules, b)|;
      assert forall i :: 0 <= i < |Fingerprint(rules, a)| ==> x[i] == y[i];
    }
    if Fingerprint(rules, a) == Fingerprint(rules, b) {
      forall i | 0 <= i < 100 && i < |x| && i < |y|
        ensures x[i] == y[i]
      {
        assert x[i] == Fingerprint(rules, a)[i] && y[i] == Fingerprint(rules, b)[i];
      }
    }
  }

  lemma DuplicateRepeats(rules: TextRules, kept: seq<string>, c: string, threshold: real)
    ensures IsDuplicate(Reference, rules, kept, c, threshold)
       <==> exists i :: 0 <= i < |kept| && Repeats(rules, threshold, kept[i], c)
  {
    forall i | 0 <= i < |kept|
      ensures Repeats(rules, threshold, kept[i], c) <==>
        Fingerprint(rules, kept[i]) == Fingerprint(rules, c) || Score(rules, c, kept[i]) >= threshold
    {
      FingerprintsAgreeIff(rules, kept[i], c);
    }
  }

  ghost predicate Increasing(pos: seq<nat>) { forall i, j :: 0 <= i < j < |pos| ==> pos[i] < pos[j] }

  /** Some item at these positions is earlier than `j` and repeated by it. */
  ghost predicate RepeatedAt(rules: TextRules, items: seq<Item>, threshold: real, pos: seq<nat>, j: nat)
    requires j < |items|
  {
    exists k :: 0 <= k < |pos| && pos[k] < j && Repeats(rules, threshold, items[pos[k]].content, items[j].content)
  }

  /** What is kept are the items at these positions, in order, and an item is at one of them
      exactly if it repeats no item at an earlier one. */
  ghost predicate Sieve(rules: TextRules, items: seq<Item>, threshold: real, kept: seq<Item>, pos: seq<nat>) {
    && Increasing(pos) && |pos| == |kept|
    && (forall k :: 0 <= k < |pos| ==> pos[k] < |items| && kept[k] == items[pos[k]])
    && (forall j :: 0 <= j < |items| ==> (j in pos <==> !RepeatedAt(rules, items, threshold, pos, j)))
  }

  /** The result of the code is such a sieve. */
  lemma {:induction false} KeptIsSieve(rules: TextRules, items: seq<Item>, threshold: real) returns (pos: seq<nat>)
    ensures Sieve(rules, items, threshold, Kept(Reference, rules, items, threshold), pos)
  {
    pos := [];
    if items != [] {
      var n := |items| - 1;
      var before := KeptIsSieve(rules, items[..n], threshold);
      var kept := Kept(Reference, rules, items[..n], threshold);
      DuplicateRepeats(rules, Contents(kept), items[n].content, threshold);
      var repeated := IsDuplicate(Reference, rules, Contents(kept), items[n].content, threshold);
      pos := if repeated then before else before + [n];
      forall j | 0 <= j < |items|
        ensures j in pos <==> !RepeatedAt(rules, items, threshold, pos, j)
      {
        if j < n {
          SieveBelow(rules, items, threshold, kept, before, pos, j);
        } else {
          SieveAtEnd(rules, items, threshold, kept, before, pos);
        }
      }
    }
  }

  lemma SieveBelow(rules: TextRules, items: seq<Item>, threshold: real, kept: seq<Item>, before: seq<nat>,
                   pos: seq<nat>, j: nat)
    requires items != [] && j < |items| - 1 && Sieve(rules, items[..|items| - 1], threshold, kept, before)
    requires pos == before || pos == before + [|items| - 1]
    ensures j in pos <==> !RepeatedAt(rules, items, threshold, pos, j)
  {
    assert j in pos <==> j in before;
    assert forall k :: 0 <= k < |before| ==> pos[k] == before[k] && items[..|items| - 1][before[k]] == items[before[k]];
    assert items[..|items| - 1][j] == items[j];
  }

  lemma SieveAtEnd(rules: TextRules, items: seq<Item>, threshold: real, kept: seq<Item>, before: seq<nat>,
      pos: seq<nat>)
    requires items != [] && Sieve(rules, items[..|items| - 1], threshold, kept, before)
    requires var n := |items| - 1;
      pos == if exists i :: 0 <= i < |kept| && Repeats(rules, threshold, Contents(kept)[i], items[n].content)
             then before else before + [n]
    ensures |items| - 1 in pos <==> !RepeatedAt(rules, items, threshold, pos, |items| - 1)
  {
    var n := |items| - 1;
    assert n !in before;
    forall k | 0 <= k < |before|
      ensures pos[k] == before[k] < n && Contents(kept)[k] == items[before[k]].content
    {
    }
  }

  /** There is only one. */
  lemma SieveIsUnique(rules: TextRules, items: seq<Item>, threshold: real,
                      a: seq<Item>, p: seq<nat>, b: seq<Item>, q: seq<nat>)
    requires Sieve(rules, items, threshold, a, p) && Sieve(rules, items, threshold, b, q)
    ensures a == b
  {
    forall j | 0 <= j < |items|
      ensures j in p <==> j in q
    {
      SamePlaces(rules, items, threshold, a, p, b, q, j);
    }
    SameIncreasing(p, q);
  }

  lemma {:induction false} SamePlaces(rules: TextRules, items: seq<Item>, threshold: real,
                                      a: seq<Item>, p: seq<nat>, b: seq<Item>, q: seq<nat>, j: nat)
    requires j < |items| && Sieve(rules, items, threshold, a, p) && Sieve(rules, items, threshold, b, q)
    ensures j in p <==> j in q
    decreases j
  {
    forall i: nat | i < j
      ensures i in p <==> i in q
    {
      SamePlaces(rules, items, threshold, a, p, b, q, i);
    }
    RepeatedAlike(rules, items, threshold, p, q, j);
    RepeatedAlike(rules, items, threshold, q, p, j);
  }

  lemma RepeatedAlike(rules: TextRules, items: seq<Item>, threshold: real, p: seq<nat>, q: seq<nat>, j: nat)
    requires j < |items| && forall i: nat :: i < j && i in p ==> i in q
    ensures RepeatedAt(rules, items, threshold, p, j) ==> RepeatedAt(rules, items, threshold, q, j)
  {
    if RepeatedAt(rules, items, threshold, p, j) {
      var k :| 0 <= k < |p| && p[k] < j && Repeats(rules, threshold, items[p[k]].content, items[j].content);
      assert p[k] in q;
      var l :| 0 <= l < |q| && q[l] == p[k];
    }
  }

  lemma NoneIsEmpty(q: seq<nat>)
    ensures q == [] || q[0] in q
  {
  }

  lemma {:induction false} SameIncreasing(p: seq<nat>, q: seq<nat>)
    requires Increasing(p) && Increasing(q) && forall j :: j in p <==> j in q
    ensures p == q
  {
    if p == [] {
      NoneIsEmpty(q);
    } else {
      assert p[0] in p && p[0] in q && q[0] in q && q[0] in p && p[0] == q[0];
      forall j
        ensures j in p[1..] <==> j in q[1..]
      {
        assert j in p <==> j == p[0] || j in p[1..];
        assert j in q <==> j == q[0] || j in q[1..];
        assert p[0] !in p[1..] && q[0] !in q[1..];
      }
      SameIncreasing(p[1..], q[1..]);
      assert p == [p[0]] + p[1..] && q == [q[0]] + q[1..];
    }
  }

  /** Two items are both kept exactly if their first hundred characters differ and their score
      is below the threshold. */
  lemma PairIsKeptIff(rules: TextRules, a: Item, b: Item, threshold: real)
    requires threshold > 0.0
    ensures Kept(SizeBlocked, rules, [a, b], threshold) == [a, b] <==>
      !SameStart(rules.collapse(a.content), rules.collapse(b.content)) && Score(rules, b.content, a.content) < threshold
  {
    KeptOfTwo(Reference, rules, a, b, threshold);
    BlockedKeepsReference(rules, [a, b], threshold);
    DuplicateRepeats(rules, [a.content], b.content, threshold);
    assert [a.content][0] == a.content;
  }

  /* ----------------- the fingerprint cache against pure brute force ----------------- */

  /** A repeated fingerprint always belongs to a true near-duplicate. */
  ghost predicate CacheHitIsMatch(rules: TextRules, items: seq<Item>, threshold: real, j: nat)
    requires j < |items|
  {
    var kept := Contents(Kept(BruteForce, rules, items[..j], threshold));
    FingerprintSeen(rules, kept, items[j].content) ==> ScoreReached(rules, kept, items[j].content, threshold)
  }

  ghost predicate CacheHitsAreMatches(rules: TextRules, items: seq<Item>, threshold: real) {
    forall j :: 0 <= j < |items| ==> CacheHitIsMatch(rules, items, threshold, j)
  }

  lemma {:induction false} HarmlessCache(rules: TextRules, items: seq<Item>, threshold: real)
    requires CacheHitsAreMatches(rules, items, threshold)
    ensures Kept(Reference, rules, items, threshold) == Kept(BruteForce, rules, items, threshold)
  {
    if items != [] {
      var n := |items| - 1;
      var init := items[..n];
      forall j | 0 <= j < n
        ensures CacheHitIsMatch(rules, init, threshold, j)
      {
        assert CacheHitIsMatch(rules, items, threshold, j) && init[..j] == items[..j];
      }
      HarmlessCache(rules, init, threshold);
      assert CacheHitIsMatch(rules, items, threshold, n);
    }
  }

  /** Once the cache drops an item that brute force keeps, the two results differ for good:
      the reference never again keeps anything with that fingerprint. */
  lemma HarmfulCache(rules: TextRules, items: seq<Item>, threshold: real, j: nat)
    requires j < |items| && !CacheHitIsMatch(rules, items, threshold, j)
    ensures Kept(Reference, rules, items, threshold) != Kept(BruteForce, rules, items, threshold)
  {
    var reference, brute := Kept(Reference, rules, items, threshold), Kept(BruteForce, rules, items, threshold);
    var before := Kept(BruteForce, rules, items[..j], threshold);
    BruteForceKeeps(rules, items, threshold, j);
    var i :| 0 <= i < |before| && Fingerprint(rules, before[i].content) == Fingerprint(rules, items[j].content);
    assert brute[i] == before[i] && brute[|before|] == items[j];
    if reference == brute {
      KeptAreSpread(rules, items, threshold, i, |before|);
    }
  }

  lemma BruteForceKeeps(rules: TextRules, items: seq<Item>, threshold: real, j: nat)
    requires j < |items| && !CacheHitIsMatch(rules, items, threshold, j)
    ensures Kept(BruteForce, rules, items[..j], threshold) + [items[j]] <= Kept(BruteForce, rules, items, threshold)
    ensures var before := Kept(BruteForce, rules, items[..j], threshold);
      exists i :: 0 <= i < |before| && Fingerprint(rules, before[i].content) == Fingerprint(rules, items[j].content)
  {
    var before := Kept(BruteForce, rules, items[..j], threshold);
    KeptGrows(BruteForce, rules, items, j + 1, threshold);
    assert items[..j + 1][..j] == items[..j];
    assert Kept(BruteForce, rules, items[..j + 1], threshold) == before + [items[j]];
    var i :| 0 <= i < |before|
          && Fingerprint(rules, Contents(before)[i]) == Fingerprint(rules, items[j].content);
    assert Contents(before)[i] == before[i].content;
  }

  /** Exactly when the code's result is the pure all-pairs result that its comment promises:
      when the 100-character cut never equates two texts that are not near-duplicates. */
  lemma DedupIsBruteForceIff(rules: TextRules, items: seq<Item>, threshold: real)
    requires threshold > 0.0
    ensures Kept(SizeBlocked, rules, items, threshold) == Kept(BruteForce, rules, items, threshold)
       <==> CacheHitsAreMatches(rules, items, threshold)
  {
    BlockedKeepsReference(rules, items, threshold);
    if CacheHitsAreMatches(rules, items, threshold) {
      HarmlessCache(rules, items, threshold);
    } else {
      var j :| 0 <= j < |items| && !CacheHitIsMatch(rules, items, threshold, j);
      HarmfulCache(rules, items, threshold, j);
    }
  }

  lemma {:induction false} KeptComeFrom(how: Scan, rules: TextRules, items: seq<Item>, threshold: real)
    ensures forall x :: x in Kept(how, rules, items, threshold) ==> x in items
  {
    if items != [] {
      KeptComeFrom(how, rules, items[..|items| - 1], threshold);
      assert items == items[..|items| - 1] + [items[|items| - 1]];
    }
  }

  /** Texts that agree in their fingerprints are near-duplicates. */
  ghost predicate FingerprintsTell(rules: TextRules, items: seq<Item>, threshold: real) {
    forall i, j :: (
      0 <= i < j < |items| && Fingerprint(rules, items[i].content) == Fingerprint(rules, items[j].content) ==>
      Score(rules, items[j].content, items[i].content) >= threshold)
  }

  /** A condition on the input alone: then the promise holds. */
  lemma DistinctFingerprintsSuffice(rules: TextRules, items: seq<Item>, threshold: real)
    requires threshold > 0.0 && FingerprintsTell(rules, items, threshold)
    ensures Kept(SizeBlocked, rules, items, threshold) == Kept(BruteForce, rules, items, threshold)
  {
    forall j | 0 <= j < |items|
      ensures CacheHitIsMatch(rules, items, threshold, j)
    {
      var kept := Kept(BruteForce, rules, items[..j], threshold);
      KeptComeFrom(BruteForce, rules, items[..j], threshold);
      HitsAreMatches(rules, items, kept, threshold, j);
    }
    DedupIsBruteForceIff(rules, items, threshold);
  }

  lemma HitsAreMatches(rules: TextRules, items: seq<Item>, kept: seq<Item>, threshold: real, j: nat)
    requires j < |items| && FingerprintsTell(rules, items, threshold) && forall x :: x in kept ==> x in items[..j]
    ensures FingerprintSeen(rules, Contents(kept), items[j].content) ==>
      ScoreReached(rules, Contents(kept), items[j].content, threshold)
  {
    var c := items[j].content;
    if FingerprintSeen(rules, Contents(kept), c) {
      var n :| 0 <= n < |kept| && Fingerprint(rules, Contents(kept)[n]) == Fingerprint(rules, c);
      assert kept[n] in kept;
      var i :| 0 <= i < j && items[..j][i] == kept[n];
      assert Score(rules, c, Contents(kept)[n]) >= threshold;
    }
  }

  function Run(n: nat): string { seq(n, _ => 'a') }

  lemma {:induction false} TrigramsOfRun(n: nat)
    requires n >= 3
    ensures Trigrams(Run(n)) == {"aaa"}
  {
    assert Gram(Run(n), n - 3) == "aaa";
    assert Run(n)[..n - 1] == Run(n - 1);
    if n > 3 {
      TrigramsOfRun(n - 1);
    } else {
      assert Trigrams(Run(2)) == {};
    }
  }

  lemma TrigramsOfTail(x: char, y: char, z: char)
    ensures Trigrams(Run(100) + [x, y, z]) == {"aaa", ['a', 'a', x], ['a', x, y], [x, y, z]}
  {
    var one, two, three := Run(100) + [x], Run(100) + [x, y], Run(100) + [x, y, z];
    TrigramsOfRun(100);
    assert one[..100] == Run(100) && Gram(one, 98) == ['a', 'a', x];
    assert two[..101] == one && Gram(two, 99) == ['a', x, y];
    assert three[..102] == two && Gram(three, 100) == [x, y, z];
    assert Trigrams(one) == Trigrams(Run(100)) + {['a', 'a', x]};
    assert Trigrams(two) == Trigrams(one) + {['a', x, y]};
    assert Trigrams(three) == Trigrams(two) + {[x, y, z]};
  }

  lemma TailsScoreOneSeventh(rules: TextRules, a: string, b: string)
    requires a == Run(100) + "bcd" && b == Run(100) + "xyz"
    requires rules.normalize(a) == a && rules.normalize(b) == b
    ensures Score(rules, b, a) == 1.0 / 7.0
  {
    TrigramsOfTail('b', 'c', 'd');
    TrigramsOfTail('x', 'y', 'z');
    assert a[100] != b[100];
    var ta, tb: set<string> := {"aaa", "aab", "abc", "bcd"}, {"aaa", "aax", "axy", "xyz"};
    assert Trigrams(a) == ta && Trigrams(b) == tb;
    assert tb * ta == {"aaa"};
    assert tb + ta == {"aaa", "aab", "abc", "bcd", "aax", "axy", "xyz"};
  }

  /** Two texts that agree on 100 characters and then part: their similarity is 1/7, yet the
      second one is dropped. */
  lemma CacheCanDropADistinctText(rules: TextRules, threshold: real, a: Item, b: Item)
    requires a.content == Run(100) + "bcd" && b.content == Run(100) + "xyz"
    requires forall c :: c == a.content || c == b.content ==> rules.normalize(c) == c && rules.collapse(c) == c
    requires threshold > 1.0 / 7.0
    ensures Score(rules, b.content, a.content) == 1.0 / 7.0
    ensures Kept(SizeBlocked, rules, [a, b], threshold) == [a]
    ensures Kept(BruteForce, rules, [a, b], threshold) == [a, b]
  {
    TailsScoreOneSeventh(rules, a.content, b.content);
    assert a.content[..100] == b.content[..100];
    KeptOfTwo(BruteForce, rules, a, b, threshold);
    KeptOfTwo(SizeBlocked, rules, a, b, threshold);
    assert [a.content][0] == a.content;
  }

  lemma KeptOfTwo(how: Scan, rules: TextRules, a: Item, b: Item, threshold: real)
    ensures Kept(how, rules, [a, b], threshold)
         == if IsDuplicate(how, rules, [a.content], b.content, threshold) then [a] else [a, b]
  {
    assert Kept(how, rules, [], threshold) == [];
    assert [a][..0] == [] && [a, b][..1] == [a];
    assert Kept(how, rules, [a], threshold) == [a];
    assert Contents([a]) == [a.content];
  }

  /* ------------------------------- the size buckets ------------------------------- */

  /** Profiles of the contents, filed by trigram count; `zeroSize` files those without any. */
  ghost predicate Filed(rules: TextRules, contents: seq<string>, profiles: seq<TrigramProfile>,
                        bySize: map<nat, seq<nat>>, zeroSize: seq<nat>)
  {
    && |profiles| == |contents|
    && (forall i :: 0 <= i < |contents| ==> profiles[i] == ProfileOf(rules, contents[i]))
    && (forall i :: i in zeroSize ==> i < |profiles| && |profiles[i].tris| == 0)
    && (forall s :: s in bySize ==> s > 0 && forall i :: i in bySize[s] ==> i < |profiles| && |profiles[i].tris| == s)
    && (forall i :: 0 <= i < |profiles| ==>
          var s := |profiles[i].tris|; if s == 0 then i in zeroSize else s in bySize && i in bySize[s])
  }

  method AnyReaches(ghost rules: TextRules, profiles: seq<TrigramProfile>, candidates: seq<nat>,
                    profile: TrigramProfile, threshold: real) returns (hit: bool)
    requires forall i :: 0 <= i < |profiles| ==> profiles[i] == ProfileOf(rules, profiles[i].raw)
    requires profile == ProfileOf(rules, profile.raw)
    requires forall i :: i in candidates ==> i < |profiles|
    ensures hit <==> exists i :: i in candidates && Score(rules, profile.raw, profiles[i].raw) >= threshold
  {
    for n := 0 to |candidates|
      invariant forall j :: 0 <= j < n ==>
        candidates[j] in candidates && Score(rules, profile.raw, profiles[candidates[j]].raw) < threshold
    {
      assert candidates[n] in candidates;
      var score := TrigramSimilarityPrepared(rules, profile, profiles[candidates[n]]);
      if score >= threshold { return true; }
    }
    return false;
  }

  /** Looks for a match among the profiles of admissible size only. */
  method FindInBand(ghost rules: TextRules, ghost contents: seq<string>, profiles: seq<TrigramProfile>,
                    bySize: map<nat, seq<nat>>, zeroSize: seq<nat>, profile: TrigramProfile, threshold: real)
    returns (hit: bool)
    requires Filed(rules, contents, profiles, bySize, zeroSize)
    requires profile == ProfileOf(rules, profile.raw)
    ensures hit <==> ComparedScoreReached(rules, contents, profile.raw, threshold)
  {
    var size := |profile.tris|;
    if size == 0 {
      hit := AnyReaches(rules, profiles, zeroSize, profile, threshold);
    } else {
      var band := AdmissibleSizeBand(size, threshold);
      var s := band.lo;
      hit := false;
      while s <= band.hi && !hit
        invariant hit ==> ComparedScoreReached(rules, contents, profile.raw, threshold)
        invariant !hit ==> forall i :: (
          0 <= i < |contents| && band.lo <= |profiles[i].tris| < s && |profiles[i].tris| > 0 ==>
          Score(rules, profile.raw, contents[i]) < threshold)
        decreases band.hi - s, !hit
      {
        if s in bySize {
          hit := AnyReaches(rules, profiles, bySize[s], profile, threshold);
        }
        s := s + 1;
      }
    }
  }

  /** Files one more content under its size. */
  method File(ghost rules: TextRules, ghost contents: seq<string>, profiles: seq<TrigramProfile>,
              bySize: map<nat, seq<nat>>, zeroSize: seq<nat>, profile: TrigramProfile)
    returns (profiles': seq<TrigramProfile>, bySize': map<nat, seq<nat>>, zeroSize': seq<nat>)
    requires Filed(rules, contents, profiles, bySize, zeroSize)
    requires profile == ProfileOf(rules, profile.raw)
    ensures Filed(rules, contents + [profile.raw], profiles', bySize', zeroSize')
  {
    var index := |profiles|;
    profiles', bySize', zeroSize' := profiles + [profile], bySize, zeroSize;
    var size := |profile.tris|;
    if size == 0 {
      zeroSize' := zeroSize + [index];
    } else if size in bySize {
      bySize' := bySize[size := bySize[size] + [index]];
    } else {
      bySize' := bySize[size := [index]];
    }
  }

  /* ------------------------------- batch deduplication ------------------------------- */

  /** Keeps the items that are not near-duplicates of earlier kept ones. For a positive
      threshold the answer is that of the all-pairs reference. */
  method DeduplicateByContent(rules: TextRules, items: seq<Item>, threshold: real) returns (kept: seq<Item>)
    ensures kept == Kept(SizeBlocked, rules, items, threshold)
    ensures threshold > 0.0 ==> kept == Kept(Reference, rules, items, threshold)
    ensures threshold > 0.0 ==> exists pos :: Sieve(rules, items, threshold, kept, pos)
  {
    if threshold > 0.0 {
      BlockedKeepsReference(rules, items, threshold);
      var pos := KeptIsSieve(rules, items, threshold);
    }
    if |items| <= 1 {
      if |items| == 1 {
        assert Kept(SizeBlocked, rules, items[..0], threshold) == [];
      }
      return items;
    }
    kept := [];
    var seenFingerprints: set<string> := {};
    var profiles: seq<TrigramProfile>, bySize: map<nat, seq<nat>>, zeroSize: seq<nat> := [], map[], [];
    ghost var contents: seq<string> := [];
    for n := 0 to |items|
      invariant kept == Kept(SizeBlocked, rules, items[..n], threshold)
      invariant contents == Contents(kept) && seenFingerprints == Fingerprints(rules, contents)
      invariant Filed(rules, contents, profiles, bySize, zeroSize)
    {
      KeptOneMore(SizeBlocked, rules, items, n, threshold);
      var item := items[n];
      var fingerprint := Fingerprint(rules, item.content);
      if fingerprint !in seenFingerprints {
        var profile := PrepareTrigramProfile(rules, item.content);
        var isDuplicate := FindInBand(rules, contents, profiles, bySize, zeroSize, profile, threshold);
        if !isDuplicate {
          profiles, bySize, zeroSize := File(rules, contents, profiles, bySize, zeroSize, profile);
          ContentsGrow(kept, item);
          FingerprintsGrow(rules, contents, item.content);
          kept := kept + [item];
          contents := contents + [item.content];
          seenFingerprints := seenFingerprints + {fingerprint};
        }
      }
    }
    assert items[..|items|] == items;
  }

  lemma ContentsGrow(items: seq<Item>, item: Item)
    ensures Contents(items + [item]) == Contents(items) + [item.content]
  {
  }

  ghost function Fingerprints(rules: TextRules, contents: seq<string>): set<string> {
    set i | 0 <= i < |contents| :: Fingerprint(rules, contents[i])
  }

  lemma FingerprintsGrow(rules: TextRules, contents: seq<string>, c: string)
    ensures Fingerprints(rules, contents + [c]) == Fingerprints(rules, contents) + {Fingerprint(rules, c)}
  {
    var all := contents + [c];
    forall f | f in Fingerprints(rules, contents) + {Fingerprint(rules, c)}
      ensures f in Fingerprints(rules, all)
    {
      if f == Fingerprint(rules, c) {
        assert all[|contents|] == c;
      } else {
        var i :| 0 <= i < |contents| && Fingerprint(rules, contents[i]) == f;
        assert all[i] == contents[i];
      }
    }
  }

  lemma KeptOneMore(how: Scan, rules: TextRules, items: seq<Item>, n: nat, threshold: real)
    requires n < |items|
    ensures var kept := Kept(how, rules, items[..n], threshold);
            Kept(how, rules, items[..n + 1], threshold) ==
            if IsDuplicate(how, rules, Contents(kept), items[n].content, threshold) then kept else kept + [items[n]]
  {
    assert items[..n + 1][..n] == items[..n];
  }

  /** Linear check of one content against a batch, without fingerprints. */
  method IsDuplicateInBatch(rules: TextRules, c: string, batch: seq<string>, threshold: real) returns (found: bool)
    ensures found <==> IsDuplicate(BruteForce, rules, batch, c, threshold)
  {
    var profile := PrepareTrigramProfile(rules, c);
    for i := 0 to |batch|
      invariant forall j :: 0 <= j < i ==> Score(rules, c, batch[j]) < threshold
    {
      var other := PrepareTrigramProfile(rules, batch[i]);
      var score := TrigramSimilarityPrepared(rules, profile, other);
      if score >= threshold { return true; }
    }
    return false;
  }

  /* ------------------------------- the streaming index ------------------------------- */

  class DedupIndex {
    const rules: TextRules
    const bloom: BloomFilter
    var profiles: seq<TrigramProfile>
    var bySize: map<nat, seq<nat>>
    var zeroSize: seq<nat>
    var exactFps: set<string>
    /** Every content added so far, in order. */
    ghost var contents: seq<string>

    ghost predicate Valid()
      reads this, bloom, bloom.bits
    {
      && bloom.Valid()
      && Filed(rules, contents, profiles, bySize, zeroSize)
      && exactFps == Fingerprints(rules, contents)
      && exactFps <= bloom.keys
    }

    constructor (rules: TextRules, bits: nat, hashes: nat)
      requires 0 < bits <= MAX_BITS && 0 < hashes
      ensures Valid() && fresh(bloom) && fresh(bloom.bits)
      ensures contents == [] && this.rules == rules
    {
      this.rules := rules;
      bloom := new BloomFilter(bits, hashes);
      profiles, bySize, zeroSize, exactFps, contents := [], map[], [], {}, [];
    }

    /** Exactly the blocked verdict on all that was added: gating the fingerprint set with the
        Bloom filter changes no answer. For a positive threshold, the all-pairs verdict. */
    method Has(c: string, threshold: real) returns (found: bool)
      requires Valid()
      ensures found <==> IsDuplicate(SizeBlocked, rules, contents, c, threshold)
      ensures threshold > 0.0 ==> (found <==> IsDuplicate(Reference, rules, contents, c, threshold))
      ensures threshold > 0.0 ==>
        (found <==> exists i :: 0 <= i < |contents| && Repeats(rules, threshold, contents[i], c))
    {
      if threshold > 0.0 {
        BlockedVerdictIsReference(rules, contents, c, threshold);
        DuplicateRepeats(rules, contents, c, threshold);
      }
      var fingerprint := Fingerprint(rules, c);
      var maybe := bloom.Has(fingerprint);
      if maybe && fingerprint in exactFps {
        return true;
      }
      var profile := PrepareTrigramProfile(rules, c);
      found := FindInBand(rules, contents, profiles, bySize, zeroSize, profile, threshold);
    }

    method Add(c: string)
      requires Valid()
      modifies this, bloom, bloom.bits
      ensures Valid() && contents == old(contents) + [c]
    {
      var fingerprint := Fingerprint(rules, c);
      bloom.Add(fingerprint);
      exactFps := exactFps + {fingerprint};
      var profile := PrepareTrigramProfile(rules, c);
      profiles, bySize, zeroSize := File(rules, contents, profiles, bySize, zeroSize, profile);
      FingerprintsGrow(rules, contents, c);
      contents := contents + [c];
    }

    method AddIfNew(c: string, threshold: real) returns (added: bool)
      requires Valid()
      modifies this, bloom, bloom.bits
      ensures Valid()
      ensures added <==> !IsDuplicate(SizeBlocked, rules, old(contents), c, threshold)
      ensures threshold > 0.0 ==>
        (added <==> !exists i :: 0 <= i < |old(contents)| && Repeats(rules, threshold, old(contents)[i], c))
      ensures contents == if added then old(contents) + [c] else old(contents)
    {
      var found := Has(c, threshold);
      if found { return false; }
      Add(c);
      added := true;
    }
  }

  /** Streaming the items of a list through an empty index accepts exactly the items that the
      batch function keeps. */
  method StreamThroughIndex(index: DedupIndex, items: seq<Item>, threshold: real) returns (accepted: seq<Item>)
    requires index.Valid() && index.contents == []
    modifies index, index.bloom, index.bloom.bits
    ensures accepted == Kept(SizeBlocked, index.rules, items, threshold)
    ensures threshold > 0.0 ==> exists pos :: Sieve(index.rules, items, threshold, accepted, pos)
    ensures index.Valid() && index.contents == Contents(accepted)
  {
    accepted := [];
    for n := 0 to |items|
      invariant index.Valid() && index.contents == Contents(accepted)
      invariant accepted == Kept(SizeBlocked, index.rules, items[..n], threshold)
    {
      KeptOneMore(SizeBlocked, index.rules, items, n, threshold);
      var added := index.AddIfNew(items[n].content, threshold);
      if added {
        ContentsGrow(accepted, items[n]);
        accepted := accepted + [items[n]];
      }
    }
    assert items[..|items|] == items;
    if threshold > 0.0 {
      BlockedKeepsReference(index.rules, items, threshold);
      var pos := KeptIsSieve(index.rules, items, threshold);
    }
  }

  /** A batch hit is always an index hit, for every way the index may have been filled. */
  lemma BatchHitIsIndexHit(rules: TextRules, contents: seq<string>, c: string, threshold: real)
    requires threshold > 0.0 && IsDuplicate(BruteForce, rules, contents, c, threshold)
    ensures IsDuplicate(SizeBlocked, rules, contents, c, threshold)
  {
    BlockedVerdictIsReference(rules, contents, c, threshold);
  }
}
