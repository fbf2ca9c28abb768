/** Trigram similarity of texts and the size band that pre-filters comparisons
    (packages/shared/src/similarity.ts). */
module Similarity {

  /** The two regex-based rewrites of the source, kept uninterpreted: every result below
      holds for all of them. `normalize` is the canonical form used for scoring; `collapse`
      is lower-casing followed by whitespace collapsing, before the cut to 100 characters. */
  datatype TextRules = TextRules(normalize: string -> string, collapse: string -> string)

  const FINGERPRINT_LENGTH := 100
  const MAX_SAFE_INTEGER: int := 0x1F_FFFF_FFFF_FFFF

  function Fingerprint(rules: TextRules, content: string): string {
    var full := rules.collapse(content);
    if |full| <= FINGERPRINT_LENGTH then full else full[..FINGERPRINT_LENGTH]
  }

  /** The trigram that starts at position `i`. */
  function Gram(norm: string, i: nat): string
    requires i + 3 <= |norm|
  {
    norm[i..i + 3]
  }

  ghost function Trigrams(norm: string): set<string> {
    if |norm| < 3 then {} else Trigrams(norm[..|norm| - 1]) + {Gram(norm, |norm| - 3)}
  }

  /** Trigram set of a content; empty exactly when its normal form is too short. */
  ghost function TrigramsOf(rules: TextRules, content: string): set<string> {
    Trigrams(rules.normalize(content))
  }

  /** Jaccard index, as a ratio of intersection to union. */
  ghost function Jaccard<T>(a: set<T>, b: set<T>): real
    requires a + b != {}
  {
    |a * b| as real / |a + b| as real
  }

  /** The reference score: 1 on equal normal forms, 0 when either is too short to have
      trigrams, the Jaccard index of the trigram sets otherwise. */
  ghost function Score(rules: TextRules, a: string, b: string): real {
    var ta, tb := TrigramsOf(rules, a), TrigramsOf(rules, b);
    if rules.normalize(a) == rules.normalize(b) then 1.0
    else if ta == {} || tb == {} then 0.0
    else Jaccard(ta, tb)
  }

  /* -------------------------------- set facts -------------------------------- */

  lemma InclusionExclusion<T>(a: set<T>, b: set<T>)
    ensures |a| + |b| - |a * b| == |a + b|
    ensures |a * b| <= |a| <= |a + b| && |a * b| <= |b| <= |a + b|
  {
    assert (a - b) + b == a + b && (a - b) !! b;
    assert (a - b) + (a * b) == a && (a - b) !! (a * b);
    assert (b - a) + a == a + b && (b - a) !! a;
  }

  /** The trigrams are exactly the three-character windows. */
  lemma {:induction false} TrigramsAreWindows(norm: string, t: string)
    ensures t in Trigrams(norm) <==> exists i: nat :: i + 3 <= |norm| && Gram(norm, i) == t
  {
    if |norm| >= 3 {
      var init := norm[..|norm| - 1];
      TrigramsAreWindows(init, t);
      assert forall i: nat :: i + 3 <= |init| ==> Gram(norm, i) == Gram(init, i);
      if i: nat :| i + 3 <= |norm| && Gram(norm, i) == t && i + 3 != |norm| {
        assert Gram(init, i) == t;
      }
      if t in Trigrams(init) {
        var i: nat :| i + 3 <= |init| && Gram(init, i) == t;
        assert Gram(norm, i) == t;
      }
    }
  }

  predicate StandsAt(piece: string, text: string, i: nat) {
    i + |piece| <= |text| && text[i..i + |piece|] == piece
  }

  /** The three-character pieces of a text. */
  ghost function Windows(text: string): set<string> {
    set i | 0 <= i <= |text| - 3 :: Piece(text, i)
  }

  function Piece(text: string, i: nat): (piece: string)
    requires i + 3 <= |text|
    ensures |piece| == 3 && StandsAt(piece, text, i)
  {
    text[i..i + 3]
  }

  lemma TrigramsAreTheWindows(text: string)
    ensures Trigrams(text) == Windows(text)
  {
    forall t
      ensures t in Trigrams(text) <==> t in Windows(text)
    {
      TrigramsAreWindows(text, t);
      if t in Trigrams(text) {
        var i: nat :| i + 3 <= |text| && Gram(text, i) == t;
        assert Piece(text, i) == t;
      }
      if t in Windows(text) {
        var i :| 0 <= i <= |text| - 3 && Piece(text, i) == t;
        assert Gram(text, i) == t;
      }
    }
  }

  /** What the score is, read off the two normal forms. */
  lemma ScoreByWindows(rules: TextRules, a: string, b: string)
    ensures var x, y := rules.normalize(a), rules.normalize(b);
      var shared, all := Windows(x) * Windows(y), Windows(x) + Windows(y);
      && (x == y ==> Score(rules, a, b) == 1.0)
      && (x != y && (|x| < 3 || |y| < 3) ==> Score(rules, a, b) == 0.0)
      && (x != y && |x| >= 3 && |y| >= 3 ==> all != {} && Score(rules, a, b) == |shared| as real / |all| as real)
  {
    TrigramsAreTheWindows(rules.normalize(a));
    TrigramsAreTheWindows(rules.normalize(b));
    ShortIffNoTrigrams(rules.normalize(a));
    ShortIffNoTrigrams(rules.normalize(b));
  }

  lemma {:induction false} ShortIffNoTrigrams(norm: string)
    ensures Trigrams(norm) == {} <==> |norm| < 3
    ensures |Trigrams(norm)| <= |norm|
  {
    if |norm| >= 3 {
      ShortIffNoTrigrams(norm[..|norm| - 1]);
      InclusionExclusion(Trigrams(norm[..|norm| - 1]), {Gram(norm, |norm| - 3)});
      assert Gram(norm, |norm| - 3) in Trigrams(norm);
    }
  }

  /** The source divides by the two sizes minus the shared count: that is the union. */
  lemma JaccardByCounts<T>(a: set<T>, b: set<T>)
    requires a != {}
    ensures |a| + |b| - |a * b| > 0
    ensures Jaccard(a, b) == |a * b| as real / (|a| + |b| - |a * b|) as real
  {
  }

  /* ------------------------------ score properties ------------------------------ */

  lemma ScoreProperties(rules: TextRules, a: string, b: string)
    ensures 0.0 <= Score(rules, a, b) <= 1.0
    ensures Score(rules, a, b) == Score(rules, b, a)
    ensures Score(rules, a, a) == 1.0
  {
    var ta, tb := TrigramsOf(rules, a), TrigramsOf(rules, b);
    InclusionExclusion(ta, tb);
    assert ta * tb == tb * ta && ta + tb == tb + ta;
    if ta + tb != {} {
      RatioInUnit(|ta * tb|, |ta + tb|);
    }
  }

  lemma RatioInUnit(n: nat, d: nat)
    requires n <= d && 0 < d
    ensures 0.0 <= n as real / d as real <= 1.0
  {
  }

  lemma RatioOfSelf(n: nat)
    requires 0 < n
    ensures n as real / n as real == 1.0
  {
  }

  /** On two texts that both have trigrams the score is the Jaccard index, also when the
      normal forms coincide. */
  lemma ScoreIsJaccard(rules: TextRules, a: string, b: string)
    requires TrigramsOf(rules, a) != {} && TrigramsOf(rules, b) != {}
    ensures Score(rules, a, b) == Jaccard(TrigramsOf(rules, a), TrigramsOf(rules, b))
  {
    var ta := TrigramsOf(rules, a);
    if rules.normalize(a) == rules.normalize(b) {
      assert ta * ta == ta && ta + ta == ta;
      RatioOfSelf(|ta|);
    }
  }

  /** A text without trigrams can only match a text without trigrams. */
  lemma ShortMatchesOnlyShort(rules: TextRules, a: string, b: string)
    requires (TrigramsOf(rules, a) == {}) != (TrigramsOf(rules, b) == {})
    ensures Score(rules, a, b) == 0.0
  {
  }

  /* ------------------------------- the size band ------------------------------- */

  function Ceil(x: real): int { -((-x).Floor) }

  datatype Band = Band(lo: int, hi: int)

  function AdmissibleSizeBand(size: nat, threshold: real): Band {
    if threshold <= 0.0 then Band(1, MAX_SAFE_INTEGER)
    else Band(Ceil(size as real * threshold), (size as real / threshold).Floor)
  }

  /** The pre-filter never excludes a pair that reaches a positive threshold. */
  lemma BandAdmitsEveryMatch<T>(a: set<T>, b: set<T>, threshold: real)
    requires a != {} && b != {} && threshold > 0.0
    requires Jaccard(a, b) >= threshold
    ensures var band := AdmissibleSizeBand(|a|, threshold); band.lo <= |b| <= band.hi
  {
    InclusionExclusion(a, b);
    BandArithmetic(|a * b|, |a + b|, |a|, |b|, threshold);
  }

  lemma BandArithmetic(i: nat, u: nat, n: nat, m: nat, t: real)
    requires i <= n <= u && i <= m <= u && 0 < u && t > 0.0
    requires i as real / u as real >= t
    ensures Ceil(n as real * t) <= m <= (n as real / t).Floor
  {
    RatioBound(i as real, u as real, t);
    SideBound(i, u, n, m, t);
    SideBound(i, u, m, n, t);
    DivideBound(m as real, n as real, t);
    CeilBound(n as real * t, m);
  }

  lemma SideBound(i: nat, u: nat, n: nat, m: nat, t: real)
    requires n <= u && i <= m && t > 0.0 && u as real * t <= i as real
    ensures n as real * t <= m as real
  {
    ScaleLe(n as real, u as real, t);
  }

  lemma CeilBound(x: real, m: int)
    requires x <= m as real
    ensures Ceil(x) <= m
  {
  }

  lemma RatioBound(i: real, u: real, t: real)
    requires 0.0 < u && i / u >= t
    ensures u * t <= i
  {
    var ratio := i / u;
    assert ratio * u == i;
    ScaleLe(t, ratio, u);
  }

  lemma ScaleLe(x: real, y: real, k: real)
    requires x <= y && 0.0 <= k
    ensures x * k <= y * k && k * x <= k * y
  {
  }

  lemma DivideBound(m: real, n: real, t: real)
    requires t > 0.0 && m * t <= n
    ensures m <= n / t
  {
    assert n / t * t == n;
    if m > n / t {
      ScaleLt(n / t, m, t);
    }
  }

  lemma ScaleLt(x: real, y: real, k: real)
    requires x < y && 0.0 < k
    ensures x * k < y * k
  {
  }

  /* ------------------------------- computation ------------------------------- */

  /** A content with its normal form and trigram set, computed once. */
  datatype TrigramProfile = TrigramProfile(raw: string, norm: string, tris: set<string>)

  ghost function ProfileOf(rules: TextRules, content: string): TrigramProfile {
    TrigramProfile(content, rules.normalize(content), TrigramsOf(rules, content))
  }

  method CollectTrigrams(norm: string) returns (tris: set<string>)
    ensures tris == Trigrams(norm)
  {
    tris := {};
    var i := 0;
    while i <= |norm| - 3
      invariant 0 <= i && (i + 2 <= |norm| || i == 0)
      invariant i + 2 <= |norm| ==> tris == Trigrams(norm[..i + 2])
      invariant |norm| < 3 ==> tris == {}
    {
      var next := norm[..i + 3];
      assert next[..i + 2] == norm[..i + 2] && Gram(next, i) == norm[i..i + 3];
      tris := tris + {norm[i..i + 3]};
      i := i + 1;
    }
    assert |norm| >= 3 ==> norm[..i + 2] == norm;
  }

  method PrepareTrigramProfile(rules: TextRules, content: string) returns (profile: TrigramProfile)
    ensures profile == ProfileOf(rules, content)
  {
    var norm := rules.normalize(content);
    var tris := {};
    ShortIffNoTrigrams(norm);
    if |norm| >= 3 {
      tris := CollectTrigrams(norm);
    }
    profile := TrigramProfile(content, norm, tris);
  }

  /** Counts the members of `probe` that occur in `table`. */
  method CountShared(probe: set<string>, table: set<string>) returns (n: nat)
    ensures n == |probe * table|
  {
    n := 0;
    var rest := probe;
    ghost var done := {};
    while rest != {}
      invariant done + rest == probe && done !! rest
      invariant n == |done * table|
      decreases rest
    {
      var t :| t in rest;
      if t in table {
        assert (done + {t}) * table == done * table + {t};
        n := n + 1;
      } else {
        assert (done + {t}) * table == done * table;
      }
      done, rest := done + {t}, rest - {t};
    }
    assert done == probe;
  }

  method TrigramSimilarity(rules: TextRules, a: string, b: string) returns (score: real)
    ensures score == Score(rules, a, b)
  {
    if a == b { return 1.0; }
    var na, nb := rules.normalize(a), rules.normalize(b);
    if na == nb { return 1.0; }
    ShortIffNoTrigrams(na);
    ShortIffNoTrigrams(nb);
    if |na| < 3 || |nb| < 3 { return 0.0; }
    var ta := CollectTrigrams(na);
    var tb := CollectTrigrams(nb);
    var shared := CountShared(ta, tb);
    JaccardByCounts(ta, tb);
    score := shared as real / (|ta| + |tb| - shared) as real;
  }

  lemma ScoreOfProfiles(rules: TextRules, a: TrigramProfile, b: TrigramProfile)
    requires a == ProfileOf(rules, a.raw) && b == ProfileOf(rules, b.raw) && a.norm != b.norm
    requires |a.norm| >= 3 && |b.norm| >= 3
    ensures var shared := |a.tris * b.tris|;
      var all := |a.tris| + |b.tris| - shared;
      all > 0 && Score(rules, a.raw, b.raw) == shared as real / all as real
  {
    ShortIffNoTrigrams(a.norm);
    ShortIffNoTrigrams(b.norm);
    JaccardByCounts(a.tris, b.tris);
  }

  /** Same answer as `TrigramSimilarity`, from profiles prepared beforehand, counting over
      the smaller trigram set. */
  method TrigramSimilarityPrepared(ghost rules: TextRules, a: TrigramProfile, b: TrigramProfile)
    returns (score: real)
    requires a == ProfileOf(rules, a.raw) && b == ProfileOf(rules, b.raw)
    ensures score == Score(rules, a.raw, b.raw)
  {
    if a.raw == b.raw { return 1.0; }
    if a.norm == b.norm { return 1.0; }
    if |a.norm| < 3 || |b.norm| < 3 { return 0.0; }
    var small, large := a.tris, b.tris;
    if |a.tris| > |b.tris| {
      small, large := b.tris, a.tris;
    }
    var shared := CountShared(small, large);
    assert small * large == a.tris * b.tris;
    ScoreOfProfiles(rules, a, b);
    score := shared as real / (|a.tris| + |b.tris| - shared) as real;
  }
}
