/** Relevance scores: keyword overlap, the lexical blend, cosine similarity and the hybrid
    blend, over exact reals (packages/shared/src/similarity.ts). */
module Relevance {
  import opened Basics
  import opened Similarity

  function Min(x: real, y: real): real { if x < y then x else y }

  function Max(x: real, y: real): real { if x > y then x else y }

  function Clamp01(x: real): real { Max(0.0, Min(1.0, x)) }

  /* ----------------------------- keyword overlap ----------------------------- */

  /** Splits at every blank, as JavaScript's `split(' ')` does; never empty. */
  function SplitAtBlanks(s: string): (parts: seq<string>)
    ensures parts != []
  {
    if s == "" then [""]
    else
      var rest := SplitAtBlanks(s[1..]);
      if s[0] == ' ' then [""] + rest else [[s[0]] + rest[0]] + rest[1..]
  }

  /** The distinct words longer than two characters. */
  function Keywords(s: string): set<string> {
    set w | w in SplitAtBlanks(s) && |w| > 2
  }

  ghost function KeywordFraction(query: string, content: string): real {
    var q := Keywords(query);
    if q == {} then 0.0 else |q * Keywords(content)| as real / |q| as real
  }

  /** The fraction of distinct query words found in the content; the cap at 1 never bites. */
  method ComputeKeywordScore(query: string, content: string) returns (score: real)
    ensures score == KeywordFraction(query, content) && 0.0 <= score <= 1.0
  {
    var queryWords := Keywords(query);
    if |queryWords| == 0 { return 0.0; }
    var contentWords := Keywords(content);
    var hits := CountShared(queryWords, contentWords);
    InclusionExclusion(queryWords, contentWords);
    RatioInUnit(hits, |queryWords|);
    score := Min(1.0, hits as real / |queryWords| as real);
  }

  /* ----------------------------- lexical relevance ----------------------------- */

  ghost function LexicalRelevance(rules: TextRules, query: string, content: string): real {
    var nq, nc := rules.normalize(query), rules.normalize(content);
    if nq == "" || nc == "" then 0.0
    else (0.6 * KeywordFraction(nq, nc) + 0.4 * Score(rules, query, content)) * (if |nc| < 20 then 0.8 else 1.0)
  }

  /** The weighted blend itself: the final clamp into [0, 1] never changes it. */
  method ComputeClientRelevance(rules: TextRules, query: string, content: string) returns (relevance: real)
    ensures relevance == LexicalRelevance(rules, query, content) && 0.0 <= relevance <= 1.0
  {
    var nq, nc := rules.normalize(query), rules.normalize(content);
    if |nq| == 0 || |nc| == 0 { return 0.0; }
    var trigramScore := TrigramSimilarity(rules, query, content);
    ScoreProperties(rules, query, content);
    var keywordScore := ComputeKeywordScore(nq, nc);
    var lengthPenalty := if |nc| < 20 then 0.8 else 1.0;
    var raw := (keywordScore * 0.6 + trigramScore * 0.4) * lengthPenalty;
    relevance := Clamp01(raw);
  }

  /* ----------------------------- the score in terms of the words ----------------------------- */

  /** What stands from `i` up to the next blank or the end, with a blank or the start before it. */
  ghost predicate PartAt(s: string, w: string, i: nat) {
    && ' ' !in w && i + |w| <= |s| && s[i..i + |w|] == w
    && (i == 0 || s[i - 1] == ' ') && (i + |w| == |s| || s[i + |w|] == ' ')
  }

  lemma {:induction false} FirstPart(s: string, w: string)
    ensures PartAt(s, w, 0) <==> w == SplitAtBlanks(s)[0]
  {
    if s != "" && s[0] != ' ' {
      var rest := SplitAtBlanks(s[1..])[0];
      FirstPart(s[1..], rest);
      assert s[0..1 + |rest|] == [s[0]] + s[1..][0..|rest|];
      if PartAt(s, w, 0) && w != "" {
        FirstPart(s[1..], w[1..]);
        assert w[0] == s[0] && s[1..][0..|w| - 1] == w[1..];
      }
    }
  }

  lemma PartFurther(s: string, w: string, i: nat)
    requires s != "" && (i > 0 || s[0] == ' ')
    ensures PartAt(s, w, i + 1) <==> PartAt(s[1..], w, i)
  {
    if i + 1 + |w| <= |s| {
      assert s[i + 1..i + 1 + |w|] == s[1..][i..i + |w|];
    }
  }

  lemma {:induction false} PartsOfSplit(s: string, w: string)
    ensures w in SplitAtBlanks(s) <==> exists i: nat :: PartAt(s, w, i)
  {
    FirstPart(s, w);
    if s != "" {
      var parts, rest := SplitAtBlanks(s), SplitAtBlanks(s[1..]);
      FurtherParts(s, w);
      assert parts == [parts[0]] + parts[1..];
    }
  }

  /** The parts after the first are those of the rest of the text, after its first if the text
      does not begin with a blank. */
  lemma {:induction false} FurtherParts(s: string, w: string)
    ensures w in SplitAtBlanks(s)[1..] <==> exists i: nat :: i > 0 && PartAt(s, w, i)
  {
    if s != "" {
      var rest := SplitAtBlanks(s[1..]);
      FurtherParts(s[1..], w);
      FirstPart(s[1..], w);
      forall i: nat | i > 1 || (i > 0 && s[0] == ' ')
        ensures PartAt(s, w, i) <==> PartAt(s[1..], w, i - 1)
      {
        PartFurther(s, w, i - 1);
      }
      assert rest == [rest[0]] + rest[1..];
      if i: nat :| PartAt(s[1..], w, i) && (i > 0 || s[0] == ' ') {
        assert PartAt(s, w, i + 1);
      }
    }
  }

  /** The distinct words of a text: parts of more than two characters. */
  ghost predicate WordsOf(s: string, words: set<string>) {
    forall w :: w in words <==> |w| > 2 && exists i: nat :: PartAt(s, w, i)
  }

  lemma KeywordsAreWords(s: string)
    ensures WordsOf(s, Keywords(s))
  {
    forall w
      ensures w in Keywords(s) <==> |w| > 2 && exists i: nat :: PartAt(s, w, i)
    {
      PartsOfSplit(s, w);
    }
  }

  /** Three fifths of the share of query words that the content has and two fifths of the
      trigram score, less a fifth for contents under 20 characters; nothing for empty texts. */
  lemma RelevanceInFifths(rules: TextRules, query: string, content: string)
    ensures var nq, nc := rules.normalize(query), rules.normalize(content);
      exists asked, found :: WordsOf(nq, asked) && WordsOf(nc, found)
        && var share := if asked == {} then 0.0 else |asked * found| as real / |asked| as real;
           var weighed := (3.0 * share + 2.0 * Score(rules, query, content)) / 5.0;
           LexicalRelevance(rules, query, content) ==
             if nq == "" || nc == "" then 0.0 else if |nc| < 20 then weighed * 4.0 / 5.0 else weighed
  {
    var nq, nc := rules.normalize(query), rules.normalize(content);
    KeywordsAreWords(nq);
    KeywordsAreWords(nc);
    var asked, found := Keywords(nq), Keywords(nc);
    assert WordsOf(nq, asked) && WordsOf(nc, found);
  }

  /** A content that repeats the query (same normal form, some word over two characters, at
      least 20 characters) gets the highest score. */
  lemma PerfectMatchScoresOne(rules: TextRules, query: string, content: string)
    requires rules.normalize(query) == rules.normalize(content)
    requires |rules.normalize(query)| >= 20 && Keywords(rules.normalize(query)) != {}
    ensures LexicalRelevance(rules, query, content) == 1.0
  {
    var q := Keywords(rules.normalize(query));
    assert q * q == q;
  }

  /* ----------------------------- cosine similarity ----------------------------- */

  ghost predicate IsSquareRoot(sqrt: real -> real) {
    forall x: real :: x >= 0.0 ==> sqrt(x) >= 0.0 && sqrt(x) * sqrt(x) == x
  }

  ghost function Dot(a: seq<real>, b: seq<real>, n: nat): real
    requires n <= |a| && n <= |b|
  {
    if n == 0 then 0.0 else Dot(a, b, n - 1) + a[n - 1] * b[n - 1]
  }

  lemma {:induction false} SquaresAreNonNegative(a: seq<real>, n: nat)
    requires n <= |a|
    ensures Dot(a, a, n) >= 0.0
  {
    if n > 0 {
      SquaresAreNonNegative(a, n - 1);
    }
  }

  /** The Cauchy-Schwarz inequality for the accumulated sums. */
  lemma {:induction false} CauchySchwarz(a: seq<real>, b: seq<real>, n: nat)
    requires n <= |a| && n <= |b|
    ensures Dot(a, b, n) * Dot(a, b, n) <= Dot(a, a, n) * Dot(b, b, n)
  {
    if n > 0 {
      CauchySchwarz(a, b, n - 1);
      SquaresAreNonNegative(a, n - 1);
      SquaresAreNonNegative(b, n - 1);
      OneMoreDimension(Dot(a, b, n - 1), Dot(a, a, n - 1), Dot(b, b, n - 1), a[n - 1], b[n - 1]);
    }
  }

  lemma OneMoreDimension(d: real, p: real, q: real, x: real, y: real)
    requires d * d <= p * q && p >= 0.0 && q >= 0.0
    ensures (d + x * y) * (d + x * y) <= (p + x * x) * (q + y * y)
  {
    MixedTerm(d, p, q, x, y);
    var xy := x * y;
    assert (d + xy) * (d + xy) == d * d + 2.0 * (d * xy) + xy * xy;
    assert (p + x * x) * (q + y * y) == p * q + (p * (y * y) + q * (x * x)) + (x * x) * (y * y);
    assert xy * xy == (x * x) * (y * y);
  }

  /** The cross terms: from d^2 <= pq follows 2dxy <= py^2 + qx^2. */
  lemma MixedTerm(d: real, p: real, q: real, x: real, y: real)
    requires d * d <= p * q && p >= 0.0 && q >= 0.0
    ensures 2.0 * (d * (x * y)) <= p * (y * y) + q * (x * x)
  {
    var u, v := p * (y * y), q * (x * x);
    var w := d * (x * y);
    assert u >= 0.0 && v >= 0.0;
    assert w * w == (d * d) * ((x * x) * (y * y));
    assert u * v == (p * q) * ((x * x) * (y * y));
    assert (x * x) * (y * y) >= 0.0;
    ScaleLe(d * d, p * q, (x * x) * (y * y));
    assert 4.0 * (w * w) <= 4.0 * (u * v) <= (u + v) * (u + v) by {
      assert (u + v) * (u + v) - 4.0 * (u * v) == (u - v) * (u - v);
    }
    assert (2.0 * w) * (2.0 * w) == 4.0 * (w * w);
    SquareOrder(2.0 * w, u + v);
  }

  lemma SquareOrder(z: real, s: real)
    requires s >= 0.0 && z * z <= s * s
    ensures -s <= z <= s
  {
    var y := -z;
    assert y * y == z * z;
    if z > s {
      SquareGrows(s, z);
    } else if y > s {
      SquareGrows(s, y);
    }
  }

  lemma SquareGrows(s: real, z: real)
    requires 0.0 <= s < z
    ensures s * s < z * z
  {
    var d, e := z - s, z + s;
    assert d * e > 0.0;
    DifferenceOfSquares(z, s, d, e);
  }

  lemma DifferenceOfSquares(z: real, s: real, d: real, e: real)
    requires d == z - s && e == z + s
    ensures d * e == z * z - s * s
  {
  }

  /** Division by the product of the two lengths. */
  function PerLengths(dot: real, ra: real, rb: real): real {
    if ra * rb == 0.0 then 0.0 else dot / (ra * rb)
  }

  /** Cosine of the common dimensions, 0 when one of the vectors is zero there. */
  ghost function Cosine(a: seq<real>, b: seq<real>, sqrt: real -> real): real {
    var n := if |a| < |b| then |a| else |b|;
    var ma, mb := Dot(a, a, n), Dot(b, b, n);
    if ma == 0.0 || mb == 0.0 then 0.0 else PerLengths(Dot(a, b, n), sqrt(ma), sqrt(mb))
  }

  lemma PerLengthsInUnit(dot: real, ma: real, mb: real, ra: real, rb: real)
    requires ma > 0.0 && mb > 0.0 && dot * dot <= ma * mb
    requires ra >= 0.0 && rb >= 0.0 && ra * ra == ma && rb * rb == mb
    ensures ra * rb > 0.0 && -1.0 <= PerLengths(dot, ra, rb) <= 1.0
  {
    var length := ra * rb;
    assert ra > 0.0 && rb > 0.0;
    assert length * length == ma * mb by {
      assert length * length == (ra * ra) * (rb * rb);
    }
    QuotientInUnit(dot, length);
  }

  lemma QuotientInUnit(dot: real, length: real)
    requires length > 0.0 && dot * dot <= length * length
    ensures -1.0 <= dot / length <= 1.0
  {
    SquareOrder(dot, length);
    var c := dot / length;
    assert c * length == dot;
    if c > 1.0 {
      ScaleLt(1.0, c, length);
    } else if c < -1.0 {
      ScaleLt(c, -1.0, length);
    }
  }

  lemma LengthsArePositive(a: seq<real>, b: seq<real>, n: nat, sqrt: real -> real)
    requires IsSquareRoot(sqrt) && n <= |a| && n <= |b| && Dot(a, a, n) != 0.0 && Dot(b, b, n) != 0.0
    ensures var ra, rb := sqrt(Dot(a, a, n)), sqrt(Dot(b, b, n));
      ra * rb > 0.0 && -1.0 <= PerLengths(Dot(a, b, n), ra, rb) <= 1.0
  {
    SquaresAreNonNegative(a, n);
    SquaresAreNonNegative(b, n);
    CauchySchwarz(a, b, n);
    PerLengthsInUnit(Dot(a, b, n), Dot(a, a, n), Dot(b, b, n), sqrt(Dot(a, a, n)), sqrt(Dot(b, b, n)));
  }

  /** The cosine lies within [-1, 1], and the source never divides by zero. */
  lemma CosineInUnit(a: seq<real>, b: seq<real>, sqrt: real -> real)
    requires IsSquareRoot(sqrt)
    ensures -1.0 <= Cosine(a, b, sqrt) <= 1.0
    ensures var n := if |a| < |b| then |a| else |b|;
            var ma, mb := Dot(a, a, n), Dot(b, b, n);
            ma != 0.0 && mb != 0.0 ==> sqrt(ma) * sqrt(mb) > 0.0
  {
    var n := if |a| < |b| then |a| else |b|;
    if Dot(a, a, n) != 0.0 && Dot(b, b, n) != 0.0 {
      LengthsArePositive(a, b, n, sqrt);
    }
  }

  lemma PerLengthsTimes(dot: real, ra: real, rb: real)
    requires ra * rb > 0.0
    ensures PerLengths(dot, ra, rb) * (ra * rb) == dot
  {
    QuotientTimes(dot, ra * rb);
  }

  lemma QuotientTimes(dot: real, length: real)
    requires length > 0.0
    ensures dot / length * length == dot
  {
  }

  /** The cosine times the product of the two lengths is the dot product of the common
      dimensions; without one of the lengths it is 0. */
  lemma CosineIsNormalisedDot(a: seq<real>, b: seq<real>, sqrt: real -> real, n: nat, ra: real, rb: real)
    requires IsSquareRoot(sqrt) && n == (if |a| < |b| then |a| else |b|)
    requires ra == sqrt(Dot(a, a, n)) && rb == sqrt(Dot(b, b, n))
    ensures if Dot(a, a, n) == 0.0 || Dot(b, b, n) == 0.0 then Cosine(a, b, sqrt) == 0.0
      else Cosine(a, b, sqrt) * (ra * rb) == Dot(a, b, n)
  {
    if Dot(a, a, n) != 0.0 && Dot(b, b, n) != 0.0 {
      LengthsArePositive(a, b, n, sqrt);
      PerLengthsTimes(Dot(a, b, n), ra, rb);
      assert Cosine(a, b, sqrt) == PerLengths(Dot(a, b, n), ra, rb);
    }
  }

  /** Accumulates the three sums in one pass. */
  method CosineSimilarity(a: seq<real>, b: seq<real>, sqrt: real -> real) returns (cos: real)
    ensures cos == Cosine(a, b, sqrt)
    ensures IsSquareRoot(sqrt) ==> -1.0 <= cos <= 1.0
  {
    var n := if |a| < |b| then |a| else |b|;
    var dot, ma, mb := 0.0, 0.0, 0.0;
    for i := 0 to n
      invariant dot == Dot(a, b, i) && ma == Dot(a, a, i) && mb == Dot(b, b, i)
    {
      dot := dot + a[i] * b[i];
      ma := ma + a[i] * a[i];
      mb := mb + b[i] * b[i];
    }
    cos := if ma == 0.0 || mb == 0.0 then 0.0 else PerLengths(dot, sqrt(ma), sqrt(mb));
    if IsSquareRoot(sqrt) {
      CosineInUnit(a, b, sqrt);
    }
  }

  /* ----------------------------- the hybrid blend ----------------------------- */

  function CombineRelevance(lexical: real, vector: Option<real>, vectorWeight: real): real {
    match vector
    case None => Clamp01(lexical)
    case Some(v) =>
      var w := Max(0.0, Min(1.0, vectorWeight));
      Clamp01(lexical * (1.0 - w) + Max(0.0, v) * w)
  }

  lemma ConvexBetween(x: real, y: real, gap: real, w: real)
    requires 0.0 <= w <= 1.0 && gap == y - x
    ensures Min(x, y) <= x + w * gap <= Max(x, y)
    ensures x * (1.0 - w) + y * w == x + w * gap
  {
  }

  /** The blend without the source's final clamp. */
  ghost function Blend(lexical: real, cos: real, weight: real): real {
    lexical + Clamp01(weight) * (Max(0.0, cos) - lexical)
  }

  /** On the values the two channels can take, the blend is a convex combination of them that
      the final clamp leaves alone: it lies between its channels, weight 0 gives the lexical
      score, weight 1 the positive part of the cosine. */
  lemma BlendIsConvex(lexical: real, cos: real, weight: real)
    requires 0.0 <= lexical <= 1.0 && -1.0 <= cos <= 1.0
    ensures CombineRelevance(lexical, Some(cos), weight) == Blend(lexical, cos, weight)
    ensures Min(lexical, Max(0.0, cos)) <= Blend(lexical, cos, weight) <= Max(lexical, Max(0.0, cos))
    ensures weight <= 0.0 ==> Blend(lexical, cos, weight) == lexical
    ensures weight >= 1.0 ==> Blend(lexical, cos, weight) == Max(0.0, cos)
  {
    var v, w := Max(0.0, cos), Clamp01(weight);
    ConvexBetween(lexical, v, v - lexical, w);
  }

  /** Between the ends it is the weighted mean, whatever the channels are. */
  lemma BlendIsWeightedMean(lexical: real, cos: real, weight: real)
    requires 0.0 <= weight <= 1.0
    ensures Blend(lexical, cos, weight) == lexical * (1.0 - weight) + (if cos > 0.0 then cos else 0.0) * weight
  {
    var v := if cos > 0.0 then cos else 0.0;
    assert v == Max(0.0, cos) && weight == Clamp01(weight);
    ConvexBetween(lexical, v, v - lexical, weight);
  }

  datatype Embeddings = NoEmbeddings | Both(query: seq<real>, content: seq<real>)

  /** The convex blend of the lexical score with the positive part of the cosine of the
      embeddings; the lexical score itself when there are none. */
  method ComputeHybridRelevance(rules: TextRules, query: string, content: string, embeddings: Embeddings,
                                vectorWeight: real, sqrt: real -> real)
    returns (relevance: real)
    requires IsSquareRoot(sqrt)
    ensures 0.0 <= relevance <= 1.0
    ensures embeddings.NoEmbeddings? ==> relevance == LexicalRelevance(rules, query, content)
    ensures embeddings.Both? ==>
      relevance == Blend(LexicalRelevance(rules, query, content),
                         Cosine(embeddings.query, embeddings.content, sqrt), vectorWeight)
  {
    var lexical := ComputeClientRelevance(rules, query, content);
    if embeddings.NoEmbeddings? {
      return lexical;
    }
    var cos := CosineSimilarity(embeddings.query, embeddings.content, sqrt);
    BlendIsConvex(lexical, cos, vectorWeight);
    relevance := CombineRelevance(lexical, Some(cos), vectorWeight);
  }
}
