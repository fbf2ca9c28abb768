/** What strings and numbers contribute to the agreement of validator and draft-07, as conditions
    on the keywords: lengths, bounds and divisors. */
module LeafAgreement {
  import opened Basics
  import opened JsonValues
  import opened JsonSchema
  import opened DraftSeven
  import opened SchemaWitnesses
  import opened SchemaAgreement

  /* ------------------------------- strings ------------------------------- */

  predicate Patternless(s: Schema) {
    s.pattern.None? && s.format != Some("uri") && s.format != Some("email")
  }

  /** A text of one unit a character. */
  function Ascii(n: nat): string { seq(n, _ => 'a') }

  lemma {:induction false} UnitsOfAscii(n: nat)
    ensures |Ascii(n)| == n && Units(Ascii(n)) == n
  {
    if n > 0 {
      assert Ascii(n)[..n - 1] == Ascii(n - 1);
      UnitsOfAscii(n - 1);
    }
  }

  /** Without patterns, exactly when counting units instead of characters makes no difference:
      every positive length is allowed, or none. */
  lemma TextsAgreeIff(rules: Rules, s: Schema)
    requires Patternless(s) && Lists(s, TString)
    ensures TextsAgree(rules, s) <==> LengthsAgree(s)
  {
    if LengthsAgree(s) {
      forall t
        ensures StringValid(rules, t, s) <==> DraftString(rules, t, s)
      {
        LengthsAgreeOn(t, s);
      }
    } else {
      var n := DisagreeingLength(s);
      UnitsOfAstral(n);
      assert StringValid(rules, Astral(n), s) <==> TextAllowed(s, 2 * n);
      assert DraftString(rules, Astral(n), s) <==> TextAllowed(s, n);
    }
  }

  /** A length whose double gets another verdict. */
  lemma DisagreeingLength(s: Schema) returns (n: nat)
    requires !LengthsAgree(s)
    ensures TextAllowed(s, n) != TextAllowed(s, 2 * n)
  {
    if s.maxLength.Some? {
      n := s.maxLength.value.Floor;
      assert FirstText(s) <= n;
    } else {
      n := FirstText(s) - 1;
      assert 2 * n >= FirstText(s);
    }
  }

  /** Without patterns, exactly when some text is short and long enough. */
  lemma SomeStringIff(side: Side, rules: Rules, s: Schema)
    requires Patternless(s) && Lists(s, TString)
    ensures SomeString(side, rules, s) <==> TextAllowed(s, FirstText(s)) || (side.Draft? && TextAllowed(s, 0))
  {
    UnitsOfAscii(FirstText(s));
    UnitsOfAscii(0);
    if TextAllowed(s, FirstText(s)) {
      assert Counts(side, VStr(Ascii(FirstText(s)))) && StringHolds(side, rules, Ascii(FirstText(s)), s);
    }
    if side.Draft? && TextAllowed(s, 0) {
      assert Counts(side, VStr(Ascii(0))) && StringHolds(side, rules, Ascii(0), s);
    }
    if SomeString(side, rules, s) {
      var u :| Counts(side, VStr(u)) && StringHolds(side, rules, u, s);
      UnitsBounds(u);
      if u != "" {
        ShortestAllowed(s, if side.Draft? then |u| else Units(u));
      }
    }
  }

  lemma IntegerOrder(a: int, b: int)
    ensures a as real < b as real ==> a < b
  {
  }

  lemma ShortestAllowed(s: Schema, k: nat)
    requires TextAllowed(s, k) && k > 0
    ensures TextAllowed(s, FirstText(s))
  {
    var first := FirstText(s);
    IntegerOrder(first - 1, k);
    assert first <= k && first as real <= k as real;
  }

  /** Without patterns, exactly when the draft takes every text. */
  lemma EveryTextIff(rules: Rules, s: Schema)
    requires Patternless(s)
    ensures (forall t :: DraftString(rules, t, s)) <==>
      (s.minLength.Some? ==> s.minLength.value <= 0.0) && s.maxLength.None?
  {
    if s.minLength.Some? && s.minLength.value > 0.0 {
      assert !DraftString(rules, "", s);
    } else if s.maxLength.Some? {
      var n := if s.maxLength.value < 0.0 then 0 else s.maxLength.value.Floor + 1;
      UnitsOfAscii(n);
      assert !DraftString(rules, Ascii(n), s);
    }
  }

  /* ------------------------------- numbers ------------------------------- */

  /** Some lower and some upper bound both stand. */
  predicate TwoSided(s: Schema) {
    (s.minimum.Some? || s.exclusiveMinimum.Some?) && (s.maximum.Some? || s.exclusiveMaximum.Some?)
  }

  lemma NumbersAgreeWithoutDivisor(s: Schema)
    requires DividesNothing(s)
    ensures NumbersAgree(s)
  {
  }

  /** A number just off a multiple. */
  lemma NearMissAt(k: int, x: real, m: real, n: real)
    requires m > 0.0 && x == k as real + 0.0000000005 && n == x * m
    ensures NearInteger(n / m) && forall j: int :: !IsMultiple(n, m, j)
  {
    assert n / m == x;
    assert Near(x, k);
    forall j: int
      ensures !IsMultiple(n, m, j)
    {
      if n == j as real * m {
        CancelFactor(x, j as real, m);
      }
    }
  }

  lemma MultipleAbove(bound: real, m: real) returns (k: int)
    requires m > 0.0
    ensures k as real * m > bound
  {
    k := (bound / m).Floor + 1;
    TimesMonotone(bound / m, k as real, m);
  }

  lemma MultipleBelow(bound: real, m: real) returns (k: int)
    requires m > 0.0
    ensures (k + 1) as real * m < bound
  {
    k := (bound / m).Floor - 2;
    TimesMonotone((k + 1) as real, bound / m, m);
  }

  lemma TimesMonotone(x: real, y: real, m: real)
    requires x < y && m > 0.0
    ensures x * m < y * m
  {
  }

  /** A number above all lower bounds, or below all upper ones. */
  predicate Clears(s: Schema, n: real) {
    && (s.minimum.Some? ==> n >= s.minimum.value) && (s.exclusiveMinimum.Some? ==> n > s.exclusiveMinimum.value)
    && (s.maximum.Some? ==> n <= s.maximum.value) && (s.exclusiveMaximum.Some? ==> n < s.exclusiveMaximum.value)
  }

  function OrZero(x: Option<real>): real { if x.Some? then x.value else 0.0 }

  function Highest(s: Schema): real {
    var a, b := OrZero(s.minimum), OrZero(s.exclusiveMinimum);
    if a < b then b else a
  }

  function Lowest(s: Schema): real {
    var a, b := OrZero(s.maximum), OrZero(s.exclusiveMaximum);
    if a < b then a else b
  }

  /** With a positive divisor, numbers of all kinds and a side without bounds, never. */
  lemma DivisorOfNumbersDisagrees(s: Schema)
    requires !DividesNothing(s) && Lists(s, TNumber) && !TwoSided(s)
    ensures !NumbersAgree(s)
  {
    var m := s.multipleOf.value;
    var k: int;
    var x: real;
    if s.maximum.None? && s.exclusiveMaximum.None? {
      k := MultipleAbove(Highest(s), m);
      x := k as real + 0.0000000005;
      TimesMonotone(k as real, x, m);
    } else {
      k := MultipleBelow(Lowest(s), m);
      x := k as real + 0.0000000005;
      TimesMonotone(x, (k + 1) as real, m);
    }
    var n := x * m;
    NearMissAt(k, x, m, n);
    assert Clears(s, n);
    assert AllowsNumber(s, n) && NumberValid(n, s) && !DraftNumber(n, s);
  }

  /* ------------------------------- integers ------------------------------- */

  predicate IsTimes(a: int, d: int, k: int) { a == k * d }

  ghost predicate Divides(d: int, a: int) { exists k: int :: IsTimes(a, d, k) }

  ghost predicate Coprime(a: nat, b: nat) {
    forall d :: d > 1 && Divides(d, a) ==> !Divides(d, b)
  }

  lemma DividesSum(d: int, a: int, b: int)
    ensures Divides(d, a) && Divides(d, b) ==> Divides(d, a + b)
  {
    if Divides(d, a) && Divides(d, b) {
      var j: int :| IsTimes(a, d, j);
      var k: int :| IsTimes(b, d, k);
      assert IsTimes(a + b, d, j + k);
    }
  }

  lemma DividesItself(d: int)
    ensures Divides(d, d)
  {
    assert IsTimes(d, d, 1);
  }

  /** Taking one from the other keeps two numbers coprime. */
  lemma CoprimeDifference(a: nat, b: nat)
    requires Coprime(a, b) && a > b
    ensures Coprime(a - b, b)
  {
    forall d | d > 1 && Divides(d, a - b)
      ensures !Divides(d, b)
    {
      DividesSum(d, a - b, b);
    }
  }

  /** Some multiple of `q` is one more than a multiple of `p`. */
  lemma {:induction false} OneApart(p: nat, q: nat) returns (i: int, k: int)
    requires p > 0 && q > 0 && Coprime(p, q)
    ensures i * q - k * p == 1
    decreases p + q
  {
    if p == 1 {
      i, k := 0, -1;
    } else if q == 1 {
      i, k := 1, 0;
    } else if p == q {
      DividesItself(p);
      assert false;
    } else if p > q {
      CoprimeDifference(p, q);
      i, k := OneApart(p - q, q);
      i := i + k;
      Spread(k, p, q);
    } else {
      assert Coprime(q, p);
      CoprimeDifference(q, p);
      assert Coprime(p, q - p);
      i, k := OneApart(p, q - p);
      k := k + i;
      Spread(i, q, p);
    }
  }

  lemma Spread(k: int, a: int, b: int)
    ensures k * (a - b) == k * a - k * b
  {
  }

  /** The same further up or down. */
  lemma Shifted(i: int, k: int, p: nat, q: nat, t: int)
    requires i * q - k * p == 1
    ensures (i + t * p) * q - (k + t * q) * p == 1
  {
    assert (i + t * p) * q == i * q + t * p * q;
    assert (k + t * q) * p == k * p + t * q * p;
  }

  /** An integer that far from a multiple of p/q is near it once p is large. */
  lemma NearMissOfRatio(i: int, k: int, m: real, p: nat, q: nat, n: real)
    requires IsRatio(m, p, q) && m > 0.0 && p >= BILLION && i * q - k * p == 1 && n == i as real
    ensures NearInteger(n / m) && forall j: int :: !IsMultiple(n, m, j)
  {
    var x := n / m;
    assert x * m == n;
    RatioTimes(x, m, i, p, q);
    OneOver(x, k as real, p as real, i, k, p, q);
    assert Near(x, k);
    forall j: int
      ensures !IsMultiple(n, m, j)
    {
      if n == j as real * m {
        CancelFactor(x, j as real, m);
        NoneBetween(j, k, p);
        IntegerProduct(x, j, p as real, p);
      }
    }
  }

  lemma OneOver(x: real, z: real, c: real, i: int, k: int, p: nat, q: nat)
    requires z == k as real && c == p as real && p >= BILLION && i * q - k * p == 1 && x * c == (i * q) as real
    ensures 0.0 <= x - z <= 0.000000001
  {
    IntegerProduct(z, k, c, p);
    var e := x - z;
    assert e * c == x * c - z * c;
    assert e * c == 1.0;
    SmallFactor(e, c);
  }

  lemma SmallFactor(e: real, c: real)
    requires e * c == 1.0 && c >= 1000000000.0
    ensures 0.0 <= e <= 0.000000001
  {
    if e > 0.000000001 {
      TimesMonotone(0.000000001, e, c);
    } else if e < 0.0 {
      TimesMonotone(e, 0.0, c);
    }
  }

  lemma NoneBetween(j: int, k: int, p: nat)
    requires p > 1
    ensures j * p - k * p != 1
  {
    assert j * p - k * p == (j - k) * p;
  }

  lemma FarEnough(s: Schema, i: int, p: nat) returns (t: int)
    requires p > 0 && !TwoSided(s)
    ensures Clears(s, (i + t * p) as real)
  {
    if s.maximum.None? && s.exclusiveMaximum.None? {
      var bound := Highest(s).Floor + 1;
      t := Magnitude(bound - i);
      FurtherThan(t, p);
      assert (i + t * p) as real >= bound as real;
    } else {
      var bound := Lowest(s).Floor - 1;
      t := 0 - Magnitude(i - bound);
      FurtherThan(t, p);
      assert (i + t * p) as real <= bound as real;
    }
  }

  /** An integer of that kind above, or below, any bound. */
  lemma NearMissBeyond(s: Schema, m: real, p: nat, q: nat) returns (n: real)
    requires IsRatio(m, p, q) && m > 0.0 && p >= BILLION && Coprime(p, q) && !TwoSided(s)
    ensures Clears(s, n) && (exists i: int :: Equals(n, i)) && NearInteger(n / m)
      && forall j: int :: !IsMultiple(n, m, j)
  {
    var i, k := OneApart(p, q);
    var t := FarEnough(s, i, p);
    Shifted(i, k, p, q, t);
    var l := i + t * p;
    n := l as real;
    assert Equals(n, l);
    NearMissOfRatio(l, k + t * q, m, p, q, n);
  }

  function Magnitude(x: int): nat { if x < 0 then -x else x }

  lemma FurtherThan(t: int, p: nat)
    requires p > 0
    ensures (t >= 0 ==> t * p >= t) && (t <= 0 ==> t * p <= t)
  {
  }

  /** With integers only, a divisor p/q in lowest terms and a side without bounds, exactly if p is
      under 10^9. */
  lemma IntegerDivisorAgreesIff(s: Schema, p: nat, q: nat)
    requires s.multipleOf.Some? && IsRatio(s.multipleOf.value, p, q) && Coprime(p, q)
    requires Lists(s, TInteger) && !Lists(s, TNumber) && !TwoSided(s)
    ensures NumbersAgree(s) <==> p < BILLION
  {
    var m := s.multipleOf.value;
    RatioIsPositive(m, p, q);
    if p < BILLION {
      SmallDivisorAgrees(s, p, q);
    } else {
      var n := NearMissBeyond(s, m, p, q);
      assert AllowsNumber(s, n) && NumberValid(n, s) && !DraftNumber(n, s);
    }
  }

  lemma NotPositive(m: real, c: real)
    requires m <= 0.0 && c > 0.0
    ensures m * c <= 0.0
  {
  }

  lemma RatioIsPositive(m: real, p: nat, q: nat)
    requires IsRatio(m, p, q)
    ensures m > 0.0
  {
    if m <= 0.0 {
      NotPositive(m, q as real);
    }
  }

  /** For such a divisor any bounds will do. */
  lemma SmallDivisorAgrees(s: Schema, p: nat, q: nat)
    requires s.multipleOf.Some? && IsRatio(s.multipleOf.value, p, q) && p < BILLION && !Lists(s, TNumber)
    ensures NumbersAgree(s)
  {
    var m := s.multipleOf.value;
    RatioIsPositive(m, p, q);
    forall n | AllowsNumber(s, n)
      ensures NumberValid(n, s) <==> DraftNumber(n, s)
    {
      var i: int :| Equals(n, i);
      if NearInteger(n / m) {
        IntegerNearMultipleIsMultiple(n, i, m, p, q);
      }
      if exists k: int :: IsMultiple(n, m, k) {
        var k: int :| IsMultiple(n, m, k);
        MultiplesAreNear(n, m, k);
      }
    }
  }

  /* ------------------------------- some number ------------------------------- */

  /** Without bounds, exactly when numbers are allowed: zero is a multiple of everything. */
  lemma SomeNumberWithoutBounds(side: Side, s: Schema)
    requires BoundsNothing(s)
    ensures SomeNumber(side, s) <==> Lists(s, TNumber) || Lists(s, TInteger)
  {
    if Lists(s, TNumber) || Lists(s, TInteger) {
      assert Equals(0.0, 0);
      if s.multipleOf.Some? && s.multipleOf.value > 0.0 {
        assert IsMultiple(0.0, s.multipleOf.value, 0);
        MultiplesAreNear(0.0, s.multipleOf.value, 0);
      }
      assert AllowsNumber(s, 0.0) && NumberHolds(side, 0.0, s);
    }
  }

  predicate BoundsMeet(s: Schema) {
    && (s.minimum.Some? && s.maximum.Some? ==> s.minimum.value <= s.maximum.value)
    && (s.minimum.Some? && s.exclusiveMaximum.Some? ==> s.minimum.value < s.exclusiveMaximum.value)
    && (s.exclusiveMinimum.Some? && s.maximum.Some? ==> s.exclusiveMinimum.value < s.maximum.value)
    && (s.exclusiveMinimum.Some? && s.exclusiveMaximum.Some? ==> s.exclusiveMinimum.value < s.exclusiveMaximum.value)
  }

  /** Without a divisor and with all numbers allowed, exactly when no two bounds exclude each other. */
  lemma SomeNumberIff(side: Side, s: Schema)
    requires DividesNothing(s) && Lists(s, TNumber)
    ensures SomeNumber(side, s) <==> BoundsMeet(s)
  {
    if BoundsMeet(s) {
      var n := Between(s);
      assert AllowsNumber(s, n) && NumberHolds(side, n, s);
    }
  }

  lemma Between(s: Schema) returns (n: real)
    requires BoundsMeet(s)
    ensures Clears(s, n)
  {
    var low := if s.minimum.Some? && (s.exclusiveMinimum.None? || s.minimum.value > s.exclusiveMinimum.value)
               then s.minimum else s.exclusiveMinimum;
    var high := if s.maximum.Some? && (s.exclusiveMaximum.None? || s.maximum.value < s.exclusiveMaximum.value)
                then s.maximum else s.exclusiveMaximum;
    n := if low.Some? && high.Some? then (low.value + high.value) / 2.0
         else if low.Some? then low.value + 1.0
         else if high.Some? then high.value - 1.0
         else 0.0;
  }
}
