/** How the validator's own rules differ from JSON Schema Validation draft-07: the relation of the
    draft for the same keywords, and the schemas for which both give every value one verdict. */
module DraftSeven {
  import opened Basics
  import opened JsonValues
  import opened JsonSchema

  /* ------------------------------- the draft's relation ------------------------------- */

  /** Lengths count characters (sections 6.3.1 and 6.3.2). */
  ghost predicate DraftString(rules: Rules, t: string, s: Schema) {
    && (s.minLength.Some? ==> |t| as real >= s.minLength.value)
    && (s.maxLength.Some? ==> |t| as real <= s.maxLength.value)
    && (s.pattern.Some? ==>
          rules.compile(s.pattern.value).Some? && rules.compile(s.pattern.value).value(t))
    && (s.format == Some("uri") ==> rules.isUri(t))
    && (s.format == Some("email") ==> rules.isEmail(t))
  }

  predicate IsMultiple(n: real, m: real, k: int) { n == k as real * m }

  /** Division by the divisor gives an integer (section 6.2.1). */
  ghost predicate DraftNumber(n: real, s: Schema) {
    && (s.minimum.Some? ==> n >= s.minimum.value)
    && (s.maximum.Some? ==> n <= s.maximum.value)
    && (s.exclusiveMinimum.Some? ==> n > s.exclusiveMinimum.value)
    && (s.exclusiveMaximum.Some? ==> n < s.exclusiveMaximum.value)
    && (s.multipleOf.Some? && s.multipleOf.value > 0.0 ==> exists k: int :: IsMultiple(n, s.multipleOf.value, k))
  }

  predicate DeclaredIn(props: Properties, key: string) {
    props.Properties? && Declared(props.list, key)
  }

  /** A required property only has to be there (section 6.5.3); additional properties are
      restricted with or without `properties` (section 6.5.6). */
  ghost predicate DraftValid(rules: Rules, v: Value, s: Schema)
    decreases s, 1
  {
    && (s.types.Some? ==> exists t :: t in s.types.value && HasType(v, t))
    && (s.constant.Some? ==> v == Meaning(s.constant.value))
    && (s.enumeration.Some? ==>
          exists i :: 0 <= i < |s.enumeration.value| && v == Meaning(s.enumeration.value[i]))
    && (v.VStr? ==> DraftString(rules, v.s, s))
    && (v.VNum? ==> DraftNumber(v.n, s))
    && (v.VArr? ==> CountValid(v.items, s))
    && (v.VArr? && s.items.Some? ==> forall i :: 0 <= i < |v.items| ==> DraftValid(rules, v.items[i], s.items.value))
    && (v.VObj? ==> DraftObject(rules, v.fields, s))
  }

  ghost predicate DraftObject(rules: Rules, fields: map<string, Value>, s: Schema)
    decreases s, 0
  {
    && (forall key :: key in s.required ==> key in fields)
    && (s.properties.Properties? ==>
          forall i :: 0 <= i < |s.properties.list| && s.properties.list[i].key in fields ==>
            DraftValid(rules, fields[s.properties.list[i].key], s.properties.list[i].schema))
    && (s.additional.Forbidden? ==> forall key :: key in fields ==> DeclaredIn(s.properties, key))
    && (s.additional.MustMatch? ==>
          forall key :: key in fields && !DeclaredIn(s.properties, key) ==>
            DraftValid(rules, fields[key], s.additional.schema))
  }

  /* ------------------------------- one keyword at a time ------------------------------- */

  /** A run of characters beyond the basic plane. */
  function Astral(n: nat): string { seq(n, _ => '\U{1F600}') }

  lemma {:induction false} UnitsOfAstral(n: nat)
    ensures Units(Astral(n)) == 2 * n
  {
    if n > 0 {
      assert Astral(n)[..n - 1] == Astral(n - 1);
      UnitsOfAstral(n - 1);
    }
  }

  lemma {:induction false} UnitsBounds(t: string)
    ensures |t| <= Units(t) <= 2 * |t|
  {
    if t != "" {
      UnitsBounds(t[..|t| - 1]);
    }
  }

  /** A lower bound on the length means the same exactly up to 1. */
  lemma MinLengthAgreesIff(m: real)
    ensures (forall t: string :: Units(t) as real >= m <==> |t| as real >= m) <==> m <= 1.0
  {
    if m <= 1.0 {
      forall t: string
        ensures Units(t) as real >= m <==> |t| as real >= m
      {
        UnitsBounds(t);
      }
    } else {
      var n := -((-m).Floor) - 1;
      UnitsOfAstral(n);
      assert |Astral(n)| == n;
      assert !(n as real >= m) && (2 * n) as real >= m;
    }
  }

  /** An upper bound means the same exactly below 1. */
  lemma MaxLengthAgreesIff(m: real)
    ensures (forall t: string :: Units(t) as real <= m <==> |t| as real <= m) <==> m < 1.0
  {
    if m < 1.0 {
      forall t: string
        ensures Units(t) as real <= m <==> |t| as real <= m
      {
        UnitsBounds(t);
      }
    } else {
      var n := m.Floor;
      UnitsOfAstral(n);
      assert |Astral(n)| == n;
      assert n as real <= m && !((2 * n) as real <= m);
    }
  }

  /** No positive divisor means the same: there is always a number just off a multiple. */
  lemma NearMultipleIsNotMultiple(m: real)
    requires m > 0.0
    ensures var n := 1.0000000005 * m; NearInteger(n / m) && forall k: int :: !IsMultiple(n, m, k)
  {
    var n := 1.0000000005 * m;
    assert n / m == 1.0000000005;
    assert Near(n / m, 1);
    forall k: int
      ensures !IsMultiple(n, m, k)
    {
      if n == k as real * m {
        CancelFactor(1.0000000005, k as real, m);
      }
    }
  }

  lemma CancelFactor(x: real, y: real, m: real)
    requires m > 0.0 && x * m == y * m
    ensures x == y
  {
    assert (x - y) * m == 0.0;
  }

  lemma MultiplesAreNear(n: real, m: real, k: int)
    requires m > 0.0 && IsMultiple(n, m, k)
    ensures NearInteger(n / m)
  {
    assert n / m == k as real;
    assert Near(n / m, k);
  }

  /** Is a text of `k` characters, one unit each, long and short enough? */
  predicate TextAllowed(s: Schema, k: nat) {
    && (s.minLength.Some? ==> k as real >= s.minLength.value)
    && (s.maxLength.Some? ==> k as real <= s.maxLength.value)
  }

  /** The least positive length that `minLength` allows. */
  function FirstText(s: Schema): (k: nat)
    ensures k > 0 && (s.minLength.Some? ==> k as real >= s.minLength.value)
    ensures k > 1 ==> s.minLength.Some? && (k - 1) as real < s.minLength.value
  {
    if s.minLength.None? || s.minLength.value <= 1.0 then 1 else Ceiling(s.minLength.value)
  }

  function Ceiling(x: real): (k: int)
    ensures (k - 1) as real < x <= k as real
  {
    -((-x).Floor)
  }

  /** Either every positive length is allowed or none. */
  predicate LengthsAgree(s: Schema) {
    || (s.maxLength.None? && FirstText(s) == 1)
    || !TextAllowed(s, FirstText(s))
  }

  lemma LengthsAgreeOn(t: string, s: Schema)
    requires LengthsAgree(s)
    ensures TextAllowed(s, |t|) <==> TextAllowed(s, Units(t))
  {
    UnitsBounds(t);
    if t != "" {
      PositiveLengthsAgree(|t|, s);
      PositiveLengthsAgree(Units(t), s);
    }
  }

  lemma PositiveLengthsAgree(k: nat, s: Schema)
    requires LengthsAgree(s) && k > 0
    ensures TextAllowed(s, k) <==> TextAllowed(s, FirstText(s))
  {
    if k < FirstText(s) {
      assert k as real <= (FirstText(s) - 1) as real;
    } else {
      assert k as real >= FirstText(s) as real;
    }
  }

  /** A schema that refuses null and the empty string, so that requiring the property asks for no
      more than the draft does. */
  predicate RefusesEmpty(s: Schema) {
    && s.types.Some? && TNull !in s.types.value
    && (TString in s.types.value ==> s.minLength.Some? && s.minLength.value > 0.0)
  }

  predicate Guarded(props: Properties, key: string) {
    props.Properties? && exists i ::
      0 <= i < |props.list| && props.list[i].key == key && RefusesEmpty(props.list[i].schema)
  }

  /** A positive divisor stands only beside the type integer, and is the ratio of two positive
      integers of which the first is under 10^9: no integer is close to one of its multiples
      without being one. */
  ghost predicate DivisorAgrees(s: Schema) {
    s.multipleOf.Some? && s.multipleOf.value > 0.0 ==>
      && s.types.Some? && TNumber !in s.types.value
      && exists p: nat, q: nat :: IsRatio(s.multipleOf.value, p, q) && p < BILLION
  }

  const BILLION := 1_000_000_000

  predicate IsRatio(m: real, p: nat, q: nat) { p > 0 && q > 0 && m * q as real == p as real }

  /** An integer near a multiple of such a divisor is a multiple. */
  lemma IntegerNearMultipleIsMultiple(n: real, i: int, m: real, p: nat, q: nat)
    requires Equals(n, i) && IsRatio(m, p, q) && p < BILLION && m > 0.0 && NearInteger(n / m)
    ensures exists k: int :: IsMultiple(n, m, k)
  {
    var x := n / m;
    var k: int :| Near(x, k);
    assert x * m == n;
    RatioTimes(x, m, i, p, q);
    LessThanOne(x, x - k as real, k, i * q, p as real);
    assert IsMultiple(n, m, k);
  }

  lemma RatioTimes(x: real, m: real, i: int, p: nat, q: nat)
    requires IsRatio(m, p, q) && x * m == i as real
    ensures x * p as real == (i * q) as real
  {
    assert x * (m * q as real) == (x * m) * q as real;
  }

  lemma SmallTimes(e: real, c: real)
    requires -0.000000001 <= e <= 0.000000001 && 0.0 < c < BILLION as real
    ensures -1.0 < e * c < 1.0
  {
    assert e * c <= 0.000000001 * c;
    assert -0.000000001 * c <= e * c;
  }

  /** Multiplied out, the distance is that of two integers less than one apart. */
  lemma LessThanOne(x: real, e: real, k: int, a: int, c: real)
    requires 0.0 < c < BILLION as real && c == c.Floor as real && x * c == a as real
    requires e == x - k as real && -0.000000001 <= e <= 0.000000001
    ensures x == k as real
  {
    SmallTimes(e, c);
    var z := k as real;
    assert e * c == x * c - z * c;
    IntegerProduct(z, k, c, c.Floor);
    SameInteger(x * c, a, z * c, k * c.Floor, e * c);
    CancelFactor(x, z, c);
  }

  lemma SameInteger(x: real, a: int, y: real, b: int, e: real)
    requires x == a as real && y == b as real && e == x - y && -1.0 < e < 1.0
    ensures x == y
  {
    assert -1 < a - b < 1;
  }

  lemma IntegerProduct(x: real, a: int, y: real, b: int)
    requires x == a as real && y == b as real
    ensures x * y == (a * b) as real
  {
  }

  /** A condition on the schema alone. */
  ghost predicate Conforming(s: Schema) {
    && LengthsAgree(s) && DivisorAgrees(s)
    && (forall key :: key in s.required ==> Guarded(s.properties, key))
    && (s.properties.Undeclared? ==> s.additional.Unrestricted?)
    && (s.properties.Properties? ==> forall i :: 0 <= i < |s.properties.list| ==>
      Conforming(s.properties.list[i].schema))
    && (s.items.Some? ==> Conforming(s.items.value))
    && (s.additional.MustMatch? ==> Conforming(s.additional.schema))
  }

  lemma EmptyIsRefused(rules: Rules, v: Value, s: Schema)
    requires RefusesEmpty(s) && DraftValid(rules, v, s)
    ensures v != VNull && v != VStr("")
  {
  }

  lemma RequiredAgrees(rules: Rules, fields: map<string, Value>, s: Schema)
    requires Conforming(s) && DraftObject(rules, fields, s)
    ensures forall key :: key in s.required ==> Present(fields, key)
  {
    forall key | key in s.required
      ensures Present(fields, key)
    {
      var i :| 0 <= i < |s.properties.list| && s.properties.list[i].key == key
        && RefusesEmpty(s.properties.list[i].schema);
      EmptyIsRefused(rules, fields[key], s.properties.list[i].schema);
    }
  }

  lemma StringsAgree(rules: Rules, t: string, s: Schema)
    requires Conforming(s)
    ensures StringValid(rules, t, s) <==> DraftString(rules, t, s)
  {
    LengthsAgreeOn(t, s);
  }

  lemma DivisorsAgree(n: real, s: Schema)
    requires Conforming(s) && (s.types.Some? ==> exists t :: t in s.types.value && HasType(VNum(n), t))
    ensures NumberValid(n, s) <==> DraftNumber(n, s)
  {
    if s.multipleOf.Some? && s.multipleOf.value > 0.0 {
      var m := s.multipleOf.value;
      var p: nat, q: nat :| IsRatio(m, p, q) && p < BILLION;
      var i: int :| Equals(n, i);
      if NearInteger(n / m) {
        IntegerNearMultipleIsMultiple(n, i, m, p, q);
      }
      if exists k: int :: IsMultiple(n, m, k) {
        var k: int :| IsMultiple(n, m, k);
        MultiplesAreNear(n, m, k);
      }
    }
  }

  /** For a conforming schema the validator's relation and the draft's agree on every value. */
  lemma {:induction false} ConformingSchemasAgree(rules: Rules, v: Value, s: Schema)
    requires Conforming(s)
    ensures Valid(rules, v, s) <==> DraftValid(rules, v, s)
    decreases s, 1
  {
    match v {
      case VStr(t) => StringsAgree(rules, t, s);
      case VNum(n) =>
        if s.types.Some? ==> exists t :: t in s.types.value && HasType(v, t) {
          DivisorsAgree(n, s);
        }
      case VArr(items) =>
        if s.items.Some? {
          forall i | 0 <= i < |items|
            ensures Valid(rules, items[i], s.items.value) <==> DraftValid(rules, items[i], s.items.value)
          {
            ConformingSchemasAgree(rules, items[i], s.items.value);
          }
        }
      case VObj(fields) => ObjectsAgree(rules, fields, s);
      case _ =>
    }
  }

  lemma ObjectsAgree(rules: Rules, fields: map<string, Value>, s: Schema)
    requires Conforming(s)
    ensures ObjectValid(rules, fields, s) <==> DraftObject(rules, fields, s)
    decreases s, 0
  {
    if s.properties.Properties? {
      forall i | 0 <= i < |s.properties.list| && s.properties.list[i].key in fields
        ensures var p := s.properties.list[i];
          Valid(rules, fields[p.key], p.schema) <==> DraftValid(rules, fields[p.key], p.schema)
      {
        ConformingSchemasAgree(rules, fields[s.properties.list[i].key], s.properties.list[i].schema);
      }
    }
    if s.additional.MustMatch? {
      forall key | key in fields
        ensures Valid(rules, fields[key], s.additional.schema) <==> DraftValid(rules, fields[key], s.additional.schema)
      {
        ConformingSchemasAgree(rules, fields[key], s.additional.schema);
      }
    }
    if DraftObject(rules, fields, s) {
      RequiredAgrees(rules, fields, s);
    }
  }
}
