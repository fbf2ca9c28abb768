/** Which errors the validator reports: each keyword broken at each place it reaches, with the
    path of that place (packages/skills-sdk/src/json-schema.ts). */
module SchemaErrors {
  import opened Basics
  import opened JsonValues
  import opened JsonSchema
  import opened JsonSchemaProofs

  ghost predicate WrongTyped(v: Value, s: Schema) {
    s.types.Some? && forall t :: t in s.types.value ==> !HasType(v, t)
  }

  /** The value itself breaks this keyword. */
  ghost predicate Broken(rules: Rules, v: Value, s: Schema, w: Violation) {
    match w
    case NotTheConstant => s.constant.Some? && v != Meaning(s.constant.value)
    case NotInEnumeration =>
      s.enumeration.Some? && forall i :: 0 <= i < |s.enumeration.value| ==> v != Meaning(s.enumeration.value[i])
    case TooShort => v.VStr? && s.minLength.Some? && Units(v.s) as real < s.minLength.value
    case TooLong => v.VStr? && s.maxLength.Some? && Units(v.s) as real > s.maxLength.value
    case InvalidPattern => v.VStr? && s.pattern.Some? && rules.compile(s.pattern.value).None?
    case PatternMismatch =>
      v.VStr? && s.pattern.Some? && rules.compile(s.pattern.value).Some? && !rules.compile(s.pattern.value).value(v.s)
    case NotUri => v.VStr? && s.format == Some("uri") && !rules.isUri(v.s)
    case NotEmail => v.VStr? && s.format == Some("email") && !rules.isEmail(v.s)
    case BelowMinimum => v.VNum? && s.minimum.Some? && v.n < s.minimum.value
    case AboveMaximum => v.VNum? && s.maximum.Some? && v.n > s.maximum.value
    case NotAboveMinimum => v.VNum? && s.exclusiveMinimum.Some? && v.n <= s.exclusiveMinimum.value
    case NotBelowMaximum => v.VNum? && s.exclusiveMaximum.Some? && v.n >= s.exclusiveMaximum.value
    case NotMultiple =>
      v.VNum? && s.multipleOf.Some? && s.multipleOf.value > 0.0
      && !NearInteger(v.n / s.multipleOf.value)
    case TooFewItems => v.VArr? && s.minItems.Some? && |v.items| as real < s.minItems.value
    case TooManyItems => v.VArr? && s.maxItems.Some? && |v.items| as real > s.maxItems.value
    case DuplicateItems =>
      v.VArr? && s.uniqueItems && exists i, j :: 0 <= i < j < |v.items| && v.items[i] == v.items[j]
    case _ => false
  }

  /** The error belongs to this value at this path, or to a part of it at the path of that part. */
  ghost predicate Found(rules: Rules, v: Value, s: Schema, path: string, e: SchemaError)
    decreases s, 1
  {
    if WrongTyped(v, s) then e == SchemaError(path, WrongType)
    else
      || (e.path == path && Broken(rules, v, s, e.violation))
      || (v.VArr? && s.items.Some? && FoundInItem(rules, v.items, s.items.value, path, e))
      || (v.VObj? && FoundMissing(v.fields, s.required, path, e))
      || (v.VObj? && s.properties.Properties? && FoundInProperty(rules, v.fields, s.properties, path, e))
      || (v.VObj? && s.properties.Properties?
          && FoundInOther(rules, v.fields, s.properties.list, s.additional, path, e))
  }

  ghost predicate FoundInItem(rules: Rules, items: seq<Value>, s: Schema, path: string, e: SchemaError)
    decreases s, 3
  {
    exists i: nat :: i < |items| && ItemFound(rules, items[i], s, path, i, e)
  }

  ghost predicate ItemFound(rules: Rules, v: Value, s: Schema, path: string, i: nat, e: SchemaError)
    decreases s, 2
  {
    Found(rules, v, s, path + "[" + Decimal(i) + "]", e)
  }

  ghost predicate FoundMissing(fields: map<string, Value>, required: seq<string>, path: string, e: SchemaError) {
    exists i: nat :: i < |required| && MissingAt(fields, required, path, i, e)
  }

  ghost predicate MissingAt(fields: map<string, Value>, required: seq<string>, path: string, i: nat, e: SchemaError)
    requires i < |required|
  {
    && !(required[i] in fields && fields[required[i]] != VNull && fields[required[i]] != VStr(""))
    && e == SchemaError(path + "." + required[i], MissingOrEmpty)
  }

  ghost predicate FoundInProperty(rules: Rules, fields: map<string, Value>, props: Properties, path: string,
                                  e: SchemaError)
    requires props.Properties?
    decreases props, 2
  {
    exists i: nat :: i < |props.list| && FoundAt(rules, fields, props, path, i, e)
  }

  /** The property with this number, if the object has it, holds the error. */
  ghost predicate FoundAt(rules: Rules, fields: map<string, Value>, props: Properties, path: string, i: nat,
                          e: SchemaError)
    requires props.Properties? && i < |props.list|
    decreases props, 1
  {
    && props.list[i].key in fields
    && Found(rules, fields[props.list[i].key], props.list[i].schema, path + "." + props.list[i].key, e)
  }

  ghost predicate FoundInOther(rules: Rules, fields: map<string, Value>, props: seq<Property>, additional: Additional,
                               path: string, e: SchemaError)
    decreases additional, 2
  {
    exists key :: key in fields && (forall i :: 0 <= i < |props| ==> props[i].key != key)
      && ExtraFound(rules, fields[key], additional, path + "." + key, e)
  }

  ghost predicate ExtraFound(rules: Rules, v: Value, additional: Additional, path: string, e: SchemaError)
    decreases additional, 1
  {
    match additional
    case Unrestricted => false
    case Forbidden => e == SchemaError(path, UnknownProperty)
    case MustMatch(schema) => Found(rules, v, schema, path, e)
  }

  /* ------------------------------- the value itself ------------------------------- */

  lemma TypeErrorIff(v: Json, s: Schema, path: string)
    ensures TypeErrors(v, s, path) == if WrongTyped(Meaning(v), s) then [SchemaError(path, WrongType)] else []
  {
    forall t
      ensures MatchesType(v, t) <==> HasType(Meaning(v), t)
    {
      TypesAgree(v, t);
    }
  }

  lemma ConstantErrorIff(rules: Rules, v: Json, s: Schema, path: string, e: SchemaError)
    requires WellFormed(v) && ProperSchema(s)
    ensures e in ConstantErrors(v, s, path) <==>
      e.path == path && e.violation in {NotTheConstant, NotInEnumeration} && Broken(rules, Meaning(v), s, e.violation)
  {
    if s.constant.Some? {
      DeepEqualIsStructural(v, s.constant.value);
    }
    if s.enumeration.Some? {
      forall i | 0 <= i < |s.enumeration.value|
        ensures DeepEqual(v, s.enumeration.value[i]) <==> Meaning(v) == Meaning(s.enumeration.value[i])
      {
        DeepEqualIsStructural(v, s.enumeration.value[i]);
      }
    }
  }

  lemma InFive<T>(e: T, a: seq<T>, b: seq<T>, c: seq<T>, d: seq<T>, f: seq<T>)
    ensures e in a + b + c + d + f <==> e in a || e in b || e in c || e in d || e in f
  {
  }

  lemma PatternErrorIff(rules: Rules, t: string, s: Schema, path: string, e: SchemaError)
    ensures e in PatternErrors(rules, t, s, path) <==>
      && e.path == path && Broken(rules, VStr(t), s, e.violation)
      && e.violation in {InvalidPattern, PatternMismatch}
  {
  }

  lemma StringErrorIff(rules: Rules, t: string, s: Schema, path: string, e: SchemaError)
    ensures e in StringErrors(rules, t, s, path) <==>
      && e.path == path && Broken(rules, VStr(t), s, e.violation)
      && e.violation in {TooShort, TooLong, InvalidPattern, PatternMismatch, NotUri, NotEmail}
  {
    PatternErrorIff(rules, t, s, path, e);
    var short, long := s.minLength.Some? && Units(t) as real < s.minLength.value,
      s.maxLength.Some? && Units(t) as real > s.maxLength.value;
    var noUri, noEmail := s.format == Some("uri") && !rules.isUri(t), s.format == Some("email") && !rules.isEmail(t);
    var others := PatternErrors(rules, t, s, path);
    assert StringErrors(rules, t, s, path)
        == Flag(short, path, TooShort) + Flag(long, path, TooLong) + others
           + Flag(noUri, path, NotUri) + Flag(noEmail, path, NotEmail);
    InFive(e, Flag(short, path, TooShort), Flag(long, path, TooLong), others, Flag(noUri, path, NotUri),
      Flag(noEmail, path, NotEmail));
  }

  lemma FarIff(n: real, s: Schema)
    ensures FarFromMultiple(n, s) <==>
      s.multipleOf.Some? && s.multipleOf.value > 0.0 && !NearInteger(n / s.multipleOf.value)
  {
    if s.multipleOf.Some? && s.multipleOf.value > 0.0 {
      RoundingDecides(n / s.multipleOf.value);
    }
  }

  function BoundErrors(n: real, s: Schema, path: string): seq<SchemaError> {
    Flag(s.minimum.Some? && n < s.minimum.value, path, BelowMinimum)
    + Flag(s.maximum.Some? && n > s.maximum.value, path, AboveMaximum)
    + Flag(s.exclusiveMinimum.Some? && n <= s.exclusiveMinimum.value, path, NotAboveMinimum)
    + Flag(s.exclusiveMaximum.Some? && n >= s.exclusiveMaximum.value, path, NotBelowMaximum)
  }

  lemma BoundErrorIff(rules: Rules, n: real, s: Schema, path: string, e: SchemaError)
    ensures e in BoundErrors(n, s, path) <==>
      && e.path == path && e.violation in {BelowMinimum, AboveMaximum, NotAboveMinimum, NotBelowMaximum}
      && Broken(rules, VNum(n), s, e.violation)
  {
    var below, above := s.minimum.Some? && n < s.minimum.value, s.maximum.Some? && n > s.maximum.value;
    var notAbove, notBelow := s.exclusiveMinimum.Some? && n <= s.exclusiveMinimum.value,
      s.exclusiveMaximum.Some? && n >= s.exclusiveMaximum.value;
    var v := VNum(n);
    assert (Broken(rules, v, s, BelowMinimum) <==> below) && (Broken(rules, v, s, AboveMaximum) <==> above);
    assert (Broken(rules, v, s, NotAboveMinimum) <==> notAbove) && (Broken(rules, v, s, NotBelowMaximum) <==> notBelow);
    InFourFlags(below, above, notAbove, notBelow, path, BelowMinimum, AboveMaximum, NotAboveMinimum, NotBelowMaximum,
      e);
  }

  lemma InFourFlags(a: bool, b: bool, c: bool, d: bool, path: string, u: Violation, v: Violation, w: Violation,
                    x: Violation, e: SchemaError)
    ensures e in Flag(a, path, u) + Flag(b, path, v) + Flag(c, path, w) + Flag(d, path, x) <==>
      e.path == path && ((a && e.violation == u) || (b && e.violation == v) || (c && e.violation == w)
                         || (d && e.violation == x))
  {
  }

  lemma NumberErrorIff(rules: Rules, n: real, s: Schema, path: string, e: SchemaError)
    ensures e in NumberErrors(n, s, path) <==>
      && e.path == path && Broken(rules, VNum(n), s, e.violation)
      && e.violation in {BelowMinimum, AboveMaximum, NotAboveMinimum, NotBelowMaximum, NotMultiple}
  {
    FarIff(n, s);
    BoundErrorIff(rules, n, s, path, e);
    assert NumberErrors(n, s, path) == BoundErrors(n, s, path) + Flag(FarFromMultiple(n, s), path, NotMultiple);
  }

  lemma CountErrorIff(rules: Rules, items: seq<Json>, s: Schema, path: string, e: SchemaError)
    requires WellFormed(Arr(items))
    ensures e in CountErrors(items, s, path) <==>
      && e.path == path && Broken(rules, Meaning(Arr(items)), s, e.violation)
      && e.violation in {TooFewItems, TooManyItems, DuplicateItems}
  {
    var meant := Meaning(Arr(items)).items;
    forall i, j | 0 <= i < j < |items|
      ensures DeepEqual(items[i], items[j]) <==> meant[i] == meant[j]
    {
      DeepEqualIsStructural(items[i], items[j]);
    }
  }

  /* ------------------------------- its parts ------------------------------- */

  /** What is in a list that grows piece by piece is in one of the pieces. */
  lemma {:induction false} InSomePiece(within: nat -> bool, here: nat -> bool, n: nat)
    requires !within(0) && forall k: nat :: k < n ==> (within(k + 1) <==> within(k) || here(k))
    ensures within(n) <==> exists k: nat :: k < n && here(k)
    decreases n
  {
    if n > 0 {
      InSomePiece(within, here, n - 1);
    }
  }

  lemma ItemStep(rules: Rules, items: seq<Json>, meant: seq<Value>, s: Schema, path: string, k: nat, e: SchemaError)
    requires EachMeans(items, meant) && ProperSchema(s) && k < |items|
    ensures e in ItemErrors(rules, items, s, path, k + 1) <==>
      e in ItemErrors(rules, items, s, path, k) || ItemFound(rules, meant[k], s, path, k, e)
    decreases s, 2
  {
    ErrorIff(rules, items[k], s, At(path, k), e);
  }

  lemma ItemErrorIff(rules: Rules, items: seq<Json>, meant: seq<Value>, s: Schema, path: string, e: SchemaError)
    requires EachMeans(items, meant) && ProperSchema(s)
    ensures e in ItemErrors(rules, items, s, path, |items|) <==> FoundInItem(rules, meant, s, path, e)
    decreases s, 3
  {
    ghost var within := (k: nat) => k <= |items| && e in ItemErrors(rules, items, s, path, k);
    ghost var here := (k: nat) => k < |meant| && ItemFound(rules, meant[k], s, path, k, e);
    forall k: nat | k < |items|
      ensures within(k + 1) <==> within(k) || here(k)
    {
      ItemStep(rules, items, meant, s, path, k, e);
    }
    InSomePiece(within, here, |items|);
    assert forall i: nat :: i < |meant| ==> (here(i) <==> ItemFound(rules, meant[i], s, path, i, e));
  }

  lemma RequiredStep(fields: seq<Field>, m: map<string, Value>, required: seq<string>, path: string, k: nat,
                     e: SchemaError)
    requires WellFormed(Obj(fields)) && m == Meaning(Obj(fields)).fields && k < |required|
    ensures e in RequiredErrors(fields, required, path, k + 1) <==>
      e in RequiredErrors(fields, required, path, k) || MissingAt(m, required, path, k, e)
  {
    LookupMeans(fields, required[k]);
  }

  lemma RequiredErrorIff(fields: seq<Field>, m: map<string, Value>, required: seq<string>, path: string,
                         e: SchemaError)
    requires WellFormed(Obj(fields)) && m == Meaning(Obj(fields)).fields
    ensures e in RequiredErrors(fields, required, path, |required|) <==> FoundMissing(m, required, path, e)
  {
    ghost var within := (k: nat) => k <= |required| && e in RequiredErrors(fields, required, path, k);
    ghost var here := (k: nat) => k < |required| && MissingAt(m, required, path, k, e);
    forall k: nat | k < |required|
      ensures within(k + 1) <==> within(k) || here(k)
    {
      RequiredStep(fields, m, required, path, k, e);
    }
    InSomePiece(within, here, |required|);
    assert forall k: nat :: k < |required| ==> (here(k) <==> MissingAt(m, required, path, k, e));
  }

  lemma PropertyStep(rules: Rules, fields: seq<Field>, m: map<string, Value>, props: Properties, path: string, k: nat,
                     e: SchemaError)
    requires WellFormed(Obj(fields)) && m == Meaning(Obj(fields)).fields && props.Properties? && k < |props.list|
    requires ProperSchema(props.list[k].schema)
    ensures e in PropertyErrors(rules, fields, props, path, k + 1) <==>
      e in PropertyErrors(rules, fields, props, path, k) || FoundAt(rules, m, props, path, k, e)
    decreases props, 2
  {
    var p := props.list[k];
    LookupMeans(fields, p.key);
    if Get(fields, p.key).Some? {
      ErrorIff(rules, Get(fields, p.key).value, p.schema, Dot(path, p.key), e);
    }
  }

  lemma PropertyErrorIff(rules: Rules, fields: seq<Field>, m: map<string, Value>, props: Properties, path: string,
                         e: SchemaError)
    requires WellFormed(Obj(fields)) && m == Meaning(Obj(fields)).fields && props.Properties?
    requires forall i :: 0 <= i < |props.list| ==> ProperSchema(props.list[i].schema)
    ensures e in PropertyErrors(rules, fields, props, path, |props.list|) <==>
      FoundInProperty(rules, m, props, path, e)
    decreases props, 3
  {
    ghost var within := (k: nat) => k <= |props.list| && e in PropertyErrors(rules, fields, props, path, k);
    ghost var here := (k: nat) => k < |props.list| && FoundAt(rules, m, props, path, k, e);
    forall k: nat | k < |props.list|
      ensures within(k + 1) <==> within(k) || here(k)
    {
      PropertyStep(rules, fields, m, props, path, k, e);
    }
    InSomePiece(within, here, |props.list|);
    assert forall i: nat :: i < |props.list| ==> (here(i) <==> FoundAt(rules, m, props, path, i, e));
  }

  /** The field with this number is not declared and holds the error. */
  ghost predicate OtherAt(rules: Rules, fields: seq<Field>, props: seq<Property>, additional: Additional,
                          path: string, k: nat, e: SchemaError)
    requires k < |fields|
  {
    && !Declared(props, fields[k].key)
    && ExtraFound(rules, Meaning(fields[k].value), additional, path + "." + fields[k].key, e)
  }

  lemma OtherStep(rules: Rules, fields: seq<Field>, props: seq<Property>, additional: Additional, path: string, k: nat,
                  e: SchemaError)
    requires k < |fields| && WellFormed(fields[k].value)
    requires additional.MustMatch? ==> ProperSchema(additional.schema)
    ensures e in AdditionalErrors(rules, fields, props, additional, path, k + 1) <==>
      e in AdditionalErrors(rules, fields, props, additional, path, k)
      || OtherAt(rules, fields, props, additional, path, k, e)
    decreases additional, 2
  {
    if additional.MustMatch? {
      ErrorIff(rules, fields[k].value, additional.schema, Dot(path, fields[k].key), e);
    }
    assert e in ExtraErrors(rules, fields[k], props, additional, path) <==>
      OtherAt(rules, fields, props, additional, path, k, e);
  }

  lemma AdditionalErrorIff(rules: Rules, fields: seq<Field>, props: seq<Property>, additional: Additional,
                           path: string, e: SchemaError)
    requires WellFormed(Obj(fields))
    requires additional.MustMatch? ==> ProperSchema(additional.schema)
    ensures e in AdditionalErrors(rules, fields, props, additional, path, |fields|) <==>
      exists k: nat :: k < |fields| && OtherAt(rules, fields, props, additional, path, k, e)
    decreases additional, 3
  {
    ghost var within := (k: nat) => k <= |fields| && e in AdditionalErrors(rules, fields, props, additional, path, k);
    ghost var here := (k: nat) => k < |fields| && OtherAt(rules, fields, props, additional, path, k, e);
    forall k: nat | k < |fields|
      ensures within(k + 1) <==> within(k) || here(k)
    {
      OtherStep(rules, fields, props, additional, path, k, e);
    }
    InSomePiece(within, here, |fields|);
    assert forall k: nat :: k < |fields| ==> (here(k) <==> OtherAt(rules, fields, props, additional, path, k, e));
  }

  lemma OthersByKey(rules: Rules, fields: seq<Field>, m: map<string, Value>, props: seq<Property>,
                    additional: Additional, path: string, e: SchemaError)
    requires WellFormed(Obj(fields)) && m == Meaning(Obj(fields)).fields
    ensures FoundInOther(rules, m, props, additional, path, e) <==>
      exists k: nat :: k < |fields| && OtherAt(rules, fields, props, additional, path, k, e)
  {
    if k: nat :| k < |fields| && OtherAt(rules, fields, props, additional, path, k, e) {
      GetFindsField(fields, k);
      LookupMeans(fields, fields[k].key);
      assert fields[k].key in m && ExtraFound(rules, m[fields[k].key], additional, path + "." + fields[k].key, e);
    }
    if FoundInOther(rules, m, props, additional, path, e) {
      var key :| key in m && (forall i :: 0 <= i < |props| ==> props[i].key != key)
        && ExtraFound(rules, m[key], additional, path + "." + key, e);
      var k: nat :| k < |fields| && fields[k].key == key;
      GetFindsField(fields, k);
      LookupMeans(fields, key);
      assert OtherAt(rules, fields, props, additional, path, k, e);
    }
  }

  lemma PropertyErrorsIff(rules: Rules, fields: seq<Field>, m: map<string, Value>, s: Schema, path: string,
                          e: SchemaError)
    requires WellFormed(Obj(fields)) && m == Meaning(Obj(fields)).fields && ProperSchema(s) && s.properties.Properties?
    ensures e in PropertyErrors(rules, fields, s.properties, path, |s.properties.list|) <==>
      FoundInProperty(rules, m, s.properties, path, e)
    ensures e in AdditionalErrors(rules, fields, s.properties.list, s.additional, path, |fields|) <==>
      FoundInOther(rules, m, s.properties.list, s.additional, path, e)
    decreases s, 0, 0
  {
    PropertyErrorIff(rules, fields, m, s.properties, path, e);
    AdditionalErrorIff(rules, fields, s.properties.list, s.additional, path, e);
    OthersByKey(rules, fields, m, s.properties.list, s.additional, path, e);
  }

  lemma ObjectErrorIff(rules: Rules, fields: seq<Field>, m: map<string, Value>, s: Schema, path: string,
                       e: SchemaError)
    requires WellFormed(Obj(fields)) && m == Meaning(Obj(fields)).fields && ProperSchema(s)
    ensures e in ObjectErrors(rules, fields, s, path) <==>
      || FoundMissing(m, s.required, path, e)
      || (s.properties.Properties? && FoundInProperty(rules, m, s.properties, path, e))
      || (s.properties.Properties? && FoundInOther(rules, m, s.properties.list, s.additional, path, e))
    decreases s, 0, 1
  {
    RequiredErrorIff(fields, m, s.required, path, e);
    if s.properties.Properties? {
      PropertyErrorsIff(rules, fields, m, s, path, e);
    }
  }

  lemma ArrayErrorIff(rules: Rules, items: seq<Json>, meant: seq<Value>, s: Schema, path: string, e: SchemaError)
    requires WellFormed(Arr(items)) && meant == Meaning(Arr(items)).items && ProperSchema(s)
    ensures e in ArrayErrors(rules, items, s, path) <==>
      || e in CountErrors(items, s, path)
      || (s.items.Some? && FoundInItem(rules, meant, s.items.value, path, e))
    decreases s, 0, 1
  {
    if s.items.Some? {
      ItemsMean(items);
      ItemErrorIff(rules, items, meant, s.items.value, path, e);
    }
  }

  /** An error is reported exactly if the value breaks that keyword there. */
  lemma {:induction false} ErrorIff(rules: Rules, v: Json, s: Schema, path: string, e: SchemaError)
    requires WellFormed(v) && ProperSchema(s)
    ensures e in Errors(rules, v, s, path) <==> Found(rules, Meaning(v), s, path, e)
    decreases s, 1
  {
    TypeErrorIff(v, s, path);
    ConstantErrorIff(rules, v, s, path, e);
    match v {
      case Str(t) => StringErrorIff(rules, t, s, path, e);
      case Num(n) => NumberErrorIff(rules, n, s, path, e);
      case Arr(items) =>
        CountErrorIff(rules, items, s, path, e);
        ArrayErrorIff(rules, items, Meaning(v).items, s, path, e);
      case Obj(fields) => ObjectErrorIff(rules, fields, Meaning(v).fields, s, path, e);
      case _ =>
    }
  }

  /** So the order of keys changes the order of the errors at most. */
  lemma SameErrorsInAnyKeyOrder(rules: Rules, v: Json, w: Json, s: Schema, path: string, e: SchemaError)
    requires WellFormed(v) && WellFormed(w) && ProperSchema(s) && DeepEqual(v, w)
    ensures e in Errors(rules, v, s, path) <==> e in Errors(rules, w, s, path)
  {
    DeepEqualIsStructural(v, w);
    ErrorIff(rules, v, s, path, e);
    ErrorIff(rules, w, s, path, e);
  }
}
