/** The validator's verdict is validity: no errors exactly when the value's meaning is valid. */
module JsonSchemaProofs {
  import opened Basics
  import opened JsonValues
  import opened JsonSchema

  lemma TypesAgree(v: Json, t: Type)
    ensures MatchesType(v, t) <==> HasType(Meaning(v), t)
  {
    if v.Num? {
      assert v.n.Floor as real == v.n ==> Equals(v.n, v.n.Floor);
    }
  }

  lemma TypeVerdict(v: Json, s: Schema, path: string)
    ensures TypeErrors(v, s, path) == [] <==>
      (s.types.Some? ==> exists t :: t in s.types.value && HasType(Meaning(v), t))
  {
    forall t
      ensures MatchesType(v, t) <==> HasType(Meaning(v), t)
    {
      TypesAgree(v, t);
    }
  }

  lemma ConstantVerdict(v: Json, s: Schema, path: string)
    requires WellFormed(v) && ProperSchema(s)
    ensures ConstantErrors(v, s, path) == [] <==>
      && (s.constant.Some? ==> Meaning(v) == Meaning(s.constant.value))
      && (s.enumeration.Some? ==>
            exists i :: 0 <= i < |s.enumeration.value| && Meaning(v) == Meaning(s.enumeration.value[i]))
  {
    if s.constant.Some? {
      DeepEqualIsStructural(v, s.constant.value);
    }
    if s.enumeration.Some? {
      forall i | 0 <= i < |s.enumeration.value|
        ensures DeepEqual(v, s.enumeration.value[i]) <==> Meaning(v) == Meaning(s.enumeration.value[i])
      {
        DeepEqualIsStructural(v, s.enumeration.value[i]);
      }
    }
  }

  /** Rounding finds the nearest integer: if any integer is within tolerance, the rounded one is. */
  lemma RoundingDecides(x: real)
    ensures Abs(x - Round(x) as real) <= 0.000000001 <==> NearInteger(x)
  {
    assert Near(x, Round(x)) <==> Abs(x - Round(x) as real) <= 0.000000001;
    if k: int :| Near(x, k) {
      assert Round(x) == k;
    }
  }

  lemma NumberVerdict(n: real, s: Schema, path: string)
    ensures NumberErrors(n, s, path) == [] <==> NumberValid(n, s)
  {
    if s.multipleOf.Some? && s.multipleOf.value > 0.0 {
      RoundingDecides(n / s.multipleOf.value);
    }
  }

  lemma StringVerdict(rules: Rules, t: string, s: Schema, path: string)
    ensures StringErrors(rules, t, s, path) == [] <==> StringValid(rules, t, s)
  {
  }

  lemma CountVerdict(items: seq<Json>, s: Schema, path: string)
    requires WellFormed(Arr(items))
    ensures CountErrors(items, s, path) == [] <==> CountValid(Meaning(Arr(items)).items, s)
  {
    var meant := Meaning(Arr(items)).items;
    forall i, j | 0 <= i < j < |items|
      ensures DeepEqual(items[i], items[j]) <==> meant[i] == meant[j]
    {
      DeepEqualIsStructural(items[i], items[j]);
    }
  }

  /** Looking a key up in an object is looking it up in its meaning. */
  lemma LookupMeans(fields: seq<Field>, key: string)
    requires WellFormed(Obj(fields))
    ensures var m := Meaning(Obj(fields)).fields;
      && (Get(fields, key).Some? <==> key in m)
      && (key in m ==> WellFormed(Get(fields, key).value) && m[key] == Meaning(Get(fields, key).value))
  {
  }

  /** A list that grows piece by piece is empty exactly if every piece is. */
  lemma {:induction false} EmptyIffPiecesAre(empty: nat -> bool, good: nat -> bool, n: nat)
    requires empty(0) && forall k: nat :: k < n ==> (empty(k + 1) <==> empty(k) && good(k))
    ensures empty(n) <==> forall k: nat :: k < n ==> good(k)
    decreases n
  {
    if n > 0 {
      EmptyIffPiecesAre(empty, good, n - 1);
    }
  }

  lemma OneStepMore(before: seq<SchemaError>, here: seq<SchemaError>)
    ensures before + here == [] <==> before == [] && here == []
  {
  }

  lemma RequiredStep(fields: seq<Field>, m: map<string, Value>, required: seq<string>, path: string, k: nat)
    requires WellFormed(Obj(fields)) && m == Meaning(Obj(fields)).fields && k < |required|
    ensures RequiredErrors(fields, required, path, k + 1) == []
      <==> RequiredErrors(fields, required, path, k) == [] && Present(m, required[k])
  {
  }

  lemma RequiredVerdict(fields: seq<Field>, m: map<string, Value>, required: seq<string>, path: string)
    requires WellFormed(Obj(fields)) && m == Meaning(Obj(fields)).fields
    ensures RequiredErrors(fields, required, path, |required|) == [] <==> AllPresent(m, required)
  {
    var empty := (k: nat) => k <= |required| && RequiredErrors(fields, required, path, k) == [];
    var good := (k: nat) => k < |required| && Present(m, required[k]);
    forall k: nat | k < |required|
      ensures empty(k + 1) <==> empty(k) && good(k)
    {
      RequiredStep(fields, m, required, path, k);
    }
    EmptyIffPiecesAre(empty, good, |required|);
    assert forall k: nat :: k < |required| ==> required[k] in required && (good(k) <==> Present(m, required[k]));
  }

  ghost predicate AllPresent(m: map<string, Value>, required: seq<string>) {
    forall key :: key in required ==> Present(m, key)
  }

  ghost predicate EachMeans(items: seq<Json>, meant: seq<Value>) {
    |meant| == |items| && forall i :: 0 <= i < |items| ==> WellFormed(items[i]) && meant[i] == Meaning(items[i])
  }

  lemma ItemsMean(items: seq<Json>)
    requires WellFormed(Arr(items))
    ensures EachMeans(items, Meaning(Arr(items)).items)
  {
  }

  lemma ItemsStep(rules: Rules, items: seq<Json>, meant: seq<Value>, s: Schema, path: string, k: nat)
    requires EachMeans(items, meant) && ProperSchema(s) && k < |items|
    ensures ItemErrors(rules, items, s, path, k + 1) == []
      <==> ItemErrors(rules, items, s, path, k) == [] && Valid(rules, meant[k], s)
    decreases s, 2
  {
    NoErrorsIffValid(rules, items[k], s, At(path, k));
    OneStepMore(ItemErrors(rules, items, s, path, k), Errors(rules, items[k], s, At(path, k)));
  }

  lemma ItemsVerdict(rules: Rules, items: seq<Json>, meant: seq<Value>, s: Schema, path: string)
    requires EachMeans(items, meant) && ProperSchema(s)
    ensures ItemErrors(rules, items, s, path, |items|) == [] <==> forall i :: 0 <= i < |meant| ==>
      Valid(rules, meant[i], s)
    decreases s, 3
  {
    ghost var empty := (k: nat) => k <= |items| && ItemErrors(rules, items, s, path, k) == [];
    ghost var good := (k: nat) => k < |meant| && Valid(rules, meant[k], s);
    forall k: nat | k < |items|
      ensures empty(k + 1) <==> empty(k) && good(k)
    {
      ItemsStep(rules, items, meant, s, path, k);
    }
    EmptyIffPiecesAre(empty, good, |items|);
    assert forall i: nat :: i < |meant| ==> (good(i) <==> Valid(rules, meant[i], s));
  }

  ghost predicate PropertyValid(rules: Rules, m: map<string, Value>, p: Property) {
    p.key in m ==> Valid(rules, m[p.key], p.schema)
  }

  lemma PropertiesStep(rules: Rules, fields: seq<Field>, m: map<string, Value>, props: Properties, path: string, k: nat)
    requires WellFormed(Obj(fields)) && m == Meaning(Obj(fields)).fields && props.Properties? && k < |props.list|
    requires ProperSchema(props.list[k].schema)
    ensures PropertyErrors(rules, fields, props, path, k + 1) == []
      <==> PropertyErrors(rules, fields, props, path, k) == [] && PropertyValid(rules, m, props.list[k])
    decreases props, 2
  {
    var p := props.list[k];
    LookupMeans(fields, p.key);
    if Get(fields, p.key).Some? {
      NoErrorsIffValid(rules, Get(fields, p.key).value, p.schema, Dot(path, p.key));
    }
  }

  lemma PropertiesVerdict(rules: Rules, fields: seq<Field>, m: map<string, Value>, props: Properties, path: string)
    requires WellFormed(Obj(fields)) && m == Meaning(Obj(fields)).fields && props.Properties?
    requires forall i :: 0 <= i < |props.list| ==> ProperSchema(props.list[i].schema)
    ensures PropertyErrors(rules, fields, props, path, |props.list|) == [] <==>
      forall i :: 0 <= i < |props.list| ==> PropertyValid(rules, m, props.list[i])
    decreases props, 3
  {
    ghost var empty := (k: nat) => k <= |props.list| && PropertyErrors(rules, fields, props, path, k) == [];
    ghost var good := (k: nat) => k < |props.list| && PropertyValid(rules, m, props.list[k]);
    forall k: nat | k < |props.list|
      ensures empty(k + 1) <==> empty(k) && good(k)
    {
      PropertiesStep(rules, fields, m, props, path, k);
    }
    EmptyIffPiecesAre(empty, good, |props.list|);
    assert forall i: nat :: i < |props.list| ==> (good(i) <==> PropertyValid(rules, m, props.list[i]));
  }

  /** What the schema says about a property that it does not declare. */
  ghost predicate ExtraValid(rules: Rules, v: Value, additional: Additional) {
    match additional
    case Unrestricted => true
    case Forbidden => false
    case MustMatch(schema) => Valid(rules, v, schema)
  }

  lemma {:induction false} AdditionalVerdict(
    rules: Rules, fields: seq<Field>, props: seq<Property>, additional: Additional, path: string, n: nat)
    requires WellFormed(Obj(fields)) && n <= |fields|
    requires additional.MustMatch? ==> ProperSchema(additional.schema)
    ensures AdditionalErrors(rules, fields, props, additional, path, n) == [] <==>
      forall i :: 0 <= i < n && !Declared(props, fields[i].key) ==>
        ExtraValid(rules, Meaning(fields[i].value), additional)
    decreases additional, n + 2
  {
    if n > 0 {
      var f := fields[n - 1];
      AdditionalVerdict(rules, fields, props, additional, path, n - 1);
      if additional.MustMatch? {
        NoErrorsIffValid(rules, f.value, additional.schema, Dot(path, f.key));
      }
    }
  }

  lemma ExtrasByKey(rules: Rules, fields: seq<Field>, props: seq<Property>, additional: Additional)
    requires WellFormed(Obj(fields))
    ensures var m := Meaning(Obj(fields)).fields;
      (forall i :: 0 <= i < |fields| && !Declared(props, fields[i].key) ==>
        ExtraValid(rules, Meaning(fields[i].value), additional))
      <==> (forall key :: key in m && !Declared(props, key) ==> ExtraValid(rules, m[key], additional))
  {
    var m := Meaning(Obj(fields)).fields;
    forall i | 0 <= i < |fields|
      ensures fields[i].key in m && m[fields[i].key] == Meaning(fields[i].value)
    {
      GetFindsField(fields, i);
      LookupMeans(fields, fields[i].key);
    }
    forall key | key in m
      ensures exists i :: 0 <= i < |fields| && fields[i].key == key
    {
    }
  }

  lemma PropertyVerdicts(rules: Rules, fields: seq<Field>, m: map<string, Value>, s: Schema, path: string)
    requires WellFormed(Obj(fields)) && m == Meaning(Obj(fields)).fields && ProperSchema(s) && s.properties.Properties?
    ensures PropertyErrors(rules, fields, s.properties, path, |s.properties.list|) == [] <==>
      forall i :: 0 <= i < |s.properties.list| ==> PropertyValid(rules, m, s.properties.list[i])
    ensures AdditionalErrors(rules, fields, s.properties.list, s.additional, path, |fields|) == [] <==>
      forall key :: key in m && !Declared(s.properties.list, key) ==> ExtraValid(rules, m[key], s.additional)
    decreases s, 0, 0
  {
    PropertiesVerdict(rules, fields, m, s.properties, path);
    AdditionalVerdict(rules, fields, s.properties.list, s.additional, path, |fields|);
    ExtrasByKey(rules, fields, s.properties.list, s.additional);
  }

  lemma ObjectVerdict(rules: Rules, fields: seq<Field>, m: map<string, Value>, s: Schema, path: string)
    requires WellFormed(Obj(fields)) && m == Meaning(Obj(fields)).fields && ProperSchema(s)
    ensures ObjectErrors(rules, fields, s, path) == [] <==> ObjectValid(rules, m, s)
    decreases s, 0, 1
  {
    RequiredVerdict(fields, m, s.required, path);
    if s.properties.Properties? {
      PropertyVerdicts(rules, fields, m, s, path);
    }
  }

  lemma ArrayVerdict(rules: Rules, items: seq<Json>, meant: seq<Value>, s: Schema, path: string)
    requires WellFormed(Arr(items)) && meant == Meaning(Arr(items)).items && ProperSchema(s)
    ensures ArrayErrors(rules, items, s, path) == [] <==>
      CountValid(meant, s) && (s.items.Some? ==> forall i :: 0 <= i < |meant| ==> Valid(rules, meant[i], s.items.value))
    decreases s, 0
  {
    CountVerdict(items, s, path);
    if s.items.Some? {
      ItemsMean(items);
      ItemsVerdict(rules, items, meant, s.items.value, path);
    }
  }

  /** The validator reports nothing exactly when the value is valid. */
  lemma {:induction false} NoErrorsIffValid(rules: Rules, v: Json, s: Schema, path: string)
    requires WellFormed(v) && ProperSchema(s)
    ensures Errors(rules, v, s, path) == [] <==> Valid(rules, Meaning(v), s)
    decreases s, 1
  {
    TypeVerdict(v, s, path);
    ConstantVerdict(v, s, path);
    match v {
      case Str(t) => StringVerdict(rules, t, s, path);
      case Num(n) => NumberVerdict(n, s, path);
      case Arr(items) => ArrayVerdict(rules, items, Meaning(v).items, s, path);
      case Obj(fields) => ObjectVerdict(rules, fields, Meaning(v).fields, s, path);
      case _ =>
    }
  }

  /** So the verdict cannot depend on the order of keys, in the value or anywhere inside it. */
  lemma VerdictIgnoresKeyOrder(rules: Rules, v: Json, w: Json, s: Schema, path: string)
    requires WellFormed(v) && WellFormed(w) && ProperSchema(s) && DeepEqual(v, w)
    ensures Errors(rules, v, s, path) == [] <==> Errors(rules, w, s, path) == []
  {
    DeepEqualIsStructural(v, w);
    NoErrorsIffValid(rules, v, s, path);
    NoErrorsIffValid(rules, w, s, path);
  }

  /* ------------------------------- where errors are ------------------------------- */

  ghost predicate Below(errors: seq<SchemaError>, path: string) {
    forall e :: e in errors ==> path <= e.path
  }

  lemma {:induction false} ItemErrorsBelow(rules: Rules, items: seq<Json>, s: Schema, path: string, n: nat)
    requires n <= |items|
    ensures Below(ItemErrors(rules, items, s, path, n), path)
    decreases s, n + 2
  {
    if n > 0 {
      ItemErrorsBelow(rules, items, s, path, n - 1);
      EveryErrorExtendsThePath(rules, items[n - 1], s, At(path, n - 1));
      assert At(path, n - 1) == path + At("", n - 1);
    }
  }

  lemma {:induction false} PropertyErrorsBelow(rules: Rules, fields: seq<Field>, props: Properties, path: string,
      n: nat)
    requires props.Properties? && n <= |props.list|
    ensures Below(PropertyErrors(rules, fields, props, path, n), path)
    decreases props, n + 2
  {
    if n > 0 {
      var p := props.list[n - 1];
      PropertyErrorsBelow(rules, fields, props, path, n - 1);
      if Get(fields, p.key).Some? {
        var v := Get(fields, p.key).value;
        EveryErrorExtendsThePath(rules, v, p.schema, Dot(path, p.key));
        assert Dot(path, p.key) == path + Dot("", p.key);
        BelowBoth(PropertyErrors(rules, fields, props, path, n - 1), Errors(rules, v, p.schema, Dot(path, p.key)),
          path);
      }
    }
  }

  lemma {:induction false} AdditionalErrorsBelow(
    rules: Rules, fields: seq<Field>, props: seq<Property>, additional: Additional, path: string, n: nat)
    requires n <= |fields|
    ensures Below(AdditionalErrors(rules, fields, props, additional, path, n), path)
    decreases additional, n + 2
  {
    if n > 0 {
      var f := fields[n - 1];
      AdditionalErrorsBelow(rules, fields, props, additional, path, n - 1);
      if additional.MustMatch? {
        EveryErrorExtendsThePath(rules, f.value, additional.schema, Dot(path, f.key));
        assert Dot(path, f.key) == path + Dot("", f.key);
      }
    }
  }

  lemma {:induction false} RequiredErrorsBelow(fields: seq<Field>, required: seq<string>, path: string, n: nat)
    requires n <= |required|
    ensures Below(RequiredErrors(fields, required, path, n), path)
  {
    if n > 0 {
      RequiredErrorsBelow(fields, required, path, n - 1);
    }
  }

  lemma BelowBoth(a: seq<SchemaError>, b: seq<SchemaError>, path: string)
    requires Below(a, path) && Below(b, path)
    ensures Below(a + b, path)
  {
  }

  lemma StringErrorsBelow(rules: Rules, t: string, s: Schema, path: string)
    ensures Below(StringErrors(rules, t, s, path), path)
  {
  }

  lemma NumberErrorsBelow(n: real, s: Schema, path: string)
    ensures Below(NumberErrors(n, s, path), path)
  {
  }

  lemma CountErrorsBelow(items: seq<Json>, s: Schema, path: string)
    ensures Below(CountErrors(items, s, path), path)
  {
  }

  lemma ContentErrorsBelow(rules: Rules, v: Json, s: Schema, path: string)
    ensures Below(ContentErrors(rules, v, s, path), path)
    decreases s, 0, 1
  {
    match v {
      case Str(t) => StringErrorsBelow(rules, t, s, path);
      case Num(n) => NumberErrorsBelow(n, s, path);
      case Arr(items) => ArrayErrorsBelow(rules, items, s, path);
      case Obj(fields) => ObjectErrorsBelow(rules, fields, s, path);
      case _ =>
    }
  }

  lemma ArrayErrorsBelow(rules: Rules, items: seq<Json>, s: Schema, path: string)
    ensures Below(ArrayErrors(rules, items, s, path), path)
    decreases s, 0, 0
  {
    CountErrorsBelow(items, s, path);
    if s.items.Some? {
      ItemErrorsBelow(rules, items, s.items.value, path, |items|);
      BelowBoth(CountErrors(items, s, path), ItemErrors(rules, items, s.items.value, path, |items|), path);
    }
  }

  lemma ObjectErrorsBelow(rules: Rules, fields: seq<Field>, s: Schema, path: string)
    ensures Below(ObjectErrors(rules, fields, s, path), path)
    decreases s, 0, 0
  {
    RequiredErrorsBelow(fields, s.required, path, |s.required|);
    if s.properties.Properties? {
      var declared := PropertyErrors(rules, fields, s.properties, path, |s.properties.list|);
      var others := AdditionalErrors(rules, fields, s.properties.list, s.additional, path, |fields|);
      PropertyErrorsBelow(rules, fields, s.properties, path, |s.properties.list|);
      AdditionalErrorsBelow(rules, fields, s.properties.list, s.additional, path, |fields|);
      BelowBoth(declared, others, path);
      BelowBoth(RequiredErrors(fields, s.required, path, |s.required|), declared + others, path);
    }
  }

  /** Every reported path extends the path the validation started at. */
  lemma {:induction false} EveryErrorExtendsThePath(rules: Rules, v: Json, s: Schema, path: string)
    ensures Below(Errors(rules, v, s, path), path)
    decreases s, 1
  {
    ContentErrorsBelow(rules, v, s, path);
  }
}
