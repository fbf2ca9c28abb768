/** The schema validator and the validity relation it decides, for a subset of JSON Schema
    Validation draft-07, sections 6.1 to 6.5 (packages/skills-sdk/src/json-schema.ts). */
module JsonSchema {
  import opened Basics
  import opened JsonValues

  /** Regular expressions: compiling one may fail. */
  datatype Rules = Rules(compile: string -> Option<string -> bool>, isUri: string -> bool, isEmail: string -> bool)

  datatype Type = TString | TNumber | TInteger | TBoolean | TObject | TArray | TNull

  datatype Additional = Unrestricted | Forbidden | MustMatch(schema: Schema)

  datatype Property = Property(key: string, schema: Schema)

  datatype Properties = Undeclared | Properties(list: seq<Property>)

  datatype Schema = Schema(
    types: Option<seq<Type>>, constant: Option<Json>, enumeration: Option<seq<Json>>,
    minLength: Option<real>, maxLength: Option<real>, pattern: Option<string>, format: Option<string>,
    minimum: Option<real>, maximum: Option<real>,
    exclusiveMinimum: Option<real>, exclusiveMaximum: Option<real>, multipleOf: Option<real>,
    properties: Properties, required: seq<string>, additional: Additional,
    items: Option<Schema>, minItems: Option<real>, maxItems: Option<real>, uniqueItems: bool)

  datatype Violation =
    | WrongType | NotTheConstant | NotInEnumeration
    | TooShort | TooLong | InvalidPattern | PatternMismatch | NotUri | NotEmail
    | BelowMinimum | AboveMaximum | NotAboveMinimum | NotBelowMaximum | NotMultiple
    | TooFewItems | TooManyItems | DuplicateItems
    | MissingOrEmpty | UnknownProperty

  datatype SchemaError = SchemaError(path: string, violation: Violation)

  /** The schema's own constants are JSON values. */
  ghost predicate ProperSchema(s: Schema) {
    && (s.constant.Some? ==> WellFormed(s.constant.value))
    && (s.enumeration.Some? ==> forall i :: 0 <= i < |s.enumeration.value| ==> WellFormed(s.enumeration.value[i]))
    && (s.properties.Properties? ==>
          forall i :: 0 <= i < |s.properties.list| ==> ProperSchema(s.properties.list[i].schema))
    && (s.items.Some? ==> ProperSchema(s.items.value))
    && (s.additional.MustMatch? ==> ProperSchema(s.additional.schema))
  }

  /* ------------------------------- validity ------------------------------- */

  ghost predicate HasType(v: Value, t: Type) {
    match t
    case TString => v.VStr?
    case TNumber => v.VNum?
    case TInteger => v.VNum? && exists k: int :: Equals(v.n, k)
    case TBoolean => v.VBool?
    case TObject => v.VObj?
    case TArray => v.VArr?
    case TNull => v.VNull?
  }

  predicate Equals(x: real, k: int) { x == k as real }

  /** Within a billionth of some integer. */
  ghost predicate NearInteger(x: real) {
    exists k: int :: Near(x, k)
  }

  predicate Near(x: real, k: int) { -0.000000001 <= x - k as real <= 0.000000001 }

  ghost predicate StringValid(rules: Rules, t: string, s: Schema) {
    && (s.minLength.Some? ==> Units(t) as real >= s.minLength.value)
    && (s.maxLength.Some? ==> Units(t) as real <= s.maxLength.value)
    && (s.pattern.Some? ==>
          rules.compile(s.pattern.value).Some? && rules.compile(s.pattern.value).value(t))
    && (s.format == Some("uri") ==> rules.isUri(t))
    && (s.format == Some("email") ==> rules.isEmail(t))
  }

  ghost predicate NumberValid(n: real, s: Schema) {
    && (s.minimum.Some? ==> n >= s.minimum.value)
    && (s.maximum.Some? ==> n <= s.maximum.value)
    && (s.exclusiveMinimum.Some? ==> n > s.exclusiveMinimum.value)
    && (s.exclusiveMaximum.Some? ==> n < s.exclusiveMaximum.value)
    && (s.multipleOf.Some? && s.multipleOf.value > 0.0 ==> NearInteger(n / s.multipleOf.value))
  }

  ghost predicate AllDifferent(items: seq<Value>) {
    forall i, j :: 0 <= i < j < |items| ==> items[i] != items[j]
  }

  ghost predicate CountValid(items: seq<Value>, s: Schema) {
    && (s.minItems.Some? ==> |items| as real >= s.minItems.value)
    && (s.maxItems.Some? ==> |items| as real <= s.maxItems.value)
    && (s.uniqueItems ==> AllDifferent(items))
  }

  ghost predicate Present(fields: map<string, Value>, key: string) {
    key in fields && fields[key] != VNull && fields[key] != VStr("")
  }

  predicate Declared(props: seq<Property>, key: string) {
    exists i :: 0 <= i < |props| && props[i].key == key
  }

  /** Validity of what a JSON text denotes. A required property may be neither null nor the empty
      string, and restrictions on additional properties count only beside `properties`. */
  ghost predicate Valid(rules: Rules, v: Value, s: Schema)
    decreases s, 1
  {
    && (s.types.Some? ==> exists t :: t in s.types.value && HasType(v, t))
    && (s.constant.Some? ==> v == Meaning(s.constant.value))
    && (s.enumeration.Some? ==>
          exists i :: 0 <= i < |s.enumeration.value| && v == Meaning(s.enumeration.value[i]))
    && (v.VStr? ==> StringValid(rules, v.s, s))
    && (v.VNum? ==> NumberValid(v.n, s))
    && (v.VArr? ==> CountValid(v.items, s))
    && (v.VArr? && s.items.Some? ==> forall i :: 0 <= i < |v.items| ==> Valid(rules, v.items[i], s.items.value))
    && (v.VObj? ==> ObjectValid(rules, v.fields, s))
  }

  ghost predicate ObjectValid(rules: Rules, fields: map<string, Value>, s: Schema)
    decreases s, 0
  {
    && (forall key :: key in s.required ==> Present(fields, key))
    && (s.properties.Properties? ==>
          forall i :: 0 <= i < |s.properties.list| && s.properties.list[i].key in fields ==>
            Valid(rules, fields[s.properties.list[i].key], s.properties.list[i].schema))
    && (s.properties.Properties? && s.additional.Forbidden? ==>
          forall key :: key in fields ==> Declared(s.properties.list, key))
    && (s.properties.Properties? && s.additional.MustMatch? ==>
          forall key :: key in fields && !Declared(s.properties.list, key) ==>
            Valid(rules, fields[key], s.additional.schema))
  }

  /* ------------------------------- what the validator reports ------------------------------- */

  function TypeOf(v: Json): Type {
    match v
    case Null => TNull
    case Bool(_) => TBoolean
    case Num(n) => if n.Floor as real == n then TInteger else TNumber
    case Str(_) => TString
    case Arr(_) => TArray
    case Obj(_) => TObject
  }

  predicate MatchesType(v: Json, t: Type) {
    TypeOf(v) == t || (t == TNumber && TypeOf(v) == TInteger)
  }

  function Flag(bad: bool, path: string, violation: Violation): seq<SchemaError> {
    if bad then [SchemaError(path, violation)] else []
  }

  function TypeErrors(v: Json, s: Schema, path: string): seq<SchemaError> {
    Flag(s.types.Some? && !exists t :: t in s.types.value && MatchesType(v, t), path, WrongType)
  }

  function ConstantErrors(v: Json, s: Schema, path: string): seq<SchemaError> {
    Flag(s.constant.Some? && !DeepEqual(v, s.constant.value), path, NotTheConstant)
    + Flag(s.enumeration.Some? && !IsMember(v, s.enumeration.value), path, NotInEnumeration)
  }

  predicate IsMember(v: Json, choices: seq<Json>) {
    exists i :: 0 <= i < |choices| && DeepEqual(v, choices[i])
  }

  function PatternErrors(rules: Rules, t: string, s: Schema, path: string): seq<SchemaError> {
    if s.pattern.None? then []
    else
      match rules.compile(s.pattern.value)
      case None => [SchemaError(path, InvalidPattern)]
      case Some(test) => Flag(!test(t), path, PatternMismatch)
  }

  function StringErrors(rules: Rules, t: string, s: Schema, path: string): seq<SchemaError> {
    Flag(s.minLength.Some? && Units(t) as real < s.minLength.value, path, TooShort)
    + Flag(s.maxLength.Some? && Units(t) as real > s.maxLength.value, path, TooLong)
    + PatternErrors(rules, t, s, path)
    + Flag(s.format == Some("uri") && !rules.isUri(t), path, NotUri)
    + Flag(s.format == Some("email") && !rules.isEmail(t), path, NotEmail)
  }

  function Round(x: real): int { (x + 0.5).Floor }

  function Abs(x: real): real { if x < 0.0 then -x else x }

  function NumberErrors(n: real, s: Schema, path: string): seq<SchemaError> {
    Flag(s.minimum.Some? && n < s.minimum.value, path, BelowMinimum)
    + Flag(s.maximum.Some? && n > s.maximum.value, path, AboveMaximum)
    + Flag(s.exclusiveMinimum.Some? && n <= s.exclusiveMinimum.value, path, NotAboveMinimum)
    + Flag(s.exclusiveMaximum.Some? && n >= s.exclusiveMaximum.value, path, NotBelowMaximum)
    + Flag(FarFromMultiple(n, s), path, NotMultiple)
  }

  predicate FarFromMultiple(n: real, s: Schema) {
    && s.multipleOf.Some? && s.multipleOf.value > 0.0
    && var ratio := n / s.multipleOf.value; Abs(ratio - Round(ratio) as real) > 0.000000001
  }

  predicate HasDuplicates(items: seq<Json>) {
    exists i, j :: 0 <= i < j < |items| && DeepEqual(items[i], items[j])
  }

  function CountErrors(items: seq<Json>, s: Schema, path: string): seq<SchemaError> {
    Flag(s.minItems.Some? && |items| as real < s.minItems.value, path, TooFewItems)
    + Flag(s.maxItems.Some? && |items| as real > s.maxItems.value, path, TooManyItems)
    + Flag(s.uniqueItems && HasDuplicates(items), path, DuplicateItems)
  }

  function At(path: string, i: nat): string { path + "[" + Decimal(i) + "]" }

  function Dot(path: string, key: string): string { path + "." + key }

  /** The errors of the first `n` required names. */
  function RequiredErrors(fields: seq<Field>, required: seq<string>, path: string, n: nat): seq<SchemaError>
    requires n <= |required|
  {
    if n == 0 then []
    else
      var v := Get(fields, required[n - 1]);
      RequiredErrors(fields, required, path, n - 1)
      + Flag(v.None? || v.value == Null || v.value == Str(""), Dot(path, required[n - 1]), MissingOrEmpty)
  }

  /** Everything the validator reports about a value, in order. */
  function Errors(rules: Rules, v: Json, s: Schema, path: string): seq<SchemaError>
    decreases s, 1
  {
    if TypeErrors(v, s, path) != [] then TypeErrors(v, s, path)
    else ConstantErrors(v, s, path) + ContentErrors(rules, v, s, path)
  }

  function ContentErrors(rules: Rules, v: Json, s: Schema, path: string): seq<SchemaError>
    decreases s, 0, 1
  {
    match v
    case Str(t) => StringErrors(rules, t, s, path)
    case Num(n) => NumberErrors(n, s, path)
    case Arr(items) => ArrayErrors(rules, items, s, path)
    case Obj(fields) => ObjectErrors(rules, fields, s, path)
    case _ => []
  }

  function ArrayErrors(rules: Rules, items: seq<Json>, s: Schema, path: string): seq<SchemaError>
    decreases s, 0, 0
  {
    CountErrors(items, s, path)
    + if s.items.Some? then ItemErrors(rules, items, s.items.value, path, |items|) else []
  }

  function ObjectErrors(rules: Rules, fields: seq<Field>, s: Schema, path: string): seq<SchemaError>
    decreases s, 0, 0
  {
    RequiredErrors(fields, s.required, path, |s.required|)
    + if s.properties.Undeclared? then []
      else
        PropertyErrors(rules, fields, s.properties, path, |s.properties.list|)
        + AdditionalErrors(rules, fields, s.properties.list, s.additional, path, |fields|)
  }

  function ItemErrors(rules: Rules, items: seq<Json>, s: Schema, path: string, n: nat): seq<SchemaError>
    requires n <= |items|
    decreases s, n + 2
  {
    if n == 0 then []
    else ItemErrors(rules, items, s, path, n - 1) + Errors(rules, items[n - 1], s, At(path, n - 1))
  }

  function PropertyErrors(rules: Rules, fields: seq<Field>, props: Properties, path: string, n: nat): seq<SchemaError>
    requires props.Properties? && n <= |props.list|
    decreases props, n + 2
  {
    if n == 0 then []
    else
      var p := props.list[n - 1];
      PropertyErrors(rules, fields, props, path, n - 1)
      + if Get(fields, p.key).Some? then Errors(rules, Get(fields, p.key).value, p.schema, Dot(path, p.key)) else []
  }

  function AdditionalErrors(
    rules: Rules, fields: seq<Field>, props: seq<Property>, additional: Additional, path: string,
    n: nat): seq<SchemaError>
    requires n <= |fields|
    decreases additional, n + 2
  {
    if n == 0 then []
    else
      var f := fields[n - 1];
      AdditionalErrors(rules, fields, props, additional, path, n - 1) + ExtraErrors(rules, f, props, additional, path)
  }

  function ExtraErrors(rules: Rules, f: Field, props: seq<Property>, additional: Additional,
      path: string): seq<SchemaError>
    decreases additional, 1
  {
    if Declared(props, f.key) then []
    else
      match additional
      case Unrestricted => []
      case Forbidden => [SchemaError(Dot(path, f.key), UnknownProperty)]
      case MustMatch(schema) => Errors(rules, f.value, schema, Dot(path, f.key))
  }
}
