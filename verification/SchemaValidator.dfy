/** The validator as it runs: mutually recursive procedures pushing onto one list of errors
    (packages/skills-sdk/src/json-schema.ts). */
module SchemaValidator {
  import opened Basics
  import opened JsonValues
  import opened JsonSchema
  import opened JsonSchemaProofs

  class ErrorList {
    var errors: seq<SchemaError>

    constructor ()
      ensures errors == []
    {
      errors := [];
    }

    method PushIf(bad: bool, path: string, violation: Violation)
      modifies this
      ensures errors == old(errors) + Flag(bad, path, violation)
    {
      if bad {
        errors := errors + [SchemaError(path, violation)];
      }
    }
  }

  lemma Regroup5<T>(e: seq<T>, a: seq<T>, b: seq<T>, c: seq<T>, d: seq<T>, f: seq<T>)
    ensures e + a + b + c + d + f == e + (a + b + c + d + f)
  {
  }

  /** Validates a JSON value from the root: an empty answer is exactly validity, and every path
      reported starts with the root's. */
  method ValidateAgainstSchema(rules: Rules, value: Json, schema: Schema, path: string)
    returns (errors: seq<SchemaError>)
    requires WellFormed(value) && ProperSchema(schema)
    ensures errors == [] <==> Valid(rules, Meaning(value), schema)
    ensures Below(errors, path)
    ensures errors == Errors(rules, value, schema, path)
  {
    var sink := new ErrorList();
    ValidateNode(rules, value, schema, path, sink);
    errors := sink.errors;
    NoErrorsIffValid(rules, value, schema, path);
    EveryErrorExtendsThePath(rules, value, schema, path);
  }

  method ValidateNode(rules: Rules, value: Json, schema: Schema, path: string, sink: ErrorList)
    modifies sink
    ensures sink.errors == old(sink.errors) + Errors(rules, value, schema, path)
    decreases schema, 1
  {
    if schema.types.Some? && !exists t :: t in schema.types.value && MatchesType(value, t) {
      sink.PushIf(true, path, WrongType);
      return;
    }
    ValidateConstants(value, schema, path, sink);
    ValidateContent(rules, value, schema, path, sink);
    Regroup(old(sink.errors), ConstantErrors(value, schema, path), ContentErrors(rules, value, schema, path));
  }

  method ValidateConstants(value: Json, schema: Schema, path: string, sink: ErrorList)
    modifies sink
    ensures sink.errors == old(sink.errors) + ConstantErrors(value, schema, path)
  {
    sink.PushIf(schema.constant.Some? && !DeepEqual(value, schema.constant.value), path, NotTheConstant);
    sink.PushIf(schema.enumeration.Some? && !IsMember(value, schema.enumeration.value), path, NotInEnumeration);
  }

  method ValidateContent(rules: Rules, value: Json, schema: Schema, path: string, sink: ErrorList)
    modifies sink
    ensures sink.errors == old(sink.errors) + ContentErrors(rules, value, schema, path)
    decreases schema, 0, 1
  {
    match value {
      case Str(t) => ValidateString(rules, t, schema, path, sink);
      case Num(n) => ValidateNumber(n, schema, path, sink);
      case Arr(items) => ValidateArray(rules, items, schema, path, sink);
      case Obj(fields) => ValidateObject(rules, fields, schema, path, sink);
      case _ =>
    }
  }

  method ValidateString(rules: Rules, t: string, schema: Schema, path: string, sink: ErrorList)
    modifies sink
    ensures sink.errors == old(sink.errors) + StringErrors(rules, t, schema, path)
  {
    sink.PushIf(schema.minLength.Some? && Units(t) as real < schema.minLength.value, path, TooShort);
    sink.PushIf(schema.maxLength.Some? && Units(t) as real > schema.maxLength.value, path, TooLong);
    ValidatePattern(rules, t, schema, path, sink);
    sink.PushIf(schema.format == Some("uri") && !rules.isUri(t), path, NotUri);
    sink.PushIf(schema.format == Some("email") && !rules.isEmail(t), path, NotEmail);
    Regroup5(old(sink.errors),
      Flag(schema.minLength.Some? && Units(t) as real < schema.minLength.value, path, TooShort),
      Flag(schema.maxLength.Some? && Units(t) as real > schema.maxLength.value, path, TooLong),
      PatternErrors(rules, t, schema, path),
      Flag(schema.format == Some("uri") && !rules.isUri(t), path, NotUri),
      Flag(schema.format == Some("email") && !rules.isEmail(t), path, NotEmail));
  }

  method ValidatePattern(rules: Rules, t: string, schema: Schema, path: string, sink: ErrorList)
    modifies sink
    ensures sink.errors == old(sink.errors) + PatternErrors(rules, t, schema, path)
  {
    if schema.pattern.Some? {
      match rules.compile(schema.pattern.value) {
        case None => sink.PushIf(true, path, InvalidPattern);
        case Some(test) => sink.PushIf(!test(t), path, PatternMismatch);
      }
    }
  }

  method ValidateNumber(n: real, schema: Schema, path: string, sink: ErrorList)
    modifies sink
    ensures sink.errors == old(sink.errors) + NumberErrors(n, schema, path)
  {
    sink.PushIf(schema.minimum.Some? && n < schema.minimum.value, path, BelowMinimum);
    sink.PushIf(schema.maximum.Some? && n > schema.maximum.value, path, AboveMaximum);
    sink.PushIf(schema.exclusiveMinimum.Some? && n <= schema.exclusiveMinimum.value, path, NotAboveMinimum);
    sink.PushIf(schema.exclusiveMaximum.Some? && n >= schema.exclusiveMaximum.value, path, NotBelowMaximum);
    sink.PushIf(FarFromMultiple(n, schema), path, NotMultiple);
    Regroup5(old(sink.errors),
      Flag(schema.minimum.Some? && n < schema.minimum.value, path, BelowMinimum),
      Flag(schema.maximum.Some? && n > schema.maximum.value, path, AboveMaximum),
      Flag(schema.exclusiveMinimum.Some? && n <= schema.exclusiveMinimum.value, path, NotAboveMinimum),
      Flag(schema.exclusiveMaximum.Some? && n >= schema.exclusiveMaximum.value, path, NotBelowMaximum),
      Flag(FarFromMultiple(n, schema), path, NotMultiple));
  }

  /** Compares every pair until the first equal one. */
  method FindDuplicate(items: seq<Json>) returns (found: bool)
    ensures found <==> HasDuplicates(items)
  {
    for i := 0 to |items|
      invariant forall a, b :: 0 <= a < b < |items| && a < i ==> !DeepEqual(items[a], items[b])
    {
      for j := i + 1 to |items|
        invariant forall b :: i < b < j ==> !DeepEqual(items[i], items[b])
      {
        if DeepEqual(items[i], items[j]) { return true; }
      }
    }
    return false;
  }

  method ValidateArray(rules: Rules, items: seq<Json>, schema: Schema, path: string, sink: ErrorList)
    modifies sink
    ensures sink.errors == old(sink.errors) + ArrayErrors(rules, items, schema, path)
    decreases schema, 0, 0
  {
    ValidateCount(items, schema, path, sink);
    if schema.items.Some? {
      ValidateItems(rules, items, schema.items.value, path, sink);
      Regroup(old(sink.errors), CountErrors(items, schema, path),
        ItemErrors(rules, items, schema.items.value, path, |items|));
    }
  }

  method ValidateItems(rules: Rules, items: seq<Json>, schema: Schema, path: string, sink: ErrorList)
    modifies sink
    ensures sink.errors == old(sink.errors) + ItemErrors(rules, items, schema, path, |items|)
    decreases schema, 2
  {
    for i := 0 to |items|
      invariant sink.errors == old(sink.errors) + ItemErrors(rules, items, schema, path, i)
    {
      ValidateNode(rules, items[i], schema, At(path, i), sink);
      Regroup(old(sink.errors), ItemErrors(rules, items, schema, path, i),
        Errors(rules, items[i], schema, At(path, i)));
    }
  }

  method ValidateCount(items: seq<Json>, schema: Schema, path: string, sink: ErrorList)
    modifies sink
    ensures sink.errors == old(sink.errors) + CountErrors(items, schema, path)
  {
    sink.PushIf(schema.minItems.Some? && |items| as real < schema.minItems.value, path, TooFewItems);
    sink.PushIf(schema.maxItems.Some? && |items| as real > schema.maxItems.value, path, TooManyItems);
    if schema.uniqueItems {
      var found := FindDuplicate(items);
      sink.PushIf(found, path, DuplicateItems);
    }
  }

  method ValidateObject(rules: Rules, fields: seq<Field>, schema: Schema, path: string, sink: ErrorList)
    modifies sink
    ensures sink.errors == old(sink.errors) + ObjectErrors(rules, fields, schema, path)
    decreases schema, 0, 0
  {
    ValidateRequired(fields, schema.required, path, sink);
    if schema.properties.Properties? {
      ValidateDeclared(rules, fields, schema.properties, path, sink);
      ValidateOthers(rules, fields, schema.properties.list, schema.additional, path, sink);
      ghost var declared := PropertyErrors(rules, fields, schema.properties, path, |schema.properties.list|);
      ghost var others := AdditionalErrors(rules, fields, schema.properties.list, schema.additional, path, |fields|);
      ghost var required := RequiredErrors(fields, schema.required, path, |schema.required|);
      Regroup(old(sink.errors) + required, declared, others);
      Regroup(old(sink.errors), required, declared + others);
    }
  }

  method ValidateRequired(fields: seq<Field>, required: seq<string>, path: string, sink: ErrorList)
    modifies sink
    ensures sink.errors == old(sink.errors) + RequiredErrors(fields, required, path, |required|)
  {
    for i := 0 to |required|
      invariant sink.errors == old(sink.errors) + RequiredErrors(fields, required, path, i)
    {
      var v := Get(fields, required[i]);
      sink.PushIf(v.None? || v.value == Null || v.value == Str(""), Dot(path, required[i]), MissingOrEmpty);
    }
  }

  method ValidateDeclared(rules: Rules, fields: seq<Field>, props: Properties, path: string, sink: ErrorList)
    requires props.Properties?
    modifies sink
    ensures sink.errors == old(sink.errors) + PropertyErrors(rules, fields, props, path, |props.list|)
    decreases props, 2
  {
    for i := 0 to |props.list|
      invariant sink.errors == old(sink.errors) + PropertyErrors(rules, fields, props, path, i)
    {
      var v := Get(fields, props.list[i].key);
      if v.Some? {
        ValidateNode(rules, v.value, props.list[i].schema, Dot(path, props.list[i].key), sink);
      }
    }
  }

  method ValidateOthers(
    rules: Rules, fields: seq<Field>, props: seq<Property>, additional: Additional, path: string, sink: ErrorList)
    modifies sink
    ensures sink.errors == old(sink.errors) + AdditionalErrors(rules, fields, props, additional, path, |fields|)
    decreases additional, 2
  {
    for i := 0 to |fields|
      invariant sink.errors == old(sink.errors) + AdditionalErrors(rules, fields, props, additional, path, i)
    {
      ValidateExtra(rules, fields[i], props, additional, path, sink);
      Regroup(old(sink.errors), AdditionalErrors(rules, fields, props, additional, path, i),
        ExtraErrors(rules, fields[i], props, additional, path));
    }
  }

  method ValidateExtra(
    rules: Rules, f: Field, props: seq<Property>, additional: Additional, path: string, sink: ErrorList)
    modifies sink
    ensures sink.errors == old(sink.errors) + ExtraErrors(rules, f, props, additional, path)
    decreases additional, 1
  {
    if !Declared(props, f.key) {
      match additional {
        case Unrestricted =>
        case Forbidden => sink.PushIf(true, Dot(path, f.key), UnknownProperty);
        case MustMatch(schema) => ValidateNode(rules, f.value, schema, Dot(path, f.key), sink);
      }
    }
  }
}
