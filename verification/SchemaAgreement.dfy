/** Exactly for which schemas the validator gives every value the verdict of draft-07: an
    if-and-only-if over types, required, properties, additionalProperties, items with their limits,
    enumerations and constants, at every level. What strings and numbers contribute is decided
    leaf by leaf. */
module SchemaAgreement {
  import opened Basics
  import opened JsonValues
  import opened JsonSchema
  import opened DraftSeven
  import opened SchemaWitnesses

  /* ------------------------------- schemas that refuse nothing ------------------------------- */

  predicate AllTypes(s: Schema) {
    && Lists(s, TNull) && Lists(s, TBoolean) && Lists(s, TNumber)
    && Lists(s, TString) && Lists(s, TArray) && Lists(s, TObject)
  }

  predicate DividesNothing(s: Schema) { s.multipleOf.Some? ==> s.multipleOf.value <= 0.0 }

  predicate BoundsNothing(s: Schema) {
    s.minimum.None? && s.maximum.None? && s.exclusiveMinimum.None? && s.exclusiveMaximum.None?
  }

  predicate CountsNothing(s: Schema) {
    (s.minItems.Some? ==> s.minItems.value <= 0.0) && s.maxItems.None? && !s.uniqueItems
  }

  /** The draft's relation holds of every value. */
  ghost predicate RefusesNothing(rules: Rules, s: Schema) {
    && !Pinned(s) && AllTypes(s) && DividesNothing(s) && BoundsNothing(s) && CountsNothing(s)
    && (forall t :: DraftString(rules, t, s))
    && s.required == []
    && (s.items.Some? ==> RefusesNothing(rules, s.items.value))
    && (s.properties.Properties? ==>
          forall i :: 0 <= i < |s.properties.list| ==> RefusesNothing(rules, s.properties.list[i].schema))
    && (s.additional.Unrestricted? || (s.additional.MustMatch? && RefusesNothing(rules, s.additional.schema)))
  }

  lemma {:induction false} NothingRefused(rules: Rules, v: Value, s: Schema)
    requires RefusesNothing(rules, s)
    ensures DraftValid(rules, v, s)
    decreases s
  {
    JudgedByKind(Draft, rules, v, s);
    if v.VArr? && s.items.Some? {
      forall i | 0 <= i < |v.items|
        ensures DraftValid(rules, v.items[i], s.items.value)
      {
        NothingRefused(rules, v.items[i], s.items.value);
      }
    }
    if v.VObj? && s.properties.Properties? {
      forall i | 0 <= i < |s.properties.list| && s.properties.list[i].key in v.fields
        ensures DraftValid(rules, v.fields[s.properties.list[i].key], s.properties.list[i].schema)
      {
        NothingRefused(rules, v.fields[s.properties.list[i].key], s.properties.list[i].schema);
      }
    }
    if v.VObj? && s.additional.MustMatch? {
      forall key | key in v.fields
        ensures DraftValid(rules, v.fields[key], s.additional.schema)
      {
        NothingRefused(rules, v.fields[key], s.additional.schema);
      }
    }
  }

  /** A value that the draft refuses, for every other schema. */
  lemma {:induction false} SomethingRefused(rules: Rules, s: Schema) returns (v: Value)
    requires !RefusesNothing(rules, s)
    ensures !DraftValid(rules, v, s)
    decreases s
  {
    if Pinned(s) {
      v := Unlisted(Listed(s), |Listed(s)|);
      if DraftValid(rules, v, s) {
        OnlyListed(Draft, rules, v, s);
      }
      return;
    }
    if !AllTypes(s) {
      v := OffType(rules, s);
    } else if !DividesNothing(s) || !BoundsNothing(s) {
      v := OffNumber(s);
    } else if !CountsNothing(s) {
      v := OffCount(s);
    } else if exists t :: !DraftString(rules, t, s) {
      var t :| !DraftString(rules, t, s);
      v := VStr(t);
    } else if s.items.Some? && !RefusesNothing(rules, s.items.value) {
      var w := SomethingRefused(rules, s.items.value);
      v := VArr([w]);
      assert v.items[0] == w;
    } else {
      v := OffObject(rules, s);
    }
    JudgedByKind(Draft, rules, v, s);
  }

  /** A text longer than every one of the first `n` values that is a text. */
  lemma {:induction false} Unlisted(list: seq<Json>, n: nat) returns (v: Value)
    requires n <= |list|
    ensures v.VStr? && forall i :: 0 <= i < n && Meaning(list[i]).VStr? ==> |Meaning(list[i]).s| < |v.s|
  {
    v := VStr("x");
    if n > 0 {
      v := Unlisted(list, n - 1);
      var last := Meaning(list[n - 1]);
      if last.VStr? && |last.s| >= |v.s| {
        v := VStr(last.s + "x");
      }
    }
  }

  lemma OffType(rules: Rules, s: Schema) returns (v: Value)
    requires !AllTypes(s)
    ensures !Judged(Draft, rules, v, s)
  {
    v := if !Lists(s, TNull) then VNull
         else if !Lists(s, TBoolean) then VBool(true)
         else if !Lists(s, TString) then VStr("")
         else if !Lists(s, TArray) then VArr([])
         else if !Lists(s, TObject) then VObj(map[])
         else VNum(0.5);
    HalfIsNoInteger();
  }

  lemma HalfIsNoInteger()
    ensures forall k: int :: !Equals(0.5, k)
  {
  }

  lemma HalfIsNoMultiple(n: real, m: real)
    requires m > 0.0 && n == 0.5 * m
    ensures forall k: int :: !IsMultiple(n, m, k)
  {
    forall k: int
      ensures !IsMultiple(n, m, k)
    {
      if n == k as real * m {
        CancelFactor(0.5, k as real, m);
      }
    }
  }

  lemma OffNumber(s: Schema) returns (v: Value)
    requires !DividesNothing(s) || !BoundsNothing(s)
    ensures v.VNum? && !DraftNumber(v.n, s)
  {
    if !DividesNothing(s) {
      var n := 0.5 * s.multipleOf.value;
      HalfIsNoMultiple(n, s.multipleOf.value);
      v := VNum(n);
    } else {
      v := VNum(
        if s.minimum.Some? then s.minimum.value - 1.0
        else if s.maximum.Some? then s.maximum.value + 1.0
        else if s.exclusiveMinimum.Some? then s.exclusiveMinimum.value
        else s.exclusiveMaximum.value);
    }
  }

  lemma OffCount(s: Schema) returns (v: Value)
    requires !CountsNothing(s)
    ensures v.VArr? && !CountValid(v.items, s)
  {
    if s.minItems.Some? && s.minItems.value > 0.0 {
      v := VArr([]);
    } else if s.uniqueItems {
      v := VArr([VNull, VNull]);
      assert v.items[0] == v.items[1];
    } else {
      var n := if s.maxItems.value < 0.0 then 0 else s.maxItems.value.Floor + 1;
      v := VArr(seq(n, _ => VNull));
      assert |v.items| == n;
    }
  }

  lemma OffObject(rules: Rules, s: Schema) returns (v: Value)
    requires s.required == [] ==> (
      || s.additional.Forbidden? || (s.additional.MustMatch? && !RefusesNothing(rules, s.additional.schema))
      || (s.properties.Properties? && exists i ::
            0 <= i < |s.properties.list| && !RefusesNothing(rules, s.properties.list[i].schema)))
    ensures v.VObj? && !DraftObject(rules, v.fields, s)
    decreases s, 0
  {
    var other := NewKey(s.properties, []);
    if s.required != [] {
      assert s.required[0] in s.required;
      v := VObj(map[]);
    } else if s.additional.Forbidden? {
      v := VObj(map[other := VNull]);
      assert other in v.fields;
    } else if s.additional.MustMatch? && !RefusesNothing(rules, s.additional.schema) {
      var w := SomethingRefused(rules, s.additional.schema);
      v := VObj(map[other := w]);
      assert other in v.fields;
    } else {
      var i :| 0 <= i < |s.properties.list| && !RefusesNothing(rules, s.properties.list[i].schema);
      var w := SomethingRefused(rules, s.properties.list[i].schema);
      v := VObj(map[s.properties.list[i].key := w]);
    }
  }

  /* ------------------------------- keys nobody mentions ------------------------------- */

  function PropertyKeys(props: Properties): seq<string> {
    if props.Properties? then seq(|props.list|, i requires 0 <= i < |props.list| => props.list[i].key) else []
  }

  /** A key longer than all of these. */
  function LongestOf(keys: seq<string>): (key: string)
    ensures forall k :: k in keys ==> |k| < |key|
  {
    if keys == [] then "x"
    else
      var last, rest := keys[|keys| - 1], LongestOf(keys[..|keys| - 1]);
      assert forall k :: k in keys ==> k == last || k in keys[..|keys| - 1];
      if |last| < |rest| then rest else last + "x"
  }

  /** A key that is neither declared nor one of these. */
  function NewKey(props: Properties, keys: seq<string>): (key: string)
    ensures !DeclaredIn(props, key) && key !in keys
  {
    var declared := PropertyKeys(props);
    assert props.Properties? ==> forall i :: 0 <= i < |props.list| ==>
      props.list[i].key == declared[i] && declared[i] in declared + keys;
    LongestOf(declared + keys)
  }

  /* ------------------------------- agreement ------------------------------- */

  ghost predicate NumbersAgree(s: Schema) {
    forall n :: AllowsNumber(s, n) ==> (NumberValid(n, s) <==> DraftNumber(n, s))
  }

  ghost predicate TextsAgree(rules: Rules, s: Schema) {
    Lists(s, TString) ==> forall t :: StringValid(rules, t, s) <==> DraftString(rules, t, s)
  }

  /** The listed values get one verdict each. */
  ghost predicate ListAgrees(rules: Rules, s: Schema)
    requires Pinned(s)
  {
    forall i :: 0 <= i < |Listed(s)| ==>
      (Valid(rules, Meaning(Listed(s)[i]), s) <==> DraftValid(rules, Meaning(Listed(s)[i]), s))
  }

  /** What stands for a required property here satisfies the draft neither as null nor as "". */
  ghost predicate RefusesEmpties(rules: Rules, slot: Additional) {
    !SlotAdmits(Draft, rules, VNull, slot) && !SlotAdmits(Draft, rules, VStr(""), slot)
  }

  /** Different items are asked for, and neither side has enough. */
  ghost predicate TooFewItems(rules: Rules, s: Schema) {
    Plural(s) && !SomeArray(Draft, rules, s) && !SomeArray(Validator, rules, s)
  }

  /** The condition, keyword by keyword. */
  ghost predicate Agreeing(rules: Rules, s: Schema)
    decreases s, 2
  {
    if Pinned(s) then ListAgrees(rules, s)
    else
      && NumbersAgree(s) && TextsAgree(rules, s)
      && (Lists(s, TArray) && Roomy(s) && s.items.Some? ==> Agreeing(rules, s.items.value) || TooFewItems(rules, s))
      && (Lists(s, TObject) ==> FieldsAgree(rules, s))
  }

  ghost predicate FieldsAgree(rules: Rules, s: Schema)
    decreases s, 1
  {
    if s.properties.Properties? then ClosedAgrees(rules, s) else OpenAgrees(rules, s)
  }

  /** Without `properties` nothing may be required and nothing restricted. */
  ghost predicate OpenAgrees(rules: Rules, s: Schema) {
    s.required == []
    && (s.additional.Unrestricted? || (s.additional.MustMatch? && RefusesNothing(rules, s.additional.schema)))
  }

  /** With `properties`, either no object satisfies the required ones on either side, or all
      slots agree and what is required refuses null and the empty string anyway. */
  ghost predicate ClosedAgrees(rules: Rules, s: Schema)
    requires s.properties.Properties?
    decreases s, 0
  {
    || (!Fillable(Draft, rules, s) && !Fillable(Validator, rules, s))
    || (Fillable(Draft, rules, s) && Fillable(Validator, rules, s)
        && (forall i :: 0 <= i < |s.properties.list| ==> Agreeing(rules, s.properties.list[i].schema))
        && (s.additional.MustMatch? ==> Agreeing(rules, s.additional.schema))
        && (forall key :: key in s.required ==> RefusesEmpties(rules, SlotOf(s, key))))
  }

  lemma {:induction false} AgreeingSchemasAgree(rules: Rules, v: Value, s: Schema)
    requires KeysOnce(s) && Agreeing(rules, s)
    ensures Valid(rules, v, s) <==> DraftValid(rules, v, s)
    decreases s, 1
  {
    if Pinned(s) {
      if Admits(Validator, rules, v, s) {
        OnlyListed(Validator, rules, v, s);
      }
      if Admits(Draft, rules, v, s) {
        OnlyListed(Draft, rules, v, s);
      }
      return;
    }
    JudgedByKind(Draft, rules, v, s);
    JudgedByKind(Validator, rules, v, s);
    match v {
      case VArr(items) =>
        if s.items.Some? && Lists(s, TArray) && CountValid(items, s) && items != [] && !TooFewItems(rules, s) {
          FittingIsRoomy(s, |items|);
          forall i | 0 <= i < |items|
            ensures Valid(rules, items[i], s.items.value) <==> DraftValid(rules, items[i], s.items.value)
          {
            AgreeingSchemasAgree(rules, items[i], s.items.value);
          }
        }
      case VObj(fields) =>
        if Lists(s, TObject) {
          ObjectsAgree(rules, fields, s);
        }
      case _ =>
    }
  }

  lemma ObjectsAgree(rules: Rules, fields: map<string, Value>, s: Schema)
    requires KeysOnce(s) && FieldsAgree(rules, s)
    ensures ObjectValid(rules, fields, s) <==> DraftObject(rules, fields, s)
    decreases s, 0
  {
    if s.properties.Undeclared? {
      if s.additional.MustMatch? {
        forall key | key in fields
          ensures DraftValid(rules, fields[key], s.additional.schema)
        {
          NothingRefused(rules, fields[key], s.additional.schema);
        }
      }
    } else if Fillable(Draft, rules, s) {
      ObjectBySlots(Draft, rules, fields, s);
      ObjectBySlots(Validator, rules, fields, s);
      forall key | key in fields
        ensures SlotAdmits(Validator, rules, fields[key], SlotOf(s, key)) <==>
          SlotAdmits(Draft, rules, fields[key], SlotOf(s, key))
      {
        var slot := SlotOf(s, key);
        if slot.MustMatch? {
          AgreeingSchemasAgree(rules, fields[key], slot.schema);
        }
      }
    } else {
      if ObjectHolds(Draft, rules, fields, s) {
        FilledIsFillable(Draft, rules, fields, s);
      }
      if ObjectHolds(Validator, rules, fields, s) {
        FilledIsFillable(Validator, rules, fields, s);
      }
    }
  }

  /* ------------------------------- disagreement ------------------------------- */

  /** Null or the empty string for a required property satisfies the draft and not the validator. */
  lemma EmptyRequired(rules: Rules, s: Schema, fields: map<string, Value>, key: string, e: Value)
    requires s.properties.Properties? && UniqueKeys(s.properties.list) && IsEmpty(e)
    requires key in s.required && ObjectHolds(Draft, rules, fields, s) && SlotAdmits(Draft, rules, e, SlotOf(s, key))
    ensures DraftObject(rules, fields[key := e], s) && !ObjectValid(rules, fields[key := e], s)
  {
    ObjectBySlots(Draft, rules, fields, s);
    ObjectBySlots(Draft, rules, fields[key := e], s);
    assert !Present(fields[key := e], key);
  }

  /** A field on which the slot's verdicts differ, put into objects that satisfy one side each. */
  lemma FieldDecides(rules: Rules, s: Schema, side: Side, other: Side, fields: map<string, Value>, key: string,
      w: Value)
    requires s.properties.Properties? && UniqueKeys(s.properties.list)
    requires ObjectHolds(side, rules, fields, s) && Counts(side, w)
    requires SlotAdmits(side, rules, w, SlotOf(s, key)) && !SlotAdmits(other, rules, w, SlotOf(s, key))
    ensures ObjectHolds(side, rules, fields[key := w], s) && !ObjectHolds(other, rules, fields[key := w], s)
  {
    ObjectBySlots(side, rules, fields, s);
    ObjectBySlots(side, rules, fields[key := w], s);
    ObjectBySlots(other, rules, fields[key := w], s);
    assert key in fields[key := w];
  }

  /** Without `properties` the validator ignores what the draft refuses. */
  lemma IgnoredRestriction(rules: Rules, s: Schema, w: Value)
    requires s.properties.Undeclared?
    requires s.additional.Forbidden? || (s.additional.MustMatch? && !DraftValid(rules, w, s.additional.schema))
    ensures var fields := AllKeys(s.required, VBool(true))[NewKey(s.properties, s.required) := w];
      ObjectValid(rules, fields, s) && !DraftObject(rules, fields, s)
  {
    var key := NewKey(s.properties, s.required);
    var fields := AllKeys(s.required, VBool(true))[key := w];
    assert key in fields && fields[key] == w;
  }

  /** A value on which the two relations differ, for every other schema. */
  lemma {:induction false} DisagreeingValue(rules: Rules, s: Schema) returns (v: Value)
    requires KeysOnce(s) && !Agreeing(rules, s)
    ensures Valid(rules, v, s) != DraftValid(rules, v, s)
    decreases s, 3
  {
    if Pinned(s) {
      var i :| 0 <= i < |Listed(s)|
        && Valid(rules, Meaning(Listed(s)[i]), s) != DraftValid(rules, Meaning(Listed(s)[i]), s);
      v := Meaning(Listed(s)[i]);
      return;
    }
    if !NumbersAgree(s) {
      var n :| AllowsNumber(s, n) && NumberValid(n, s) != DraftNumber(n, s);
      v := VNum(n);
    } else if !TextsAgree(rules, s) {
      var t :| StringValid(rules, t, s) != DraftString(rules, t, s);
      v := VStr(t);
    } else if Lists(s, TArray) && Roomy(s) && s.items.Some?
              && !Agreeing(rules, s.items.value) && !TooFewItems(rules, s) {
      var w := DisagreeingValue(rules, s.items.value);
      v := DisagreeingArray(rules, s, w);
    } else {
      var fields := DisagreeingObject(rules, s);
      v := VObj(fields);
    }
    JudgedByKind(Draft, rules, v, s);
    JudgedByKind(Validator, rules, v, s);
  }

  /** An array on which they differ, from an item on which they do. */
  lemma DisagreeingArray(rules: Rules, s: Schema, w: Value) returns (v: Value)
    requires Lists(s, TArray) && Roomy(s) && s.items.Some? && !TooFewItems(rules, s)
    requires Valid(rules, w, s.items.value) != DraftValid(rules, w, s.items.value)
    ensures v.VArr? && Judged(Draft, rules, v, s) != Judged(Validator, rules, v, s)
  {
    var side, other := Draft, Validator;
    if Valid(rules, w, s.items.value) {
      side, other := Validator, Draft;
    }
    if !Plural(s) {
      v := Copies(s, w);
      CopiesAreJudged(Draft, rules, s, w);
      CopiesAreJudged(Validator, rules, s, w);
    } else if SomeArray(side, rules, s) {
      var items :| CountValid(items, s) && ItemsHold(side, rules, items, s);
      items := WithItem(side, rules, s, items, w);
      v := VArr(items);
    } else {
      var items :| CountValid(items, s) && ItemsHold(other, rules, items, s);
      v := VArr(items);
    }
  }

  /** Different items, one of which is `w`. */
  lemma WithItem(side: Side, rules: Rules, s: Schema, items: seq<Value>, w: Value) returns (all: seq<Value>)
    requires Plural(s) && s.items.Some? && CountValid(items, s) && ItemsHold(side, rules, items, s)
    requires Admits(side, rules, w, s.items.value)
    ensures CountValid(all, s) && ItemsHold(side, rules, all, s) && w in all
  {
    all := if w in items then items else items[0 := w];
    assert all[0] == w || w in items;
  }

  lemma DisagreeingObject(rules: Rules, s: Schema) returns (fields: map<string, Value>)
    requires KeysOnce(s) && !FieldsAgree(rules, s)
    ensures ObjectValid(rules, fields, s) != DraftObject(rules, fields, s)
    decreases s, 2
  {
    if s.properties.Properties? {
      fields := DisagreeingClosed(rules, s);
    } else if s.additional.Forbidden? {
      IgnoredRestriction(rules, s, VNull);
      fields := AllKeys(s.required, VBool(true))[NewKey(s.properties, s.required) := VNull];
    } else if s.additional.MustMatch? && !RefusesNothing(rules, s.additional.schema) {
      var w := SomethingRefused(rules, s.additional.schema);
      IgnoredRestriction(rules, s, w);
      fields := AllKeys(s.required, VBool(true))[NewKey(s.properties, s.required) := w];
    } else {
      fields := AllKeys(s.required, VNull);
      assert s.required[0] in s.required && !Present(fields, s.required[0]);
      if s.additional.MustMatch? {
        NothingRefused(rules, VNull, s.additional.schema);
      }
    }
  }

  lemma DisagreeingClosed(rules: Rules, s: Schema) returns (fields: map<string, Value>)
    requires KeysOnce(s) && s.properties.Properties? && !ClosedAgrees(rules, s)
    ensures ObjectValid(rules, fields, s) != DraftObject(rules, fields, s)
    decreases s, 1
  {
    if !Fillable(Draft, rules, s) {
      fields := FilledObject(Validator, rules, s);
      if ObjectHolds(Draft, rules, fields, s) {
        FilledIsFillable(Draft, rules, fields, s);
      }
    } else if !Fillable(Validator, rules, s) {
      fields := FilledObject(Draft, rules, s);
      if ObjectHolds(Validator, rules, fields, s) {
        FilledIsFillable(Validator, rules, fields, s);
      }
    } else if exists key :: key in s.required && !RefusesEmpties(rules, SlotOf(s, key)) {
      var key :| key in s.required && !RefusesEmpties(rules, SlotOf(s, key));
      var e := if SlotAdmits(Draft, rules, VNull, SlotOf(s, key)) then VNull else VStr("");
      fields := FilledObject(Draft, rules, s);
      EmptyRequired(rules, s, fields, key, e);
      fields := fields[key := e];
    } else {
      var key, w := DisagreeingField(rules, s);
      if SlotAdmits(Draft, rules, w, SlotOf(s, key)) {
        fields := FilledObject(Draft, rules, s);
        FieldDecides(rules, s, Draft, Validator, fields, key, w);
      } else {
        fields := FilledObject(Validator, rules, s);
        FieldDecides(rules, s, Validator, Draft, fields, key, w);
      }
      fields := fields[key := w];
    }
  }

  lemma FilledObject(side: Side, rules: Rules, s: Schema) returns (fields: map<string, Value>)
    requires KeysOnce(s) && s.properties.Properties? && Fillable(side, rules, s)
    ensures ObjectHolds(side, rules, fields, s)
  {
    fields := Fill(side, rules, s, |s.required|);
    assert s.required[..|s.required|] == s.required;
    ObjectBySlots(side, rules, fields, s);
  }

  lemma DisagreeingField(rules: Rules, s: Schema) returns (key: string, w: Value)
    requires KeysOnce(s) && s.properties.Properties?
    requires !((forall i :: 0 <= i < |s.properties.list| ==> Agreeing(rules, s.properties.list[i].schema))
               && (s.additional.MustMatch? ==> Agreeing(rules, s.additional.schema)))
    ensures SlotAdmits(Draft, rules, w, SlotOf(s, key)) != SlotAdmits(Validator, rules, w, SlotOf(s, key))
    ensures !IsEmpty(w)
    decreases s, 0
  {
    if s.additional.MustMatch? && !Agreeing(rules, s.additional.schema) {
      key := NewKey(s.properties, []);
      w := DisagreeingValue(rules, s.additional.schema);
      if IsEmpty(w) {
        EmptiesAgree(rules, w, s.additional.schema);
      }
    } else {
      var i :| 0 <= i < |s.properties.list| && !Agreeing(rules, s.properties.list[i].schema);
      key := s.properties.list[i].key;
      SlotIsUnique(s, i);
      w := DisagreeingValue(rules, s.properties.list[i].schema);
      if IsEmpty(w) {
        EmptiesAgree(rules, w, s.properties.list[i].schema);
      }
    }
  }

  /** Exactly for which schemas the validator and the draft give every value one verdict. */
  lemma SchemaAgreesIff(rules: Rules, s: Schema)
    requires KeysOnce(s)
    ensures (forall v :: Valid(rules, v, s) <==> DraftValid(rules, v, s)) <==> Agreeing(rules, s)
  {
    if Agreeing(rules, s) {
      forall v
        ensures Valid(rules, v, s) <==> DraftValid(rules, v, s)
      {
        AgreeingSchemasAgree(rules, v, s);
      }
    } else {
      var v := DisagreeingValue(rules, s);
      assert Valid(rules, v, s) != DraftValid(rules, v, s);
    }
  }
}
