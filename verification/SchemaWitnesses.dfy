/** The validator's relation and draft-07's, side by side, and which schemas either of them can
    satisfy at all: exactly those for which a value is built. */
module SchemaWitnesses {
  import opened Basics
  import opened JsonValues
  import opened JsonSchema
  import opened DraftSeven

  /** The two relations, to speak of both at once. */
  datatype Side = Draft | Validator

  ghost predicate Admits(side: Side, rules: Rules, v: Value, s: Schema) {
    match side
    case Draft => DraftValid(rules, v, s)
    case Validator => Valid(rules, v, s)
  }

  ghost predicate StringHolds(side: Side, rules: Rules, t: string, s: Schema) {
    match side
    case Draft => DraftString(rules, t, s)
    case Validator => StringValid(rules, t, s)
  }

  ghost predicate NumberHolds(side: Side, n: real, s: Schema) {
    match side
    case Draft => DraftNumber(n, s)
    case Validator => NumberValid(n, s)
  }

  ghost predicate ObjectHolds(side: Side, rules: Rules, fields: map<string, Value>, s: Schema) {
    match side
    case Draft => DraftObject(rules, fields, s)
    case Validator => ObjectValid(rules, fields, s)
  }

  predicate IsEmpty(v: Value) { v == VNull || v == VStr("") }

  /** May the value stand for a required property? */
  predicate Counts(side: Side, v: Value) { side.Draft? || !IsEmpty(v) }

  ghost predicate UniqueKeys(props: seq<Property>) {
    forall i, j :: 0 <= i < j < |props| ==> props[i].key != props[j].key
  }

  /** No property is declared twice, at any level: JSON objects have each key once. */
  ghost predicate KeysOnce(s: Schema) {
    && (s.properties.Properties? ==>
          UniqueKeys(s.properties.list) && forall i :: 0 <= i < |s.properties.list| ==>
            KeysOnce(s.properties.list[i].schema))
    && (s.items.Some? ==> KeysOnce(s.items.value))
    && (s.additional.MustMatch? ==> KeysOnce(s.additional.schema))
  }

  /* ------------------------------- one value at a schema ------------------------------- */

  predicate Pinned(s: Schema) { s.constant.Some? || s.enumeration.Some? }

  function Listed(s: Schema): seq<Json>
    requires Pinned(s)
  {
    if s.constant.Some? then [s.constant.value] else s.enumeration.value
  }

  predicate Lists(s: Schema, t: Type) { s.types.Some? ==> t in s.types.value }

  ghost predicate AllowsNumber(s: Schema, n: real) {
    Lists(s, TNumber) || (Lists(s, TInteger) && exists k: int :: Equals(n, k))
  }

  /** What either relation asks of a value, when no values are listed. */
  ghost predicate Judged(side: Side, rules: Rules, v: Value, s: Schema) {
    match v
    case VNull => Lists(s, TNull)
    case VBool(_) => Lists(s, TBoolean)
    case VNum(n) => AllowsNumber(s, n) && NumberHolds(side, n, s)
    case VStr(t) => Lists(s, TString) && StringHolds(side, rules, t, s)
    case VArr(items) => Lists(s, TArray) && CountValid(items, s) && ItemsHold(side, rules, items, s)
    case VObj(fields) => Lists(s, TObject) && ObjectHolds(side, rules, fields, s)
  }

  ghost predicate ItemsHold(side: Side, rules: Rules, items: seq<Value>, s: Schema) {
    s.items.Some? ==> forall i :: 0 <= i < |items| ==> Admits(side, rules, items[i], s.items.value)
  }

  lemma JudgedByKind(side: Side, rules: Rules, v: Value, s: Schema)
    requires !Pinned(s)
    ensures Admits(side, rules, v, s) <==> Judged(side, rules, v, s)
  {
  }

  lemma OnlyListed(side: Side, rules: Rules, v: Value, s: Schema)
    requires Pinned(s) && Admits(side, rules, v, s)
    ensures exists i :: 0 <= i < |Listed(s)| && v == Meaning(Listed(s)[i])
  {
    if s.constant.Some? {
      assert v == Meaning(Listed(s)[0]);
    } else {
      var i :| 0 <= i < |s.enumeration.value| && v == Meaning(s.enumeration.value[i]);
      assert Listed(s)[i] == s.enumeration.value[i];
    }
  }

  /** On null and the empty string the two relations cannot differ. */
  lemma EmptiesAgree(rules: Rules, v: Value, s: Schema)
    requires IsEmpty(v)
    ensures Valid(rules, v, s) <==> DraftValid(rules, v, s)
  {
  }

  /* ------------------------------- what a schema says of a key ------------------------------- */

  ghost function SlotOf(s: Schema, key: string): (slot: Additional)
    requires s.properties.Properties?
    ensures slot.MustMatch? ==> (s decreases to slot.schema)
    ensures Declared(s.properties.list, key) ==>
      exists i ::
        0 <= i < |s.properties.list| && s.properties.list[i].key == key
        && slot == MustMatch(s.properties.list[i].schema)
    ensures !Declared(s.properties.list, key) ==> slot == s.additional
  {
    if Declared(s.properties.list, key) then
      var i :| 0 <= i < |s.properties.list| && s.properties.list[i].key == key;
      MustMatch(s.properties.list[i].schema)
    else s.additional
  }

  ghost predicate SlotAdmits(side: Side, rules: Rules, v: Value, slot: Additional) {
    match slot
    case Unrestricted => true
    case Forbidden => false
    case MustMatch(schema) => Admits(side, rules, v, schema)
  }

  ghost predicate Filled(side: Side, fields: map<string, Value>, keys: seq<string>) {
    forall key :: key in keys ==> key in fields && Counts(side, fields[key])
  }

  ghost predicate EachFits(side: Side, rules: Rules, fields: map<string, Value>, s: Schema)
    requires s.properties.Properties?
  {
    forall key :: key in fields ==> SlotAdmits(side, rules, fields[key], SlotOf(s, key))
  }

  lemma SlotIsUnique(s: Schema, i: nat)
    requires s.properties.Properties? && UniqueKeys(s.properties.list) && i < |s.properties.list|
    ensures SlotOf(s, s.properties.list[i].key) == MustMatch(s.properties.list[i].schema)
  {
    assert Declared(s.properties.list, s.properties.list[i].key);
  }

  lemma ObjectBySlots(side: Side, rules: Rules, fields: map<string, Value>, s: Schema)
    requires s.properties.Properties? && UniqueKeys(s.properties.list)
    ensures ObjectHolds(side, rules, fields, s) <==>
      Filled(side, fields, s.required) && EachFits(side, rules, fields, s)
  {
    forall i | 0 <= i < |s.properties.list|
      ensures SlotOf(s, s.properties.list[i].key) == MustMatch(s.properties.list[i].schema)
    {
      SlotIsUnique(s, i);
    }
  }

  /* ------------------------------- satisfiable schemas ------------------------------- */

  predicate LengthFits(s: Schema, k: nat) {
    && (s.minItems.Some? ==> k as real >= s.minItems.value)
    && (s.maxItems.Some? ==> k as real <= s.maxItems.value)
  }

  /** The least positive length that `minItems` allows. */
  function FirstLength(s: Schema): nat {
    if s.minItems.None? || s.minItems.value <= 1.0 then 1 else -((-s.minItems.value).Floor)
  }

  /** Is any array but the empty one long and short enough? */
  predicate Roomy(s: Schema) { LengthFits(s, FirstLength(s)) }

  lemma FittingIsRoomy(s: Schema, k: nat)
    requires LengthFits(s, k) && k > 0
    ensures Roomy(s) && 0 < FirstLength(s) <= k
  {
  }

  /** Does the schema ask for two or more different items? Then one value for all of them will
      not do, and how many values satisfy the items' schema matters. */
  predicate Plural(s: Schema) { s.uniqueItems && s.minItems.Some? && s.minItems.value > 1.0 }

  /** Are there enough different items? */
  ghost predicate SomeArray(side: Side, rules: Rules, s: Schema) {
    exists items :: CountValid(items, s) && ItemsHold(side, rules, items, s)
  }

  ghost predicate SomeNumber(side: Side, s: Schema) {
    exists n :: AllowsNumber(s, n) && NumberHolds(side, n, s)
  }

  ghost predicate SomeString(side: Side, rules: Rules, s: Schema) {
    Lists(s, TString) && exists t :: Counts(side, VStr(t)) && StringHolds(side, rules, t, s)
  }

  /** Does any value satisfy the schema that may stand for a required property? */
  ghost predicate Satisfiable(side: Side, rules: Rules, s: Schema)
    decreases s, 2
  {
    if Pinned(s) then
      exists i ::
        0 <= i < |Listed(s)| && Counts(side, Meaning(Listed(s)[i])) && Admits(side, rules, Meaning(Listed(s)[i]), s)
    else
      || Lists(s, TBoolean) || (side.Draft? && Lists(s, TNull))
      || SomeNumber(side, s) || SomeString(side, rules, s)
      || (Lists(s, TArray) && ArrayPossible(side, rules, s))
      || (Lists(s, TObject) && Fillable(side, rules, s))
  }

  ghost predicate ArrayPossible(side: Side, rules: Rules, s: Schema)
    decreases s, 1
  {
    if Plural(s) then SomeArray(side, rules, s) else LengthFits(s, 0) || (Roomy(s) && SomeItem(side, rules, s))
  }

  ghost predicate SomeItem(side: Side, rules: Rules, s: Schema)
    decreases s, 0
  {
    s.items.Some? ==>
      || Satisfiable(side, rules, s.items.value)
      || Admits(side, rules, VNull, s.items.value) || Admits(side, rules, VStr(""), s.items.value)
  }

  /** Does any object satisfy the keywords for objects? */
  ghost predicate Fillable(side: Side, rules: Rules, s: Schema)
    decreases s, 1
  {
    if s.properties.Properties? then
      forall key :: key in s.required ==> SlotSatisfiable(side, rules, s, key)
    else
      side.Validator? || s.required == [] || s.additional.Unrestricted?
      || (s.additional.MustMatch? && Satisfiable(side, rules, s.additional.schema))
  }

  ghost predicate SlotSatisfiable(side: Side, rules: Rules, s: Schema, key: string)
    requires s.properties.Properties?
    decreases s, 0
  {
    match SlotOf(s, key)
    case Unrestricted => true
    case Forbidden => false
    case MustMatch(schema) => Satisfiable(side, rules, schema)
  }

  /** Such a value for every schema said to have one. */
  lemma {:induction false} Witness(side: Side, rules: Rules, s: Schema) returns (v: Value)
    requires KeysOnce(s) && Satisfiable(side, rules, s)
    ensures Admits(side, rules, v, s) && Counts(side, v)
    decreases s, 1
  {
    if Pinned(s) {
      var i :| 0 <= i < |Listed(s)| && Counts(side, Meaning(Listed(s)[i]))
        && Admits(side, rules, Meaning(Listed(s)[i]), s);
      v := Meaning(Listed(s)[i]);
      return;
    }
    if Lists(s, TBoolean) {
      v := VBool(true);
    } else if side.Draft? && Lists(s, TNull) {
      v := VNull;
    } else if SomeNumber(side, s) {
      var n :| AllowsNumber(s, n) && NumberHolds(side, n, s);
      v := VNum(n);
    } else if SomeString(side, rules, s) {
      var t :| Counts(side, VStr(t)) && StringHolds(side, rules, t, s);
      v := VStr(t);
    } else if Lists(s, TArray) && ArrayPossible(side, rules, s) {
      v := ArrayWitness(side, rules, s);
    } else {
      v := ObjectWitness(side, rules, s);
    }
    JudgedByKind(side, rules, v, s);
  }

  lemma ArrayWitness(side: Side, rules: Rules, s: Schema) returns (v: Value)
    requires KeysOnce(s) && !Pinned(s)
    requires Lists(s, TArray) && ArrayPossible(side, rules, s)
    ensures v.VArr? && Judged(side, rules, v, s)
    decreases s, 0
  {
    if Plural(s) {
      var items :| CountValid(items, s) && ItemsHold(side, rules, items, s);
      v := VArr(items);
    } else if LengthFits(s, 0) {
      v := VArr([]);
    } else {
      var w := VNull;
      if s.items.Some? && !Admits(side, rules, VNull, s.items.value) {
        w := VStr("");
        if !Admits(side, rules, VStr(""), s.items.value) {
          w := Witness(side, rules, s.items.value);
        }
      }
      v := Copies(s, w);
      CopiesAreJudged(side, rules, s, w);
    }
  }

  /** An array of one value, as short as the schema allows. */
  function Copies(s: Schema, w: Value): Value { VArr(seq(FirstLength(s), _ => w)) }

  lemma CopiesAreJudged(side: Side, rules: Rules, s: Schema, w: Value)
    requires Roomy(s) && !Plural(s) && Lists(s, TArray)
    ensures Judged(side, rules, Copies(s, w), s) <==> (s.items.Some? ==> Admits(side, rules, w, s.items.value))
  {
    FittingIsRoomy(s, FirstLength(s));
    var items := Copies(s, w).items;
    assert items[0] == w && forall i :: 0 <= i < |items| ==> items[i] == w;
  }

  lemma ObjectWitness(side: Side, rules: Rules, s: Schema) returns (v: Value)
    requires KeysOnce(s) && !Pinned(s)
    requires Lists(s, TObject) && Fillable(side, rules, s)
    ensures v.VObj? && Judged(side, rules, v, s)
    decreases s, 0
  {
    if s.properties.Properties? {
      var fields := Fill(side, rules, s, |s.required|);
      ObjectBySlots(side, rules, fields, s);
      v := VObj(fields);
    } else {
      var w := VBool(true);
      if side.Draft? && s.required != [] && s.additional.MustMatch? {
        w := Witness(side, rules, s.additional.schema);
      }
      v := VObj(AllKeys(s.required, w));
    }
  }

  /** Every key with the same value. */
  ghost function AllKeys(keys: seq<string>, v: Value): map<string, Value> {
    map key | key in keys :: v
  }

  /** The first `n` required properties, each with a value that fits its slot. */
  lemma {:induction false} Fill(side: Side, rules: Rules, s: Schema, n: nat) returns (fields: map<string, Value>)
    requires KeysOnce(s) && s.properties.Properties? && n <= |s.required|
    requires forall key :: key in s.required ==> SlotSatisfiable(side, rules, s, key)
    ensures forall key :: key in fields <==> key in s.required[..n]
    ensures Filled(side, fields, s.required[..n]) && EachFits(side, rules, fields, s)
    decreases s, 0, n
  {
    fields := map[];
    if n > 0 {
      var key := s.required[n - 1];
      var before := Fill(side, rules, s, n - 1);
      assert s.required[..n] == s.required[..n - 1] + [key];
      assert key in s.required;
      var w := SlotWitness(side, rules, s, key);
      fields := before[key := w];
    }
  }

  lemma SlotWitness(side: Side, rules: Rules, s: Schema, key: string) returns (v: Value)
    requires KeysOnce(s) && s.properties.Properties? && SlotSatisfiable(side, rules, s, key)
    ensures SlotAdmits(side, rules, v, SlotOf(s, key)) && Counts(side, v)
    decreases s, 0, 0
  {
    v := VBool(true);
    var slot := SlotOf(s, key);
    if slot.MustMatch? {
      v := Witness(side, rules, slot.schema);
    }
  }

  /** No other schema has such a value. */
  lemma {:induction false} WitnessedIsSatisfiable(side: Side, rules: Rules, v: Value, s: Schema)
    requires KeysOnce(s) && Admits(side, rules, v, s) && Counts(side, v)
    ensures Satisfiable(side, rules, s)
    decreases s, 1
  {
    if Pinned(s) {
      OnlyListed(side, rules, v, s);
    } else {
      JudgedByKind(side, rules, v, s);
      match v {
        case VArr(items) =>
          if items != [] {
            FittingIsRoomy(s, |items|);
            if s.items.Some? && !IsEmpty(items[0]) {
              WitnessedIsSatisfiable(side, rules, items[0], s.items.value);
            }
          }
        case VObj(fields) => FilledIsFillable(side, rules, fields, s);
        case _ =>
      }
    }
  }

  lemma FilledIsFillable(side: Side, rules: Rules, fields: map<string, Value>, s: Schema)
    requires KeysOnce(s) && ObjectHolds(side, rules, fields, s)
    ensures Fillable(side, rules, s)
    decreases s, 0
  {
    if s.properties.Properties? {
      ObjectBySlots(side, rules, fields, s);
      forall key | key in s.required
        ensures SlotSatisfiable(side, rules, s, key)
      {
        var slot := SlotOf(s, key);
        if slot.MustMatch? {
          WitnessedIsSatisfiable(side, rules, fields[key], slot.schema);
        }
      }
    } else if side.Draft? && s.required != [] {
      var key := s.required[0];
      assert key in s.required && key in fields;
      if s.additional.MustMatch? {
        WitnessedIsSatisfiable(side, rules, fields[key], s.additional.schema);
      }
    }
  }
}
