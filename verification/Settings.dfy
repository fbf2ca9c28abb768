/** The schema built from a skill's settings block (packages/skills-sdk/src/settings.ts), and
    exactly when validating settings by it is validating them by draft-07. */
module Settings {
  import opened Basics
  import opened JsonValues
  import opened JsonSchema
  import opened DraftSeven
  import opened SchemaWitnesses
  import opened SchemaAgreement

  datatype SettingType = Text | Password | Url | Textarea | Select | Number | Boolean | Multiselect

  datatype Limits = Limits(min: Option<real>, max: Option<real>, pattern: Option<string>, choices: seq<Json>)

  /** `types` lists the declared types, `options` the values of the closed option list. */
  datatype Setting = Setting(types: seq<SettingType>, limits: Option<Limits>, options: seq<string>)

  datatype Entry = Entry(key: string, setting: Setting)

  datatype Block = Block(entries: seq<Entry>, required: seq<string>)

  const NOTHING := Schema(
    None, None, None, None, None, None, None, None, None, None, None, None,
    Undeclared, [], Unrestricted, None, None, None, false)

  function JsonType(t: SettingType): Type {
    match t
    case Number => TNumber
    case Boolean => TBoolean
    case Multiselect => TArray
    case _ => TString
  }

  /** The types in the order of their first occurrence. */
  function JsonTypes(types: seq<SettingType>): seq<Type> {
    if types == [] then []
    else
      var before, last := JsonTypes(types[..|types| - 1]), JsonType(types[|types| - 1]);
      if last in before then before else before + [last]
  }

  function Constrained(s: Schema, limits: Limits): Schema {
    var primary := if s.types.Some? && s.types.value != [] then Some(s.types.value[0]) else None;
    var bounded :=
      if primary == Some(TString) then s.(minLength := limits.min, maxLength := limits.max, pattern := limits.pattern)
      else if primary == Some(TNumber) then s.(minimum := limits.min, maximum := limits.max)
      else s;
    if limits.choices != [] then bounded.(enumeration := Some(limits.choices)) else bounded
  }

  function Texts(options: seq<string>): seq<Json> {
    seq(|options|, i requires 0 <= i < |options| => Str(options[i]))
  }

  function BuildPropertySchema(p: Setting): Schema {
    var typed := NOTHING.(types := Some(JsonTypes(p.types)));
    var limited := if p.limits.Some? then Constrained(typed, p.limits.value) else typed;
    var formatted := if Url in p.types && limited.pattern.None? then limited.(format := Some("uri")) else limited;
    var text := NOTHING.(types := Some([TString]));
    if Multiselect in p.types then
      formatted.(items := Some(if p.options == [] then text else text.(enumeration := Some(Texts(p.options)))))
    else if p.options != [] then formatted.(enumeration := Some(Texts(p.options)))
    else formatted
  }

  function BuildSettingsSchema(b: Block): Schema {
    NOTHING.(
      types := Some([TObject]),
      properties := Properties(seq(|b.entries|, i requires 0 <= i < |b.entries| =>
        Property(b.entries[i].key, BuildPropertySchema(b.entries[i].setting)))),
      required := b.required)
  }

  /* ------------------------------- what a setting accepts ------------------------------- */

  ghost predicate Fits(v: Value, t: SettingType) {
    match t
    case Number => v.VNum?
    case Boolean => v.VBool?
    case Multiselect => v.VArr?
    case _ => v.VStr?
  }

  lemma {:induction false} SomeTypeFits(types: seq<SettingType>, v: Value)
    ensures (exists j :: j in JsonTypes(types) && HasType(v, j)) <==>
      exists k :: 0 <= k < |types| && Fits(v, types[k])
  {
    if types != [] {
      var init, last := types[..|types| - 1], types[|types| - 1];
      SomeTypeFits(init, v);
      assert HasType(v, JsonType(last)) <==> Fits(v, last);
      assert forall j :: j in JsonTypes(types) <==> j in JsonTypes(init) || j == JsonType(last);
      assert forall k :: 0 <= k < |init| ==> init[k] == types[k];
    }
  }

  lemma {:induction false} FirstTypeFirst(types: seq<SettingType>)
    ensures types == [] <==> JsonTypes(types) == []
    ensures types != [] ==> JsonTypes(types)[0] == JsonType(types[0])
  {
    if |types| > 1 {
      FirstTypeFirst(types[..|types| - 1]);
    } else if |types| == 1 {
      assert types[..0] == [];
    }
  }

  /** Limits count for the first type alone: lengths and a pattern for texts, a range for
      numbers. */
  ghost predicate WithinLimits(rules: Rules, v: Value, first: SettingType, l: Limits) {
    && (v.VStr? && first !in {Number, Boolean, Multiselect} ==>
          && (l.min.Some? ==> Units(v.s) as real >= l.min.value)
          && (l.max.Some? ==> Units(v.s) as real <= l.max.value)
          && (l.pattern.Some? ==> rules.compile(l.pattern.value).Some? && rules.compile(l.pattern.value).value(v.s)))
    && (v.VNum? && first == Number ==>
          (l.min.Some? ==> v.n >= l.min.value) && (l.max.Some? ==> v.n <= l.max.value))
  }

  /** A closed list of options takes the place of the choices, except that several may be
      selected from it. */
  ghost predicate Offered(v: Value, p: Setting) {
    && (if p.options != [] && Multiselect !in p.types then exists k :: 0 <= k < |p.options| && v == VStr(p.options[k])
        else
          p.limits.Some? && p.limits.value.choices != [] ==>
            exists k :: 0 <= k < |p.limits.value.choices| && v == Meaning(p.limits.value.choices[k]))
    && (Multiselect in p.types && v.VArr? ==> forall i :: 0 <= i < |v.items| ==> Selectable(v.items[i], p.options))
  }

  ghost predicate Selectable(v: Value, options: seq<string>) {
    v.VStr? && (options != [] ==> v.s in options)
  }

  /** A pattern of its own stands in for the URI format. */
  ghost predicate UrlIfAsked(rules: Rules, v: Value, p: Setting)
    requires p.types != []
  {
    var ownPattern := p.limits.Some? && p.limits.value.pattern.Some? && p.types[0] !in {Number, Boolean, Multiselect};
    Url in p.types && v.VStr? && !ownPattern ==> rules.isUri(v.s)
  }

  ghost predicate Accepts(rules: Rules, v: Value, p: Setting) {
    && (exists k :: 0 <= k < |p.types| && Fits(v, p.types[k]))
    && (p.limits.Some? ==> WithinLimits(rules, v, p.types[0], p.limits.value))
    && Offered(v, p) && UrlIfAsked(rules, v, p)
  }

  lemma ItemSelectable(rules: Rules, v: Value, options: seq<string>)
    ensures var text := NOTHING.(types := Some([TString]));
      var item := if options == [] then text else text.(enumeration := Some(Texts(options)));
      Valid(rules, v, item) <==> Selectable(v, options)
  {
    assert HasType(v, TString) <==> v.VStr?;
    TextsOffered(v, options);
  }

  lemma TextsOffered(v: Value, options: seq<string>)
    ensures (exists k :: 0 <= k < |Texts(options)| && v == Meaning(Texts(options)[k])) <==>
      exists k :: 0 <= k < |options| && v == VStr(options[k])
  {
    assert forall k :: 0 <= k < |options| ==> Meaning(Texts(options)[k]) == VStr(options[k]);
  }

  /** The limits as they stand in the schema: those for a first type that is a text or number. */
  ghost predicate LimitsStand(p: Setting, s: Schema) {
    var text := p.types != [] && p.types[0] !in {Number, Boolean, Multiselect};
    var number := p.types != [] && p.types[0] == Number;
    var l := if p.limits.Some? then p.limits.value else Limits(None, None, None, []);
    && s.minLength == (if text then l.min else None) && s.maxLength == (if text then l.max else None)
    && s.pattern == (if text then l.pattern else None)
    && s.minimum == (if number then l.min else None) && s.maximum == (if number then l.max else None)
    && s.format == (if Url in p.types && !(text && l.pattern.Some?) then Some("uri") else None)
    && s.exclusiveMinimum == s.exclusiveMaximum == s.multipleOf == None
  }

  lemma ConstrainedBy(s: Schema, l: Limits, first: Option<SettingType>)
    requires s.types.Some? && (first.None? ==> s.types.value == [])
    requires first.Some? ==> s.types.value != [] && s.types.value[0] == JsonType(first.value)
    ensures var c := Constrained(s, l);
      var text := first.Some? && first.value !in {Number, Boolean, Multiselect};
      var number := first == Some(Number);
      && c == s.(minLength := c.minLength, maxLength := c.maxLength, pattern := c.pattern, minimum := c.minimum,
                 maximum := c.maximum, enumeration := c.enumeration)
      && (text ==> c.minLength == l.min && c.maxLength == l.max && c.pattern == l.pattern)
      && (!text ==> c.minLength == s.minLength && c.maxLength == s.maxLength && c.pattern == s.pattern)
      && (number ==> c.minimum == l.min && c.maximum == l.max)
      && (!number ==> c.minimum == s.minimum && c.maximum == s.maximum)
  {
  }

  lemma OptionsLeaveLimits(p: Setting)
    ensures var s, typed := BuildPropertySchema(p), NOTHING.(types := Some(JsonTypes(p.types)));
      var limited := if p.limits.Some? then Constrained(typed, p.limits.value) else typed;
      && s.minLength == limited.minLength && s.maxLength == limited.maxLength && s.pattern == limited.pattern
      && s.minimum == limited.minimum && s.maximum == limited.maximum
      && s.exclusiveMinimum == limited.exclusiveMinimum && s.exclusiveMaximum == limited.exclusiveMaximum
      && s.multipleOf == limited.multipleOf
      && s.format == if Url in p.types && limited.pattern.None? then Some("uri") else limited.format
  {
  }

  lemma LimitsBuilt(p: Setting)
    ensures LimitsStand(p, BuildPropertySchema(p))
  {
    FirstTypeFirst(p.types);
    OptionsLeaveLimits(p);
    if p.limits.Some? {
      ConstrainedBy(NOTHING.(types := Some(JsonTypes(p.types))), p.limits.value,
        if p.types == [] then None else Some(p.types[0]));
    }
  }

  /** The other keywords of the schema. */
  ghost predicate ShapeStands(p: Setting, s: Schema) {
    var text := NOTHING.(types := Some([TString]));
    && s.types == Some(JsonTypes(p.types)) && s.constant == None
    && s.items == (if Multiselect !in p.types then None
                   else Some(if p.options == [] then text else text.(enumeration := Some(Texts(p.options)))))
    && s.enumeration == (if p.options != [] && Multiselect !in p.types then Some(Texts(p.options))
                         else if p.limits.Some? && p.limits.value.choices != [] then Some(p.limits.value.choices)
                         else None)
    && s.minItems == s.maxItems == None && !s.uniqueItems
    && s.properties == Undeclared && s.required == []
  }

  lemma ShapeBuilt(p: Setting)
    ensures ShapeStands(p, BuildPropertySchema(p))
  {
  }

  lemma EnumerationOffers(v: Value, p: Setting, s: Schema)
    requires ShapeStands(p, s)
    ensures (s.enumeration.Some? ==>
               exists i :: 0 <= i < |s.enumeration.value| && v == Meaning(s.enumeration.value[i]))
      <==> if p.options != [] && Multiselect !in p.types then
             exists k :: 0 <= k < |p.options| && v == VStr(p.options[k])
           else p.limits.Some? && p.limits.value.choices != [] ==>
             exists k :: 0 <= k < |p.limits.value.choices| && v == Meaning(p.limits.value.choices[k])
  {
    TextsOffered(v, p.options);
  }

  lemma ItemsSelectable(rules: Rules, items: seq<Value>, p: Setting, s: Schema)
    requires ShapeStands(p, s)
    ensures CountValid(items, s)
    ensures (s.items.Some? ==> forall i :: 0 <= i < |items| ==> Valid(rules, items[i], s.items.value))
      <==> (Multiselect in p.types ==> forall i :: 0 <= i < |items| ==> Selectable(items[i], p.options))
  {
    if s.items.Some? {
      forall i | 0 <= i < |items|
        ensures Valid(rules, items[i], s.items.value) <==> Selectable(items[i], p.options)
      {
        ItemSelectable(rules, items[i], p.options);
      }
    }
  }

  lemma StringWithin(rules: Rules, t: string, p: Setting, s: Schema)
    requires p.types != [] && LimitsStand(p, s)
    ensures StringValid(rules, t, s) <==>
      (p.limits.Some? ==> WithinLimits(rules, VStr(t), p.types[0], p.limits.value)) && UrlIfAsked(rules, VStr(t), p)
  {
  }

  lemma NumberWithin(rules: Rules, n: real, p: Setting, s: Schema)
    requires p.types != [] && LimitsStand(p, s)
    ensures NumberValid(n, s) <==>
      (p.limits.Some? ==> WithinLimits(rules, VNum(n), p.types[0], p.limits.value))
  {
  }

  /** What the schema of one setting accepts. */
  lemma SettingAcceptsIff(rules: Rules, v: Value, p: Setting)
    ensures Valid(rules, v, BuildPropertySchema(p)) <==> Accepts(rules, v, p)
  {
    var s := BuildPropertySchema(p);
    LimitsBuilt(p);
    ShapeBuilt(p);
    SomeTypeFits(p.types, v);
    FirstTypeFirst(p.types);
    SettingByKind(rules, v, p, s);
  }

  lemma SettingByKind(rules: Rules, v: Value, p: Setting, s: Schema)
    requires ShapeStands(p, s) && LimitsStand(p, s)
    requires (exists j :: j in JsonTypes(p.types) && HasType(v, j)) <==>
      exists k :: 0 <= k < |p.types| && Fits(v, p.types[k])
    ensures Valid(rules, v, s) <==> Accepts(rules, v, p)
  {
    if k :| 0 <= k < |p.types| && Fits(v, p.types[k]) {
      EnumerationOffers(v, p, s);
      if v.VArr? {
        ItemsSelectable(rules, v.items, p, s);
      } else {
        ScalarByKind(rules, v, p, s);
      }
    }
  }

  lemma ScalarByKind(rules: Rules, v: Value, p: Setting, s: Schema)
    requires p.types != [] && LimitsStand(p, s) && !v.VArr?
    ensures (v.VStr? ==> StringValid(rules, v.s, s)) && (v.VNum? ==> NumberValid(v.n, s)) <==>
      (p.limits.Some? ==> WithinLimits(rules, v, p.types[0], p.limits.value)) && UrlIfAsked(rules, v, p)
  {
    if v.VStr? {
      StringWithin(rules, v.s, p, s);
    } else if v.VNum? {
      NumberWithin(rules, v.n, p, s);
    }
  }

  /** What the schema of a settings block accepts: an object with every required setting, not
      null and not empty, and accepted values for those that are declared. */
  lemma BlockAcceptsIff(rules: Rules, v: Value, b: Block)
    ensures Valid(rules, v, BuildSettingsSchema(b)) <==>
      && v.VObj?
      && (forall key :: key in b.required ==>
            key in v.fields && v.fields[key] != VNull && v.fields[key] != VStr(""))
      && (forall i :: 0 <= i < |b.entries| && b.entries[i].key in v.fields ==>
            Accepts(rules, v.fields[b.entries[i].key], b.entries[i].setting))
  {
    var s := BuildSettingsSchema(b);
    assert HasType(v, TObject) <==> v.VObj?;
    assert (exists t :: t in [TObject] && HasType(v, t)) <==> v.VObj? by {
      assert TObject in [TObject];
    }
    if v.VObj? {
      forall i | 0 <= i < |b.entries| && b.entries[i].key in v.fields
        ensures Valid(rules, v.fields[b.entries[i].key], s.properties.list[i].schema) <==>
          Accepts(rules, v.fields[b.entries[i].key], b.entries[i].setting)
      {
        SettingAcceptsIff(rules, v.fields[b.entries[i].key], b.entries[i].setting);
      }
      assert |s.properties.list| == |b.entries|
        && forall i :: 0 <= i < |b.entries| ==> s.properties.list[i].key == b.entries[i].key;
    }
  }

  /** Settings have no type null and no limit that is null. */
  ghost predicate Proper(b: Block) {
    && (forall i, j :: 0 <= i < j < |b.entries| ==> b.entries[i].key != b.entries[j].key)
    && (forall i :: 0 <= i < |b.entries| && b.entries[i].setting.limits.Some? ==>
          Null !in b.entries[i].setting.limits.value.choices)
  }

  lemma {:induction false} NeverNull(types: seq<SettingType>)
    ensures TNull !in JsonTypes(types)
  {
    if types != [] {
      NeverNull(types[..|types| - 1]);
    }
  }

  lemma NullIsRefused(rules: Rules, p: Setting)
    ensures !DraftValid(rules, VNull, BuildPropertySchema(p))
  {
    NeverNull(p.types);
  }

  lemma BuiltKeysOnce(b: Block)
    requires Proper(b)
    ensures KeysOnce(BuildSettingsSchema(b))
  {
    var s := BuildSettingsSchema(b);
    forall i | 0 <= i < |b.entries|
      ensures KeysOnce(s.properties.list[i].schema)
    {
      var ps := BuildPropertySchema(b.entries[i].setting);
      assert ps.items.Some? ==> KeysOnce(ps.items.value);
    }
  }

  /** Some object meets all required settings, by either relation. */
  ghost predicate CanBeMet(side: Side, rules: Rules, b: Block) {
    forall key :: key in b.required ==>
      forall i :: 0 <= i < |b.entries| && b.entries[i].key == key ==>
        Satisfiable(side, rules, BuildPropertySchema(b.entries[i].setting))
  }

  /** Every required setting is declared and refuses the empty text by its own limits. */
  ghost predicate RequiredRefuseEmpty(rules: Rules, b: Block) {
    forall key :: key in b.required ==>
      exists i :: 0 <= i < |b.entries| && b.entries[i].key == key && RefusesEmptyText(rules, b, i)
  }

  ghost predicate RefusesEmptyText(rules: Rules, b: Block, i: nat)
    requires i < |b.entries|
  {
    !DraftValid(rules, VStr(""), BuildPropertySchema(b.entries[i].setting))
  }

  ghost predicate SettingsAgree(rules: Rules, b: Block) {
    || (!CanBeMet(Draft, rules, b) && !CanBeMet(Validator, rules, b))
    || (CanBeMet(Draft, rules, b) && CanBeMet(Validator, rules, b) && RequiredRefuseEmpty(rules, b)
        && forall i :: 0 <= i < |b.entries| ==> Agreeing(rules, BuildPropertySchema(b.entries[i].setting)))
  }

  lemma SlotOfEntry(b: Block, i: nat)
    requires Proper(b) && i < |b.entries|
    ensures SlotOf(BuildSettingsSchema(b), b.entries[i].key) == MustMatch(BuildPropertySchema(b.entries[i].setting))
  {
    SlotIsUnique(BuildSettingsSchema(b), i);
  }

  lemma FillableMeansMet(side: Side, rules: Rules, b: Block)
    requires Proper(b)
    ensures Fillable(side, rules, BuildSettingsSchema(b)) <==> CanBeMet(side, rules, b)
  {
    var s := BuildSettingsSchema(b);
    forall key
      ensures SlotSatisfiable(side, rules, s, key) <==>
        forall i :: 0 <= i < |b.entries| && b.entries[i].key == key ==>
          Satisfiable(side, rules, BuildPropertySchema(b.entries[i].setting))
    {
      if i :| 0 <= i < |b.entries| && b.entries[i].key == key {
        SlotOfEntry(b, i);
      } else {
      }
    }
  }

  lemma EntryRefusesEmpties(rules: Rules, b: Block, i: nat)
    requires Proper(b) && i < |b.entries|
    ensures RefusesEmpties(rules, SlotOf(BuildSettingsSchema(b), b.entries[i].key)) <==> RefusesEmptyText(rules, b, i)
  {
    SlotOfEntry(b, i);
    NullIsRefused(rules, b.entries[i].setting);
  }

  lemma OthersTakeEmpties(rules: Rules, b: Block, key: string)
    requires forall i :: 0 <= i < |b.entries| ==> b.entries[i].key != key
    ensures !RefusesEmpties(rules, SlotOf(BuildSettingsSchema(b), key))
  {
  }

  lemma SlotRefusesEmpties(rules: Rules, b: Block, key: string)
    requires Proper(b)
    ensures RefusesEmpties(rules, SlotOf(BuildSettingsSchema(b), key)) <==>
      exists i :: 0 <= i < |b.entries| && b.entries[i].key == key && RefusesEmptyText(rules, b, i)
  {
    if i :| 0 <= i < |b.entries| && b.entries[i].key == key {
      EntryRefusesEmpties(rules, b, i);
    } else {
      OthersTakeEmpties(rules, b, key);
    }
  }

  lemma RequiredMeansRefused(rules: Rules, b: Block)
    requires Proper(b)
    ensures (forall key :: key in b.required ==> RefusesEmpties(rules, SlotOf(BuildSettingsSchema(b), key)))
      <==> RequiredRefuseEmpty(rules, b)
  {
    forall key
      ensures RefusesEmpties(rules, SlotOf(BuildSettingsSchema(b), key)) <==>
        exists i :: 0 <= i < |b.entries| && b.entries[i].key == key && RefusesEmptyText(rules, b, i)
    {
      SlotRefusesEmpties(rules, b, key);
    }
  }

  /** Exactly for which settings blocks the validator's verdict on all settings is the draft's. */
  lemma SettingsAgreeIff(rules: Rules, b: Block)
    requires Proper(b)
    ensures (forall v :: Valid(rules, v, BuildSettingsSchema(b)) <==> DraftValid(rules, v, BuildSettingsSchema(b)))
      <==> SettingsAgree(rules, b)
  {
    var s := BuildSettingsSchema(b);
    BuiltKeysOnce(b);
    SchemaAgreesIff(rules, s);
    FillableMeansMet(Draft, rules, b);
    FillableMeansMet(Validator, rules, b);
    RequiredMeansRefused(rules, b);
    OnlyObjects(rules, s);
    assert forall i :: 0 <= i < |b.entries| ==>
      s.properties.list[i].schema == BuildPropertySchema(b.entries[i].setting);
  }

  /** For a schema of objects alone only the keywords for objects matter. */
  lemma OnlyObjects(rules: Rules, s: Schema)
    requires !Pinned(s) && s.types == Some([TObject]) && s.properties.Properties?
    ensures Agreeing(rules, s) <==> ClosedAgrees(rules, s)
  {
  }

  /** A required text without limits, left empty: the draft takes it, the validator does not. */
  lemma RequiredTextDisagrees(rules: Rules, key: string)
    ensures var s := BuildSettingsSchema(Block([Entry(key, Setting([Text], None, []))], [key]));
      var v := VObj(map[key := VStr("")]);
      DraftValid(rules, v, s) && !Valid(rules, v, s)
  {
    var setting := Setting([Text], None, []);
    var b := Block([Entry(key, setting)], [key]);
    var s := BuildSettingsSchema(b);
    var fields := map[key := VStr("")];
    assert JsonTypes([Text]) == [TString] by {
      assert JsonTypes([]) == [] && [Text][..0] == [];
    }
    assert s.properties.list == [Property(key, BuildPropertySchema(setting))];
    assert HasType(VStr(""), TString) && HasType(VObj(fields), TObject);
    assert DraftObject(rules, fields, s);
    assert key in s.required && !Present(fields, key);
  }
}
