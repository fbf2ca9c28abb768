/** JSON values with their keys in insertion order, and structural equality
    (packages/skills-sdk/src/json-schema.ts). */
module JsonValues {
  import opened Basics

  datatype Json =
    | Null
    | Bool(b: bool)
    | Num(n: real)
    | Str(s: string)
    | Arr(items: seq<Json>)
    | Obj(fields: seq<Field>)

  datatype Field = Field(key: string, value: Json)

  ghost predicate Distinct(fields: seq<Field>) {
    forall i, j :: 0 <= i < j < |fields| ==> fields[i].key != fields[j].key
  }

  /** No object repeats a key. */
  ghost predicate WellFormed(v: Json) {
    match v
    case Arr(items) => forall i :: 0 <= i < |items| ==> WellFormed(items[i])
    case Obj(fields) => Distinct(fields) && forall i :: 0 <= i < |fields| ==> WellFormed(fields[i].value)
    case _ => true
  }

  /** The property of that name. */
  function Get(fields: seq<Field>, key: string): (r: Option<Json>)
    ensures r.Some? ==> exists i :: 0 <= i < |fields| && fields[i] == Field(key, r.value)
    ensures r.None? ==> forall i :: 0 <= i < |fields| ==> fields[i].key != key
  {
    if fields == [] then None
    else if fields[0].key == key then
      assert fields[0] == Field(key, fields[0].value);
      Some(fields[0].value)
    else
      var r := Get(fields[1..], key);
      assert r.Some? ==> exists i :: 0 <= i < |fields| && fields[i] == Field(key, r.value) by {
        if r.Some? {
          var i :| 0 <= i < |fields[1..]| && fields[1..][i] == Field(key, r.value);
          assert fields[i + 1] == Field(key, r.value);
        }
      }
      assert r.None? ==> forall i :: 1 <= i < |fields| ==> fields[i].key == fields[1..][i - 1].key;
      r
  }

  /** Deep equality as the validator computes it: equal lengths, then every key of the first
      looked up in the second. */
  predicate DeepEqual(a: Json, b: Json) {
    match a
    case Arr(xs) => b.Arr? && |xs| == |b.items| && forall i :: 0 <= i < |xs| ==> DeepEqual(xs[i], b.items[i])
    case Obj(fs) =>
      b.Obj? && |fs| == |b.fields|
      && forall i :: 0 <= i < |fs| ==>
           Get(b.fields, fs[i].key).Some? && DeepEqual(fs[i].value, Get(b.fields, fs[i].key).value)
    case _ => a == b
  }

  /* ------------------------------- meaning ------------------------------- */

  /** What a JSON text denotes: objects are maps, the order of keys is immaterial. */
  datatype Value =
    | VNull
    | VBool(b: bool)
    | VNum(n: real)
    | VStr(s: string)
    | VArr(items: seq<Value>)
    | VObj(fields: map<string, Value>)

  function Keys(fields: seq<Field>): set<string> {
    set i | 0 <= i < |fields| :: fields[i].key
  }

  ghost function Meaning(v: Json): Value {
    match v
    case Null => VNull
    case Bool(b) => VBool(b)
    case Num(n) => VNum(n)
    case Str(s) => VStr(s)
    case Arr(items) => VArr(seq(|items|, i requires 0 <= i < |items| => Meaning(items[i])))
    case Obj(fields) => VObj(map key | key in Keys(fields) :: Meaning(Get(fields, key).value))
  }

  lemma GetFindsField(fields: seq<Field>, i: nat)
    requires Distinct(fields) && i < |fields|
    ensures Get(fields, fields[i].key) == Some(fields[i].value)
  {
  }

  lemma {:induction false} KeysCountFields(fields: seq<Field>)
    requires Distinct(fields)
    ensures |Keys(fields)| == |fields|
  {
    if fields != [] {
      var init, last := fields[..|fields| - 1], fields[|fields| - 1];
      KeysCountFields(init);
      assert Keys(fields) == Keys(init) + {last.key};
      assert last.key !in Keys(init);
    }
  }

  lemma SubsetOfSameSize<T>(a: set<T>, b: set<T>)
    requires a <= b && |a| == |b|
    ensures a == b
  {
    assert |b - a| == 0 by {
      assert a + (b - a) == b;
    }
  }

  lemma SameKeySets(fs: seq<Field>, gs: seq<Field>)
    requires Distinct(fs) && Distinct(gs) && |fs| == |gs|
    requires forall i :: 0 <= i < |fs| ==> Get(gs, fs[i].key).Some?
    ensures Keys(fs) == Keys(gs)
  {
    KeysCountFields(fs);
    KeysCountFields(gs);
    SubsetOfSameSize(Keys(fs), Keys(gs));
  }

  /** Deep equality decides structural equality: two JSON values compare equal exactly when they
      denote the same value, whatever the order of their keys. */
  lemma {:induction false} DeepEqualIsStructural(a: Json, b: Json)
    requires WellFormed(a) && WellFormed(b)
    ensures DeepEqual(a, b) <==> Meaning(a) == Meaning(b)
    decreases a
  {
    if a.Arr? && b.Arr? && |a.items| == |b.items| {
      forall i | 0 <= i < |a.items|
        ensures DeepEqual(a.items[i], b.items[i]) <==> Meaning(a).items[i] == Meaning(b).items[i]
      {
        DeepEqualIsStructural(a.items[i], b.items[i]);
      }
    } else if a.Obj? && b.Obj? {
      forall i | 0 <= i < |a.fields| && Get(b.fields, a.fields[i].key).Some?
        ensures var other := Get(b.fields, a.fields[i].key).value;
          DeepEqual(a.fields[i].value, other) <==> Meaning(a.fields[i].value) == Meaning(other)
      {
        DeepEqualIsStructural(a.fields[i].value, Get(b.fields, a.fields[i].key).value);
      }
      if DeepEqual(a, b) {
        EqualObjectsMeanTheSame(a.fields, b.fields);
      }
      if Meaning(a) == Meaning(b) {
        SameMeaningMeansEqual(a.fields, b.fields);
      }
    }
  }

  ghost predicate ValuesAgree(fs: seq<Field>, gs: seq<Field>) {
    forall i :: 0 <= i < |fs| && Get(gs, fs[i].key).Some? ==>
      (DeepEqual(fs[i].value, Get(gs, fs[i].key).value) <==> Meaning(fs[i].value) == Meaning(Get(gs, fs[i].key).value))
  }

  /** Equal lengths and matching lookups make equal maps. */
  lemma EqualObjectsMeanTheSame(fs: seq<Field>, gs: seq<Field>)
    requires Distinct(fs) && Distinct(gs) && ValuesAgree(fs, gs) && DeepEqual(Obj(fs), Obj(gs))
    ensures Meaning(Obj(fs)) == Meaning(Obj(gs))
  {
    var m, n := Meaning(Obj(fs)).fields, Meaning(Obj(gs)).fields;
    SameKeySets(fs, gs);
    forall key | key in Keys(fs)
      ensures m[key] == n[key]
    {
      var i :| 0 <= i < |fs| && fs[i].key == key;
      GetFindsField(fs, i);
    }
    assert m == n;
  }

  lemma SameMeaningMeansEqual(fs: seq<Field>, gs: seq<Field>)
    requires Distinct(fs) && Distinct(gs) && ValuesAgree(fs, gs) && Meaning(Obj(fs)) == Meaning(Obj(gs))
    ensures DeepEqual(Obj(fs), Obj(gs))
  {
    var m, n := Meaning(Obj(fs)).fields, Meaning(Obj(gs)).fields;
    assert m.Keys == Keys(fs) && n.Keys == Keys(gs);
    KeysCountFields(fs);
    KeysCountFields(gs);
    forall i | 0 <= i < |fs|
      ensures Get(gs, fs[i].key).Some? && DeepEqual(fs[i].value, Get(gs, fs[i].key).value)
    {
      assert fs[i].key in m;
      GetFindsField(fs, i);
      assert m[fs[i].key] == n[fs[i].key];
    }
  }

  lemma DeepEqualIsEquivalence(a: Json, b: Json, c: Json)
    requires WellFormed(a) && WellFormed(b) && WellFormed(c)
    ensures DeepEqual(a, a)
    ensures DeepEqual(a, b) <==> DeepEqual(b, a)
    ensures DeepEqual(a, b) && DeepEqual(b, c) ==> DeepEqual(a, c)
  {
    DeepEqualIsStructural(a, a);
    DeepEqualIsStructural(a, b);
    DeepEqualIsStructural(b, a);
    DeepEqualIsStructural(b, c);
    DeepEqualIsStructural(a, c);
  }
}
