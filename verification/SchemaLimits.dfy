/**
 Where the promise of the gate ends: pairs of schemas that the gate passes without a change to report and an instance
 that only the old schema accepts, each pair breaking one condition of `AcceptancePreserved` and meeting the others; and
 the exact condition for schemas that admit no objects.
 */
module SchemaLimits {
  import opened Decimals
  import opened Json
  import opened Options
  import opened JsonPointer
  import opened SchemaNodes
  import opened SchemaGate
  import opened SchemaAcceptance

  /** The `const` keyword by section 6.1.3 of JSON Schema Validation 2020-12; every other keyword is ignored. */
  predicate ConstReading(key: string, value: Value, instance: Json) {
    key == "const" ==> value == Norm(Schema, instance)
  }

  /** A closed root with one property. */
  function Root(name: string, property: Json): Json {
    Obj([Field("properties", Obj([Field(name, property)])), Field("additionalProperties", Bool(false))])
  }

  /** The gate passes the pair, and the instance is lost. */
  ghost predicate LosesInstance(before: Json, after: Json, reading: Reading, instance: Json) {
    && SchemaBreakingChanges(before, after) == []
    && Valid(before, instance, reading)
    && !Valid(after, instance, reading)
  }

  /** Of the conditions of `AcceptancePreserved` only the one on closed and scalar schemas is broken. */
  ghost predicate OnlyNotClosed(before: Json, after: Json) {
    && PlainSchema(before) && PlainSchema(after) && ObjectRoot(before) && ObjectRoot(after)
    && SameBooleans(before, after) && !ClosedSchema(before)
  }

  /** No dict with an object keyword at or below the value. */
  ghost predicate NoNodes(v: Json) {
    match v
    case Obj(fields) =>
      !HasObjectKeyword(fields) && forall i :: 0 <= i < |fields| ==> NoNodes(fields[i].value)
    case Arr(items) => forall i :: 0 <= i < |items| ==> NoNodes(items[i])
    case _ => true
  }

  lemma {:induction false} NoNodesEmpty(v: Json, path: string)
    requires NoNodes(v)
    ensures ValueNodes(v, path) == map[]
    decreases v, 1
  {
    if v.Obj? {
      NoFieldNodes(v.fields, path);
    } else if v.Arr? {
      NoItemNodes(v.items, 0, path);
    }
  }

  lemma {:induction false} NoFieldNodes(fields: seq<Field>, path: string)
    requires forall i :: 0 <= i < |fields| ==> NoNodes(fields[i].value)
    ensures FieldNodes(fields, path) == map[]
    decreases fields, 0
  {
    if fields != [] {
      NoNodesEmpty(fields[0].value, Child(path, fields[0].key));
      NoFieldNodes(fields[1..], path);
    }
  }

  lemma {:induction false} NoItemNodes(items: seq<Json>, start: nat, path: string)
    requires forall i :: 0 <= i < |items| ==> NoNodes(items[i])
    ensures ItemNodes(items, start, path) == map[]
    decreases items, 0
  {
    if items != [] {
      NoNodesEmpty(items[0], Child(path, Decimal(start)));
      NoItemNodes(items[1..], start + 1, path);
    }
  }

  /** When only the old root is an object schema, the gate compares the two roots and nothing else. */
  lemma OnlyRootCompared(before: Json, after: Json)
    requires before.Obj? && after.Obj? && CleanDict(after.fields) && HasObjectKeyword(after.fields)
    requires forall i :: 0 <= i < |before.fields| ==> NoNodes(before.fields[i].value)
    requires NodeCompatible(before.fields, after.fields)
    ensures SchemaBreakingChanges(before, after) == []
  {
    NodesAreDicts(before, "");
    NodesAreDicts(after, "");
    NoFieldNodes(before.fields, "");
    FieldNodesNotBase(after.fields, "");
    forall p | p in Nodes(before, "") ensures PointerCompatible(p, Nodes(before, ""), Nodes(after, "")) {
      assert p == "";
    }
    SilentMeansCompatible(before, after);
  }

  lemma FindOne(name: string, value: Json, key: string)
    ensures Find([Field(name, value)], key) == if key == name then Some(value) else None
  {
    var fields := [Field(name, value)];
    FindStep(fields, key);
    assert fields[1..] == [];
  }

  lemma FindTwo(name: string, value: Json, name2: string, value2: Json, key: string)
    ensures Find([Field(name, value), Field(name2, value2)], key)
            == if key == name then Some(value) else if key == name2 then Some(value2) else None
  {
    var fields := [Field(name, value), Field(name2, value2)];
    FindStep(fields, key);
    assert fields[1..] == [Field(name2, value2)];
    FindOne(name2, value2, key);
  }

  lemma RootFacts(name: string, property: Json)
    ensures var fields := Root(name, property).fields;
            && Properties(fields) == [Field(name, property)]
            && RequiredValues(fields) == {} && IsClosed(fields) && HasObjectKeyword(fields) && CleanDict(fields)
            && Find(fields, "enum").None?
            && Find([Field(name, property)], name) == Some(property)
    ensures forall key :: IsCoreKeyword(key) ==> Find(Root(name, property).fields, key).None?
    ensures forall other :: Find([Field(name, property)], other).Some? ==> other == name
  {
    var fields := Root(name, property).fields;
    var members := Obj([Field(name, property)]);
    forall key ensures Find(fields, key) == if key == "properties" then Some(members)
                                           else if key == "additionalProperties" then Some(Bool(false)) else None {
      FindTwo("properties", members, "additionalProperties", Bool(false), key);
    }
    forall key ensures Find([Field(name, property)], key) == if key == name then Some(property) else None {
      FindOne(name, property, key);
    }
    assert IsObjectKeyword(fields[0].key);
  }

  /** Two closed roots with one property each: the gate compares the property and nothing else. */
  lemma RootRules(name: string, b: Json, a: Json)
    requires PropertyCompatible(b, a) && NoNodes(b) && !IsObjectKeyword(name)
    ensures SchemaBreakingChanges(Root(name, b), Root(name, a)) == []
  {
    hide IsObjectKeyword, PropertyCompatible, PropertyBreakingChanges, SchemaBreakingChanges;
    RootFacts(name, b);
    RootFacts(name, a);
    var fields := Root(name, b).fields;
    assert NoNodes(fields[0].value) by {
      assert fields[0].value == Obj([Field(name, b)]);
    }
    OnlyRootCompared(Root(name, b), Root(name, a));
  }

  lemma RootValid(name: string, property: Json, value: Json, reading: Reading)
    ensures Valid(Root(name, property), Obj([Field(name, value)]), reading) <==> Valid(property, value, reading)
  {
    var s, members := Root(name, property), [Field(name, value)];
    RootFacts(name, property);
    assert PropertyOf(s, name) == Some(property);
    forall other ensures Find(members, other) == if other == name then Some(value) else None {
      FindOne(name, value, other);
    }
    assert EnumAllows(s.fields, Obj(members)) && CoreAllows(s.fields, Obj(members), reading);
    assert RequiredAllows(s.fields, members);
    assert MemberAllows(s, name, value, reading) <==> Valid(property, value, reading);
    if Valid(s, Obj(members), reading) {
      assert MemberAllows(s, name, Find(members, name).value, reading);
    }
  }

  lemma OneKeywordNorm(key: string, v: Json)
    ensures Norm(Python, Obj([Field(key, v)])) == VObj(map[key := Norm(Python, v)])
  {
    var fields := [Field(key, v)];
    assert fields[1..] == [];
    assert NormFields(Python, fields) == map[key := Norm(Python, v)];
  }

  // ---- A keyword beside a type --------------------------------------------------------------------------------

  /** A property schema with a type and one other core keyword. */
  function Typed(t: string, key: string, v: Json): Json {
    Obj([Field("type", Str(t)), Field(key, v)])
  }

  /** A keyword of the fragment that a reading decides. */
  predicate IsOtherKeyword(key: string) {
    IsCoreKeyword(key) && key != "type" && key != "" && key != "patternProperties" && key != "$ref"
  }

  lemma CoreIsNoObjectKeyword(key: string)
    requires IsCoreKeyword(key)
    ensures !IsObjectKeyword(key) && key != "enum" && key != "default"
  {
  }

  lemma TypedFind(t: string, key: string, v: Json)
    requires key != "type"
    ensures forall other :: Find(Typed(t, key, v).fields, other)
                            == if other == "type" then Some(Str(t)) else if other == key then Some(v) else None
  {
    forall other ensures Find(Typed(t, key, v).fields, other)
                         == if other == "type" then Some(Str(t)) else if other == key then Some(v) else None {
      FindTwo("type", Str(t), key, v, other);
    }
  }

  lemma TypedNoNodes(t: string, key: string, v: Json)
    requires IsCoreKeyword(key) && NoNodes(v)
    ensures NoNodes(Typed(t, key, v)) && !HasObjectKeyword(Typed(t, key, v).fields)
  {
    CoreIsNoObjectKeyword(key);
    CoreIsNoObjectKeyword("type");
  }

  lemma TypedCore(t: string, key: string, v: Json)
    requires IsCoreKeyword(key) && key != "type"
    ensures CoreFields(Typed(t, key, v).fields) == [Field("type", Str(t)), Field(key, WithoutAnnotations(v))]
  {
    var fields := Typed(t, key, v).fields;
    assert fields[1..] == [Field(key, v)] && [Field(key, v)][1..] == [];
    assert CoreFields([Field(key, v)]) == [Field(key, WithoutAnnotations(v))];
  }

  lemma PairNorm(a: Field, b: Field)
    requires a.key != b.key
    ensures NormFields(Python, [a, b]) == map[a.key := Norm(Python, a.value), b.key := Norm(Python, b.value)]
  {
    assert [a, b][1..] == [b] && [b][1..] == [];
    assert NormFields(Python, [b]) == map[b.key := Norm(Python, b.value)];
  }

  /** The gate takes the two property schemas for unchanged when Python does so for the stripped keyword values. */
  lemma TypedCompatible(t: string, key: string, v: Json, w: Json)
    requires IsCoreKeyword(key) && key != "type"
    requires Equal(Python, WithoutAnnotations(v), WithoutAnnotations(w))
    ensures PropertyCompatible(Typed(t, key, v), Typed(t, key, w))
  {
    hide IsCoreKeyword, WithoutAnnotations, Find;
    CoreIsNoObjectKeyword(key);
    TypedFind(t, key, v);
    TypedFind(t, key, w);
    TypedCore(t, key, v);
    TypedCore(t, key, w);
    PairNorm(Field("type", Str(t)), Field(key, WithoutAnnotations(v)));
    PairNorm(Field("type", Str(t)), Field(key, WithoutAnnotations(w)));
  }

  lemma TypedValid(t: string, key: string, v: Json, value: Json, reading: Reading)
    requires IsCoreKeyword(key) && key != "type" && !value.Obj?
    ensures Valid(Typed(t, key, v), value, reading) <==> HasType(value, t) && reading(key, Norm(Schema, v), value)
  {
    hide IsCoreKeyword, HasType, Find;
    CoreIsNoObjectKeyword(key);
    TypeIsCore();
    var fields := Typed(t, key, v).fields;
    TypedFind(t, key, v);
    assert CoreAllows(fields, value, reading) <==>
           KeywordAllows("type", Str(t), value, reading) && KeywordAllows(key, v, value, reading);
  }

  lemma TypeIsCore()
    ensures IsCoreKeyword("type") && !IsAnnotation("type")
  {
  }

  lemma TypedSchema(t: string, key: string, v: Json)
    requires IsOtherKeyword(key) && t != "object"
    ensures PlainSchema(Typed(t, key, v)) && RejectsObjects(Typed(t, key, v).fields)
    ensures !HasObjectKeyword(Typed(t, key, v).fields)
    ensures forall name :: PropertyOf(Typed(t, key, v), name).None?
    ensures ClosedSchema(Typed(t, key, v)) <==> IsScalarValue(v)
  {
    hide IsCoreKeyword, IsObjectKeyword, IsScalarValue, Find;
    CoreIsNoObjectKeyword(key);
    TypeIsCore();
    CoreIsNoObjectKeyword("type");
    ObjectKeywords();
    TypedFind(t, key, v);
    StringIsScalar(t);
    var s := Typed(t, key, v);
    assert s.fields[1] == Field(key, v);
  }

  lemma ObjectKeywords()
    ensures IsObjectKeyword("properties") && IsObjectKeyword("additionalProperties")
  {
  }

  lemma StringIsScalar(t: string)
    ensures IsScalarValue(Str(t))
  {
  }

  lemma RootProperty(name: string, property: Json)
    ensures forall other :: PropertyOf(Root(name, property), other) == if other == name then Some(property) else None
  {
    RootFacts(name, property);
    OneMember(name, property);
    var s := Root(name, property);
    FindTwo("properties", Obj([Field(name, property)]), "additionalProperties", Bool(false), "properties");
  }

  /** Two closed roots are in the fragment when their properties are. */
  lemma RootFragment(name: string, b: Json, a: Json)
    requires name != "" && PlainSchema(b) && PlainSchema(a)
    ensures PlainSchema(Root(name, b)) && PlainSchema(Root(name, a))
    ensures ObjectRoot(Root(name, b)) && ObjectRoot(Root(name, a))
    ensures ClosedSchema(Root(name, b)) <==> ClosedSchema(b)
    ensures SameBooleans(Root(name, b), Root(name, a)) <==> SameBooleans(b, a)
  {
    PlainRoot(name, b);
    PlainRoot(name, a);
    SameBooleansRoot(name, b, a);
  }

  lemma PlainRoot(name: string, property: Json)
    requires name != "" && PlainSchema(property)
    ensures PlainSchema(Root(name, property)) && ObjectRoot(Root(name, property))
    ensures ClosedSchema(Root(name, property)) <==> ClosedSchema(property)
  {
    hide IsScalarValue, RejectsObjects, PropertyOf, PlainDict, IsCoreKeyword, IsObjectKeyword, Find, IsClosed;
    RootFacts(name, property);
    RootProperty(name, property);
    RootKeywords(name, property);
    assert PropertyOf(Root(name, property), name) == Some(property);
  }

  lemma RootKeywords(name: string, property: Json)
    ensures var fields := Root(name, property).fields;
            && |fields| == 2 && fields[0].key == "properties" && fields[1].key == "additionalProperties"
            && !IsCoreKeyword(fields[0].key) && !IsCoreKeyword(fields[1].key)
            && DistinctKeys(fields) && PlainDict(fields) == (name != "")
  {
    hide IsCoreKeyword, IsObjectKeyword;
    NotCore();
    RootFacts(name, property);
    var fields := Root(name, property).fields;
    FindTwo("properties", fields[0].value, "additionalProperties", Bool(false), "properties");
  }

  lemma NotCore()
    ensures !IsCoreKeyword("properties") && !IsCoreKeyword("additionalProperties")
  {
  }

  lemma SameBooleansRoot(name: string, b: Json, a: Json)
    ensures SameBooleans(Root(name, b), Root(name, a)) <==> SameBooleans(b, a)
  {
    hide IsCoreKeyword;
    RootFacts(name, b);
    RootProperty(name, b);
    RootProperty(name, a);
    assert PropertyOf(Root(name, b), name) == Some(b) && PropertyOf(Root(name, a), name) == Some(a);
  }

  /**
   A keyword value changes to one that Python takes for equal once annotations are stripped: the gate says nothing, and
   any reading that tells the two apart on an admitted value loses an instance.
   */
  lemma KeywordLoss(name: string, t: string, key: string, v: Json, w: Json, value: Json, reading: Reading)
    requires IsCoreKeyword(key) && key != "type" && !IsObjectKeyword(name) && NoNodes(v)
    requires Equal(Python, WithoutAnnotations(v), WithoutAnnotations(w)) && !value.Obj? && HasType(value, t)
    requires reading(key, Norm(Schema, v), value) && !reading(key, Norm(Schema, w), value)
    ensures LosesInstance(Root(name, Typed(t, key, v)), Root(name, Typed(t, key, w)), reading,
                          Obj([Field(name, value)]))
  {
    hide IsCoreKeyword, IsObjectKeyword, Typed, WithoutAnnotations, PropertyCompatible, NoNodes, HasType, Norm;
    var b, a := Typed(t, key, v), Typed(t, key, w);
    TypedNoNodes(t, key, v);
    TypedCompatible(t, key, v, w);
    RootRules(name, b, a);
    TypedValid(t, key, v, value, reading);
    TypedValid(t, key, w, value, reading);
    RootValid(name, b, value, reading);
    RootValid(name, a, value, reading);
  }

  lemma ScalarUnchanged(v: Json)
    requires !IsContainer(v)
    ensures WithoutAnnotations(v) == v && NoNodes(v) && IsScalarValue(v)
  {
  }

  /** A keyword changes between boolean and number inside the fragment: only the condition on booleans is broken. */
  lemma BooleanForNumber(name: string, t: string, key: string, v: Json, w: Json, value: Json, reading: Reading)
    requires name != "" && !IsObjectKeyword(name) && IsOtherKeyword(key) && t != "object"
    requires !IsContainer(v) && !IsContainer(w) && Equal(Python, v, w) && !value.Obj? && HasType(value, t)
    requires reading(key, Norm(Schema, v), value) && !reading(key, Norm(Schema, w), value)
    ensures InFragment(Root(name, Typed(t, key, v)), Root(name, Typed(t, key, w)))
    ensures LosesInstance(Root(name, Typed(t, key, v)), Root(name, Typed(t, key, w)), reading,
                          Obj([Field(name, value)]))
  {
    hide IsCoreKeyword, IsObjectKeyword, Typed, HasType, Norm, PlainSchema, ClosedSchema, ObjectRoot, LosesInstance;
    ScalarUnchanged(v);
    ScalarUnchanged(w);
    TypedSchema(t, key, v);
    TypedSchema(t, key, w);
    RootFragment(name, Typed(t, key, v), Typed(t, key, w));
    KeywordLoss(name, t, key, v, w, value, reading);
  }

  /** In particular `const: 1` becomes `const: true`, by section 6.1.3 of JSON Schema Validation 2020-12. */
  lemma ConstBooleanForNumber()
    ensures var before, after := Root("a", Typed("integer", "const", Int(1))),
                                 Root("a", Typed("integer", "const", Bool(true)));
            InFragment(before, after) && LosesInstance(before, after, ConstReading, Obj([Field("a", Int(1))]))
  {
    hide InFragment, LosesInstance;
    BooleanForNumber("a", "integer", "const", Int(1), Bool(true), Int(1), ConstReading);
  }

  /** Every reading keeps every instance of the old schema. */
  ghost predicate KeepsAll(before: Json, after: Json) {
    forall reading: Reading, instance: Json :: Valid(before, instance, reading) ==> Valid(after, instance, reading)
  }

  /** The type and the enum of a schema dict admit the value. */
  ghost predicate Admits(s: Json, value: Json)
    requires s.Obj?
  {
    && EnumAllows(s.fields, value)
    && (Find(s.fields, "type").Some? ==> TypeAllows(Norm(Schema, Find(s.fields, "type").value), value))
  }

  /** A leaf: a schema dict of the fragment without object keywords. */
  ghost predicate IsLeaf(s: Json) {
    s.Obj? && PlainSchema(s) && !HasObjectKeyword(s.fields) && RejectsObjects(s.fields)
  }

  /** The reading that binds one keyword to one value. */
  function OneValue(key: string, v: Value): Reading {
    (k, value, instance) => k == key ==> value == v
  }

  lemma AdmittedValid(s: Json, key: string, v: Json, value: Json)
    requires IsLeaf(s) && Admits(s, value) && IsCoreKeyword(key) && key != "type" && Find(s.fields, key) == Some(v)
    ensures Valid(s, value, OneValue(key, Norm(Schema, v))) && !value.Obj?
  {
    hide IsCoreKeyword, Norm, TypeAllows, HasObjectKeyword, PlainSchema;
    var reading := OneValue(key, Norm(Schema, v));
    forall k | IsCoreKeyword(k) && Find(s.fields, k).Some?
      ensures KeywordAllows(k, Find(s.fields, k).value, value, reading)
    {
    }
    AdmittedNoObject(s, value);
  }

  lemma AdmittedNoObject(s: Json, value: Json)
    requires s.Obj? && RejectsObjects(s.fields) && Admits(s, value)
    ensures !value.Obj?
  {
    hide TypeExcludesObjects, TypeAllows, Equal;
    if Find(s.fields, "type").Some? && TypeExcludesObjects(Norm(Schema, Find(s.fields, "type").value)) {
      ExcludedType(Norm(Schema, Find(s.fields, "type").value), value);
    } else {
      ExcludedByEnum(s.fields, value);
    }
  }

  /** A leaf that admits no value keeps everything. */
  lemma NothingAdmitted(name: string, b: Json, a: Json, instance: Json, reading: Reading)
    requires IsLeaf(b) && (forall value :: !Admits(b, value))
    requires Valid(Root(name, b), instance, reading)
    ensures Valid(Root(name, a), instance, reading)
  {
    hide IsCoreKeyword, Admits, RequiredValues, PlainSchema, HasObjectKeyword, RejectsObjects;
    RootFacts(name, b);
    RootFacts(name, a);
    var before, after := Root(name, b), Root(name, a);
    RootUnbound(name, a, instance, reading);
    if instance.Obj? {
      forall other | Find(instance.fields, other).Some? ensures false {
        var value := Find(instance.fields, other).value;
        assert MemberAllows(before, other, value, reading);
        RootProperty(name, b);
        ClosedAdmits(before, other, value, reading);
        ValidAdmits(b, value, reading);
      }
    }
  }

  lemma RootUnbound(name: string, property: Json, instance: Json, reading: Reading)
    ensures EnumAllows(Root(name, property).fields, instance)
    ensures CoreAllows(Root(name, property).fields, instance, reading)
    ensures forall members :: RequiredAllows(Root(name, property).fields, members)
  {
    hide IsCoreKeyword;
    RootFacts(name, property);
  }

  lemma ValidAdmits(s: Json, value: Json, reading: Reading)
    requires s.Obj? && Valid(s, value, reading)
    ensures Admits(s, value)
  {
    hide IsCoreKeyword;
    TypeIsCore();
    if Find(s.fields, "type").Some? {
      assert KeywordAllows("type", Find(s.fields, "type").value, value, reading);
    }
  }

  /** The keyword that breaks the condition on booleans of two leaves. */
  lemma MixedKeyword(b: Json, a: Json) returns (key: string)
    requires IsLeaf(b) && IsLeaf(a) && !SameBooleans(b, a)
    ensures IsCoreKeyword(key) && key != "type" && Find(b.fields, key).Some? && Find(a.fields, key).Some?
    ensures Find(b.fields, key).value.Bool? != Find(a.fields, key).value.Bool?
  {
    hide IsCoreKeyword;
    forall name ensures PropertyOf(b, name).None? {
      if PropertyOf(b, name).Some? {
        HasProperties(b, name);
      }
    }
    key :| IsCoreKeyword(key) && key != "type" && Find(b.fields, key).Some? && Find(a.fields, key).Some? &&
           (Find(b.fields, key).value.Bool? != Find(a.fields, key).value.Bool?);
  }

  /** On an admitted value the mixed keyword loses the instance. */
  lemma MixedLoses(name: string, b: Json, a: Json, value: Json)
    requires IsLeaf(b) && IsLeaf(a) && !SameBooleans(b, a) && Admits(b, value)
    ensures !KeepsAll(Root(name, b), Root(name, a))
  {
    hide IsCoreKeyword, Admits, SameBooleans, Root, PlainSchema, HasObjectKeyword, RejectsObjects;
    var key := MixedKeyword(b, a);
    var v, w := Find(b.fields, key).value, Find(a.fields, key).value;
    var reading := OneValue(key, Norm(Schema, v));
    AdmittedValid(b, key, v, value);
    assert !KeywordAllows(key, w, value, reading);
    assert !Valid(a, value, reading);
    RootValid(name, b, value, reading);
    RootValid(name, a, value, reading);
  }

  /**
   The exact condition for any leaf of the fragment that the gate passes: acceptance is kept under every reading if and
   only if no keyword changes between boolean and number, or the leaf admits no value at all.
   */
  lemma LeafExact(name: string, b: Json, a: Json)
    requires name != "" && IsLeaf(b) && ClosedSchema(b) && IsLeaf(a)
    requires SchemaBreakingChanges(Root(name, b), Root(name, a)) == []
    ensures InFragment(Root(name, b), Root(name, a))
    ensures KeepsAll(Root(name, b), Root(name, a)) <==> SameBooleans(b, a) || forall value :: !Admits(b, value)
  {
    hide IsCoreKeyword, Root, ClosedSchema, SchemaBreakingChanges, Admits, SameBooleans, PlainSchema, ObjectRoot,
         HasObjectKeyword, RejectsObjects;
    RootFragment(name, b, a);
    var before, after := Root(name, b), Root(name, a);
    if SameBooleans(b, a) {
      forall reading: Reading, instance: Json | Valid(before, instance, reading)
        ensures Valid(after, instance, reading)
      {
        AcceptancePreserved(before, after, reading, instance);
      }
    } else if value :| Admits(b, value) {
      MixedLoses(name, b, a, value);
    } else {
      forall reading: Reading, instance: Json | Valid(before, instance, reading)
        ensures Valid(after, instance, reading)
      {
        NothingAdmitted(name, b, a, instance, reading);
      }
    }
  }

  /** For one scalar keyword beside a type that some value has: kept exactly when it stays on its side. */
  lemma BooleanExact(name: string, t: string, key: string, v: Json, w: Json, value: Json)
    requires name != "" && !IsObjectKeyword(name) && IsOtherKeyword(key) && t != "object"
    requires !IsContainer(v) && !IsContainer(w) && Equal(Python, v, w) && HasType(value, t)
    ensures var before, after := Root(name, Typed(t, key, v)), Root(name, Typed(t, key, w));
            InFragment(before, after) && SchemaBreakingChanges(before, after) == [] &&
            (KeepsAll(before, after) <==> (v.Bool? <==> w.Bool?))
  {
    hide IsCoreKeyword, IsObjectKeyword, HasType, Norm, PlainSchema, ClosedSchema, ObjectRoot, SchemaBreakingChanges,
         KeepsAll, Root, InFragment, RejectsObjects, HasObjectKeyword, NoNodes, PropertyCompatible;
    var b, a := Typed(t, key, v), Typed(t, key, w);
    ScalarUnchanged(v);
    ScalarUnchanged(w);
    TypedNoNodes(t, key, v);
    TypedCompatible(t, key, v, w);
    RootRules(name, b, a);
    TypedSchema(t, key, v);
    TypedSchema(t, key, w);
    LeafExact(name, b, a);
    TypedAdmits(t, key, v, value);
    TypedBooleans(t, key, v, w);
  }

  lemma TypedAdmits(t: string, key: string, v: Json, value: Json)
    requires IsCoreKeyword(key) && key != "type" && HasType(value, t)
    ensures Admits(Typed(t, key, v), value)
  {
    hide IsCoreKeyword;
    CoreIsNoObjectKeyword(key);
    TypedFind(t, key, v);
  }

  lemma TypedBooleans(t: string, key: string, v: Json, w: Json)
    requires IsOtherKeyword(key) && t != "object"
    ensures SameBooleans(Typed(t, key, v), Typed(t, key, w)) <==> (v.Bool? <==> w.Bool?)
  {
    hide IsCoreKeyword;
    TypedFind(t, key, v);
    TypedFind(t, key, w);
    TypedSchema(t, key, v);
  }

  /** A keyword value with an annotation inside: the annotation changes, and only scalar values are out of question. */
  lemma AnnotationInValue(name: string, t: string, key: string, x: string, y: string, value: Json, reading: Reading)
    requires name != "" && !IsObjectKeyword(name) && IsOtherKeyword(key) && t != "object"
    requires !value.Obj? && HasType(value, t)
    requires reading(key, Norm(Schema, Titled(x)), value) && !reading(key, Norm(Schema, Titled(y)), value)
    ensures var before, after := Root(name, Typed(t, key, Titled(x))), Root(name, Typed(t, key, Titled(y)));
            LosesInstance(before, after, reading, Obj([Field(name, value)])) && OnlyNotClosed(before, after)
  {
    hide IsCoreKeyword, IsObjectKeyword, Typed, HasType, Norm, PlainSchema, ClosedSchema, ObjectRoot, LosesInstance,
         SameBooleans;
    TitledFacts(x);
    TitledFacts(y);
    TypedSchema(t, key, Titled(x));
    TypedSchema(t, key, Titled(y));
    TypedBooleans(t, key, Titled(x), Titled(y));
    RootFragment(name, Typed(t, key, Titled(x)), Typed(t, key, Titled(y)));
    KeywordLoss(name, t, key, Titled(x), Titled(y), value, reading);
  }

  function Titled(x: string): Json {
    Arr([Obj([Field("title", Str(x))])])
  }

  lemma TitledFacts(x: string)
    ensures WithoutAnnotations(Titled(x)) == Arr([Obj([])]) && NoNodes(Titled(x)) && !IsScalarValue(Titled(x))
  {
    var fields := [Field("title", Str(x))];
    TitleIsAnnotation();
    assert fields[1..] == [] && StripFields(fields) == [];
    var items := [Obj(fields)];
    assert items[1..] == [] && StripItems(items) == [WithoutAnnotations(items[0])] + StripItems(items[1..]);
    assert StripItems(items) == [Obj([])];
    assert NoNodes(Obj(fields));
    assert !items[0].Str?;
  }

  lemma TitleIsAnnotation()
    ensures IsAnnotation("title") && !IsObjectKeyword("title")
  {
  }

  /** Everything that the gate and validity read of a dict with one member. */
  lemma OneMember(key: string, v: Json)
    ensures forall other :: Find([Field(key, v)], other) == if other == key then Some(v) else None
  {
    forall other ensures Find([Field(key, v)], other) == if other == key then Some(v) else None {
      FindOne(key, v, other);
    }
  }

  lemma EmptyDictValid(instance: Json, reading: Reading)
    ensures Valid(Obj([]), instance, reading)
  {
    var s := Obj([]);
    assert forall key :: Find(s.fields, key).None?;
    assert EnumAllows(s.fields, instance) && CoreAllows(s.fields, instance, reading);
  }

  /** A dict that has only `properties`, `required` or `additionalProperties` judges objects by their members alone. */
  lemma ObjectOnlyValid(s: Json, members: seq<Field>, reading: Reading)
    requires s.Obj? && Find(s.fields, "enum").None?
    requires forall key :: IsCoreKeyword(key) ==> Find(s.fields, key).None?
    ensures Valid(s, Obj(members), reading) <==>
            && RequiredAllows(s.fields, members)
            && (forall name :: Find(members, name).Some? ==> MemberAllows(s, name, Find(members, name).value, reading))
  {
    assert EnumAllows(s.fields, Obj(members)) && CoreAllows(s.fields, Obj(members), reading);
  }

  lemma OpenObjectPasses(none: Json, one: Json)
    requires none == Obj([]) && one.Obj?
    ensures SchemaBreakingChanges(Obj([Field("properties", none)]), Obj([Field("properties", one)])) == []
  {
    var before, after := Obj([Field("properties", none)]), Obj([Field("properties", one)]);
    OneMember("properties", none);
    OneMember("properties", one);
    assert before.fields[0].value == none && IsObjectKeyword(after.fields[0].key);
    OnlyRootCompared(before, after);
  }

  /** The facts about a schema with nothing but `properties`. */
  ghost predicate OnlyProperties(s: Json, declared: seq<Field>) {
    && s.Obj? && Find(s.fields, "enum").None? && Find(s.fields, "additionalProperties").None?
    && RequiredValues(s.fields) == {}
    && (forall key :: IsCoreKeyword(key) ==> Find(s.fields, key).None?)
    && (forall name :: PropertyOf(s, name) == Find(declared, name))
  }

  lemma OnlyPropertiesFacts(declared: seq<Field>)
    ensures OnlyProperties(Obj([Field("properties", Obj(declared))]), declared)
  {
    OneMember("properties", Obj(declared));
  }

  /** Such a schema judges the one member by the property of that name, if there is one. */
  lemma PropertiesOnlyValid(s: Json, declared: seq<Field>, name: string, value: Json, reading: Reading)
    requires OnlyProperties(s, declared)
    ensures Valid(s, Obj([Field(name, value)]), reading) <==>
            (Find(declared, name).Some? ==> Valid(Find(declared, name).value, value, reading))
  {
    var members := [Field(name, value)];
    OneMember(name, value);
    ObjectOnlyValid(s, members, reading);
    assert RequiredAllows(s.fields, members);
    assert PropertyOf(s, name) == Find(declared, name);
    if Valid(s, Obj(members), reading) {
      assert MemberAllows(s, name, Find(members, name).value, reading);
    }
  }

  lemma OpenFragment(declared: seq<Field>)
    requires |declared| <= 1 && forall i :: 0 <= i < |declared| ==> declared[i].key != "" && declared[i].value.Bool?
    ensures var s := Obj([Field("properties", Obj(declared))]);
            PlainSchema(s) && ObjectRoot(s) && !ClosedSchema(s)
  {
    hide IsCoreKeyword;
    ObjectKeywords();
    NotCore();
    OnlyPropertiesFacts(declared);
    OneMember("properties", Obj(declared));
    var s := Obj([Field("properties", Obj(declared))]);
    assert IsObjectKeyword(s.fields[0].key);
    forall name | PropertyOf(s, name).Some? ensures PropertyOf(s, name).value.Bool? {
      assert PropertyOf(s, name) == Find(declared, name);
      assert declared[Position(declared, name)].value.Bool?;
    }
  }

  lemma OpenBooleans(declared: seq<Field>)
    ensures SameBooleans(Obj([Field("properties", Obj([]))]), Obj([Field("properties", Obj(declared))]))
  {
    hide IsCoreKeyword;
    OnlyPropertiesFacts([]);
    OnlyPropertiesFacts(declared);
  }

  /** An open object schema gains a property: its value was free before. */
  lemma OpenObject(name: string, value: Json, reading: Reading)
    requires name != ""
    ensures var before, after := Obj([Field("properties", Obj([]))]),
                                 Obj([Field("properties", Obj([Field(name, Bool(false))]))]);
            LosesInstance(before, after, reading, Obj([Field(name, value)])) && OnlyNotClosed(before, after)
  {
    hide LosesInstance, SameBooleans, PlainSchema, ObjectRoot, ClosedSchema;
    OpenFragment([]);
    OpenFragment([Field(name, Bool(false))]);
    OpenBooleans([Field(name, Bool(false))]);
    OpenObjectLoses(name, value, reading);
  }

  lemma OpenObjectLoses(name: string, value: Json, reading: Reading)
    ensures LosesInstance(Obj([Field("properties", Obj([]))]),
                          Obj([Field("properties", Obj([Field(name, Bool(false))]))]),
                          reading, Obj([Field(name, value)]))
  {
    var one := [Field(name, Bool(false))];
    OpenObjectPasses(Obj([]), Obj(one));
    OnlyPropertiesFacts([]);
    OnlyPropertiesFacts(one);
    PropertiesOnlyValid(Obj([Field("properties", Obj([]))]), [], name, value, reading);
    PropertiesOnlyValid(Obj([Field("properties", Obj(one))]), one, name, value, reading);
    FindOne(name, Bool(false), name);
  }

  lemma RequiredOnly(demanded: string)
    ensures var fields := [Field("required", Arr([Str(demanded)]))];
            && ShapeOf(Obj(fields)) == Dict(None, None, Norm(Python, Obj([])))
            && RequiredValues(fields) == {demanded} && Properties(fields) == []
    ensures forall key :: IsCoreKeyword(key) || key == "enum" ==>
              Find([Field("required", Arr([Str(demanded)]))], key).None?
  {
    var fields := [Field("required", Arr([Str(demanded)]))];
    OneMember("required", Arr([Str(demanded)]));
    assert fields[1..] == [] && CoreFields(fields) == [];
    assert [Str(demanded)][0] == Str(demanded);
    assert RequiredValues(fields) == {demanded};
  }

  /** A schema without core keywords and properties, on its own. */
  lemma BareSchema(s: Json)
    requires s.Obj? && |s.fields| <= 1 && forall i :: 0 <= i < |s.fields| ==> s.fields[i].key == "required"
    ensures PlainSchema(s) && (s.fields == [] ==> !ClosedSchema(s))
    ensures forall name :: PropertyOf(s, name).None?
    ensures forall key :: IsCoreKeyword(key) ==> Find(s.fields, key).None?
  {
    forall key ensures Find(s.fields, key).Some? ==> key == "required" {
      if Find(s.fields, key).Some? {
        assert s.fields[Position(s.fields, key)].key == key;
      }
    }
    assert IsObjectKeyword("required");
    assert Properties(s.fields) == [];
  }

  /** A property that admits objects without an object keyword is no node, so what it later requires goes unseen. */
  lemma HiddenObject(name: string, demanded: string, reading: Reading)
    requires name != "" && !IsObjectKeyword(name)
    ensures var before, after := Root(name, Obj([])), Root(name, Obj([Field("required", Arr([Str(demanded)]))]));
            LosesInstance(before, after, reading, Obj([Field(name, Obj([]))])) && OnlyNotClosed(before, after)
  {
    hide IsObjectKeyword, IsCoreKeyword, ClosedSchema, PlainSchema, ObjectRoot, Root, NoNodes;
    var b, a := Obj([]), Obj([Field("required", Arr([Str(demanded)]))]);
    BareSchema(b);
    BareSchema(a);
    RootFragment(name, b, a);
    HiddenObjectLoses(name, demanded, reading);
  }

  lemma EmptyShape()
    ensures ShapeOf(Obj([])) == Dict(None, None, Norm(Python, Obj([]))) && NoNodes(Obj([]))
  {
  }

  lemma HiddenPasses(name: string, demanded: string)
    requires !IsObjectKeyword(name)
    ensures SchemaBreakingChanges(Root(name, Obj([])),
                                  Root(name, Obj([Field("required", Arr([Str(demanded)]))]))) == []
  {
    hide IsObjectKeyword, IsCoreKeyword, Find, SchemaBreakingChanges, ShapeOf, Norm;
    EmptyShape();
    RequiredOnly(demanded);
    RootRules(name, Obj([]), Obj([Field("required", Arr([Str(demanded)]))]));
  }

  lemma HiddenRefused(demanded: string, reading: Reading)
    ensures !Valid(Obj([Field("required", Arr([Str(demanded)]))]), Obj([]), reading)
  {
    hide IsObjectKeyword, IsCoreKeyword, Find, EnumAllows, CoreAllows;
    var a := Obj([Field("required", Arr([Str(demanded)]))]);
    RequiredOnly(demanded);
    ObjectOnlyValid(a, [], reading);
    NoMembers(demanded);
    assert demanded in RequiredValues(a.fields);
  }

  lemma NoMembers(name: string)
    ensures Find([], name).None?
  {
  }

  lemma HiddenObjectLoses(name: string, demanded: string, reading: Reading)
    requires !IsObjectKeyword(name)
    ensures LosesInstance(Root(name, Obj([])), Root(name, Obj([Field("required", Arr([Str(demanded)]))])),
                          reading, Obj([Field(name, Obj([]))]))
  {
    hide IsObjectKeyword, SchemaBreakingChanges, Valid;
    var b, a := Obj([]), Obj([Field("required", Arr([Str(demanded)]))]);
    HiddenPasses(name, demanded);
    RootValid(name, b, b, reading);
    RootValid(name, a, b, reading);
    EmptyDictValid(b, reading);
    HiddenRefused(demanded, reading);
  }

  lemma RootKeywordPasses(closed: Field, added: Field)
    requires closed == Field("additionalProperties", Bool(false)) && added == Field("type", Str("string"))
    ensures SchemaBreakingChanges(Obj([closed]), Obj([closed, added])) == []
  {
    var before, after := Obj([closed]), Obj([closed, added]);
    OneMember("additionalProperties", Bool(false));
    forall key ensures Find(after.fields, key) == if key == closed.key then Some(closed.value)
                                                  else if key == added.key then Some(added.value) else None {
      FindTwo(closed.key, closed.value, added.key, added.value, key);
    }
    assert IsObjectKeyword(after.fields[0].key);
    OnlyRootCompared(before, after);
  }

  lemma ClosedOnlyValid(closed: Field, reading: Reading)
    requires closed == Field("additionalProperties", Bool(false))
    ensures Valid(Obj([closed]), Obj([]), reading)
  {
    OneMember(closed.key, closed.value);
    ObjectOnlyValid(Obj([closed]), [], reading);
  }

  lemma StringOnlyRejects(closed: Field, added: Field, reading: Reading)
    requires closed.key == "additionalProperties" && added == Field("type", Str("string"))
    ensures !Valid(Obj([closed, added]), Obj([]), reading)
  {
    FindTwo(closed.key, closed.value, added.key, added.value, added.key);
    assert !KeywordAllows(added.key, Find([closed, added], added.key).value, Obj([]), reading);
  }

  lemma RootKeywordFragment(closed: Field, added: Field)
    requires closed == Field("additionalProperties", Bool(false)) && added == Field("type", Str("string"))
    ensures var before, after := Obj([closed]), Obj([closed, added]);
            && PlainSchema(before) && PlainSchema(after) && ObjectRoot(before) && !ObjectRoot(after)
            && ClosedSchema(before) && SameBooleans(before, after)
  {
    hide IsCoreKeyword, IsObjectKeyword;
    ObjectKeywords();
    NotCore();
    TypeIsCore();
    OneMember(closed.key, closed.value);
    var before, after := Obj([closed]), Obj([closed, added]);
    forall key ensures Find(after.fields, key) == if key == closed.key then Some(closed.value)
                                                  else if key == added.key then Some(added.value) else None {
      FindTwo(closed.key, closed.value, added.key, added.value, key);
    }
    assert IsObjectKeyword(before.fields[0].key) && after.fields[1].key == "type";
    assert Properties(before.fields) == [] && Properties(after.fields) == [];
  }

  /** A keyword of the root other than the object keywords is never compared. */
  lemma RootKeyword(closed: Field, added: Field, reading: Reading)
    requires closed == Field("additionalProperties", Bool(false)) && added == Field("type", Str("string"))
    ensures var before, after := Obj([closed]), Obj([closed, added]);
            && LosesInstance(before, after, reading, Obj([]))
            && PlainSchema(before) && PlainSchema(after) && ObjectRoot(before) && !ObjectRoot(after)
            && ClosedSchema(before) && SameBooleans(before, after)
  {
    hide LosesInstance, PlainSchema, ObjectRoot, ClosedSchema, SameBooleans;
    RootKeywordFragment(closed, added);
    RootKeywordLoses(closed, added, reading);
  }

  lemma RootKeywordLoses(closed: Field, added: Field, reading: Reading)
    requires closed == Field("additionalProperties", Bool(false)) && added == Field("type", Str("string"))
    ensures LosesInstance(Obj([closed]), Obj([closed, added]), reading, Obj([]))
  {
    RootKeywordPasses(closed, added);
    ClosedOnlyValid(closed, reading);
    StringOnlyRejects(closed, added, reading);
  }

  // ---- An empty property name ---------------------------------------------------------------------------------

  const SHUT := Field("additionalProperties", Bool(false))
  const BYSTANDER := Obj([Field("required", Bool(true))])
  const NAMELESS := Obj([Field("properties", BYSTANDER), SHUT])

  /** Two properties, one called "properties" and one with the empty name, whose pointer adds no segment. */
  function Members(property: Json): Json {
    Obj([Field("properties", property), Field("", NAMELESS)])
  }

  function Colliding(property: Json): Json {
    Obj([Field("properties", Members(property)), SHUT])
  }

  lemma OwnOnly(v: Json, path: string)
    requires v.Obj? && forall i :: 0 <= i < |v.fields| ==> NoNodes(v.fields[i].value)
    ensures Nodes(v, path) == Own(v, path)
  {
    NoFieldNodes(v.fields, path);
  }

  lemma FieldNodesTwo(a: Field, b: Field, path: string)
    ensures FieldNodes([a, b], path) ==
            ValueNodes(a.value, Child(path, a.key)) + ValueNodes(b.value, Child(path, b.key))
  {
    assert [a, b][1..] == [b] && [b][1..] == [];
    assert FieldNodes([b], path) == ValueNodes(b.value, Child(path, b.key));
  }

  lemma NamelessNodes(path: string, k: string, bystander: Json, shut: Field, nameless: Json)
    requires IsObjectKeyword(k) && !IsContainer(shut.value)
    requires bystander.Obj? && HasObjectKeyword(bystander.fields)
    requires forall i :: 0 <= i < |bystander.fields| ==> NoNodes(bystander.fields[i].value)
    requires nameless == Obj([Field(k, bystander), shut])
    ensures Nodes(nameless, path) == map[path := nameless] + map[Child(path, k) := bystander]
  {
    hide IsObjectKeyword, Child;
    FieldNodesTwo(Field(k, bystander), shut, path);
    assert IsObjectKeyword(nameless.fields[0].key);
    OwnOnly(bystander, Child(path, k));
    assert Own(nameless, path) == map[path := nameless];
  }

  lemma MembersNodes(path: string, k: string, property: Json, nameless: Json, bystander: Json, members: Json)
    requires IsObjectKeyword(k) && property.Obj?
    requires forall i :: 0 <= i < |property.fields| ==> NoNodes(property.fields[i].value)
    requires nameless.Obj? && Nodes(nameless, path) == map[path := nameless] + map[Child(path, k) := bystander]
    requires members == Obj([Field(k, property), Field("", nameless)])
    ensures Nodes(members, path) == map[path := nameless] + map[Child(path, k) := bystander]
  {
    hide IsObjectKeyword;
    var rest := Nodes(nameless, path);
    ChildText(path, "");
    FieldNodesTwo(Field(k, property), Field("", nameless), path);
    OwnOnly(property, Child(path, k));
    Overwritten(Own(property, Child(path, k)), rest);
    Overwritten(Own(members, path), rest);
  }

  lemma Overwritten(stale: map<string, Json>, latest: map<string, Json>)
    requires stale.Keys <= latest.Keys
    ensures stale + latest == latest
  {
  }

  /** The schema of the property called "properties" has lost its own entry to another dict. */
  lemma CollidingNodes(property: Json, root: Json, c1: string, c2: string)
    requires property.Obj? && forall i :: 0 <= i < |property.fields| ==> NoNodes(property.fields[i].value)
    requires root == Colliding(property) && c1 == Child("", "properties") && c2 == Child(c1, "properties")
    ensures Nodes(root, "") == map["" := root] + (map[c1 := NAMELESS] + map[c2 := BYSTANDER])
  {
    hide Child, IsObjectKeyword, HasObjectKeyword, NoNodes;
    BystanderFacts();
    PropertiesKeyword();
    CollidingNodesOf("properties", property, BYSTANDER, SHUT, NAMELESS, Members(property), root);
  }

  lemma PropertiesKeyword()
    ensures IsObjectKeyword("properties") && !IsContainer(SHUT.value)
  {
  }

  lemma BystanderFacts()
    ensures HasObjectKeyword(BYSTANDER.fields)
    ensures forall i :: 0 <= i < |BYSTANDER.fields| ==> NoNodes(BYSTANDER.fields[i].value)
  {
    assert IsObjectKeyword(BYSTANDER.fields[0].key);
  }

  lemma CollidingNodesOf(k: string, property: Json, bystander: Json, shut: Field, nameless: Json, members: Json,
                         root: Json)
    requires IsObjectKeyword(k) && !IsContainer(shut.value)
    requires bystander.Obj? && HasObjectKeyword(bystander.fields)
    requires forall i :: 0 <= i < |bystander.fields| ==> NoNodes(bystander.fields[i].value)
    requires property.Obj? && forall i :: 0 <= i < |property.fields| ==> NoNodes(property.fields[i].value)
    requires nameless == Obj([Field(k, bystander), shut])
    requires members == Obj([Field(k, property), Field("", nameless)])
    requires root == Obj([Field(k, members), shut])
    ensures Nodes(root, "") ==
            map["" := root] + (map[Child("", k) := nameless] + map[Child(Child("", k), k) := bystander])
  {
    NamelessNodes(Child("", k), k, bystander, shut, nameless);
    MembersNodes(Child("", k), k, property, nameless, bystander, members);
    RootNodes(k, members, shut, root);
  }

  lemma RootNodes(k: string, members: Json, shut: Field, root: Json)
    requires IsObjectKeyword(k) && members.Obj? && !IsContainer(shut.value)
    requires root == Obj([Field(k, members), shut])
    ensures Nodes(root, "") == map["" := root] + Nodes(members, Child("", k))
  {
    hide IsObjectKeyword, Child;
    FieldNodesTwo(Field(k, members), shut, "");
    assert IsObjectKeyword(root.fields[0].key);
    assert Own(root, "") == map["" := root];
  }

  /** Two indexes that differ only in the root entry. */
  lemma SharedIndex(before: Json, after: Json, c1: string, v1: Json, c2: string, v2: Json)
    requires before.Obj? && after.Obj? && v1.Obj? && v2.Obj? && c1 != "" && c2 != ""
    requires Nodes(before, "") == map["" := before] + (map[c1 := v1] + map[c2 := v2])
    requires Nodes(after, "") == map["" := after] + (map[c1 := v1] + map[c2 := v2])
    requires NodeCompatible(before.fields, after.fields)
    ensures SchemaBreakingChanges(before, after) == []
  {
    NodesAreDicts(before, "");
    NodesAreDicts(after, "");
    NodeReflexive(v1.fields);
    NodeReflexive(v2.fields);
    SharedEntries(Nodes(before, ""), Nodes(after, ""), before, after, map[c1 := v1] + map[c2 := v2]);
    SilentMeansCompatible(before, after);
  }

  lemma SharedEntries(nb: map<string, Json>, na: map<string, Json>, b: Json, a: Json, shared: map<string, Json>)
    requires IsIndex(nb) && IsIndex(na) && b.Obj? && a.Obj? && NodeCompatible(b.fields, a.fields)
    requires nb == map["" := b] + shared && na == map["" := a] + shared && "" !in shared
    ensures IndexCompatible(nb, na)
  {
    forall p | p in nb ensures PointerCompatible(p, nb, na) {
      NodeReflexive(nb[p].fields);
    }
  }

  lemma CollidingPasses(b: Json, a: Json)
    requires b.Obj? && forall i :: 0 <= i < |b.fields| ==> NoNodes(b.fields[i].value)
    requires a.Obj? && forall i :: 0 <= i < |a.fields| ==> NoNodes(a.fields[i].value)
    requires PropertyCompatible(b, a)
    ensures SchemaBreakingChanges(Colliding(b), Colliding(a)) == []
  {
    var c1 := Child("", "properties");
    var c2 := Child(c1, "properties");
    CollidingNodes(b, Colliding(b), c1, c2);
    CollidingNodes(a, Colliding(a), c1, c2);
    CollidingRoots(b, a);
    ChildText("", "properties");
    ChildText(c1, "properties");
    SharedIndex(Colliding(b), Colliding(a), c1, NAMELESS, c2, BYSTANDER);
  }

  lemma CollidingFacts(property: Json)
    ensures var fields := Colliding(property).fields;
            && Properties(fields) == Members(property).fields
            && Find(fields, "enum").None? && RequiredValues(fields) == {} && IsClosed(fields)
    ensures forall key :: IsCoreKeyword(key) ==> Find(Colliding(property).fields, key).None?
    ensures forall name :: Find(Members(property).fields, name)
                           == if name == "properties" then Some(property)
                              else if name == "" then Some(NAMELESS) else None
  {
    forall key ensures Find(Colliding(property).fields, key) == if key == "properties" then Some(Members(property))
                                                               else if key == SHUT.key then Some(SHUT.value) else None {
      FindTwo("properties", Members(property), SHUT.key, SHUT.value, key);
    }
    forall name ensures Find(Members(property).fields, name)
                        == if name == "properties" then Some(property)
                           else if name == "" then Some(NAMELESS) else None {
      FindTwo("properties", property, "", NAMELESS, name);
    }
  }

  lemma CollidingRoots(b: Json, a: Json)
    requires PropertyCompatible(b, a)
    ensures NodeCompatible(Colliding(b).fields, Colliding(a).fields)
  {
    CollidingFacts(b);
    CollidingFacts(a);
    ShapeReflexive(ShapeOf(NAMELESS));
  }

  lemma CollidingValid(property: Json, value: Json, reading: Reading)
    ensures Valid(Colliding(property), Obj([Field("properties", value)]), reading) <==> Valid(property, value, reading)
  {
    var s, members := Colliding(property), [Field("properties", value)];
    CollidingFacts(property);
    OneMember("properties", value);
    ObjectOnlyValid(s, members, reading);
    assert PropertyOf(s, "properties") == Find(Properties(s.fields), "properties") == Some(property);
    assert RequiredAllows(s.fields, members);
    assert MemberAllows(s, "properties", value, reading) <==> Valid(property, value, reading);
    if Valid(s, Obj(members), reading) {
      assert MemberAllows(s, "properties", Find(members, "properties").value, reading);
    }
  }

  /** A closed dict, and the same dict with a required name: one shape for the gate. */
  ghost predicate ShutPair(closed: seq<Field>, strict: seq<Field>, demanded: string) {
    && ShapeOf(Obj(closed)) == ShapeOf(Obj(strict))
    && Find(closed, "enum").None? && RequiredValues(closed) == {}
    && Find(strict, "enum").None? && RequiredValues(strict) == {demanded}
    && (forall key :: IsCoreKeyword(key) ==> Find(closed, key).None? && Find(strict, key).None?)
  }

  lemma ShutFacts(demanded: string, r: Field)
    requires r == Field("required", Arr([Str(demanded)]))
    ensures ShutPair([SHUT], [SHUT, r], demanded)
  {
    NoCoreFields([SHUT]);
    NoCoreFields([SHUT, r]);
    FindOne(SHUT.key, SHUT.value, "default");
    FindOne(SHUT.key, SHUT.value, "enum");
    FindOne(SHUT.key, SHUT.value, "required");
    FindTwo(SHUT.key, SHUT.value, r.key, r.value, "default");
    FindTwo(SHUT.key, SHUT.value, r.key, r.value, "enum");
    FindTwo(SHUT.key, SHUT.value, r.key, r.value, "required");
    assert [Str(demanded)][0] == Str(demanded);
    assert RequiredValues([SHUT, r]) == {demanded};
  }

  /** The colliding schemas meet every condition except that on property names. */
  lemma CollidingFragment(b: Json, a: Json)
    requires b.Obj? && HasObjectKeyword(b.fields) && IsClosed(b.fields) && a.Obj?
    requires forall i :: 0 <= i < |b.fields| ==> !IsCoreKeyword(b.fields[i].key)
    requires forall name :: PropertyOf(b, name).None? && PropertyOf(a, name).None?
    ensures ObjectRoot(Colliding(b)) && ObjectRoot(Colliding(a)) && ClosedSchema(Colliding(b))
    ensures SameBooleans(Colliding(b), Colliding(a)) && !PlainSchema(Colliding(b))
  {
    hide ObjectRoot, ClosedSchema, SameBooleans, PlainSchema, PropertyOf;
    CollidingRoot(b);
    CollidingRoot(a);
    CollidingClosed(b);
    CollidingBooleans(b, a);
  }

  lemma CollidingRoot(property: Json)
    ensures ObjectRoot(Colliding(property)) && !PlainSchema(Colliding(property))
  {
    hide IsCoreKeyword, IsObjectKeyword;
    ObjectKeywords();
    NotCore();
    CollidingFacts(property);
    assert Colliding(property).fields[0].key == "properties";
    assert Members(property).fields[1].key == "";
  }

  lemma CollidingClosed(b: Json)
    requires b.Obj? && HasObjectKeyword(b.fields) && IsClosed(b.fields)
    requires forall i :: 0 <= i < |b.fields| ==> !IsCoreKeyword(b.fields[i].key)
    requires forall name :: PropertyOf(b, name).None?
    ensures ClosedSchema(Colliding(b))
  {
    hide IsCoreKeyword, IsObjectKeyword, RejectsObjects, IsScalarValue, PlainSchema;
    CollidingRoot(b);
    CollidingFacts(b);
    CollidingProperty(b);
    NamelessClosed();
  }

  lemma CollidingBooleans(b: Json, a: Json)
    requires b.Obj? && a.Obj? && forall i :: 0 <= i < |b.fields| ==> !IsCoreKeyword(b.fields[i].key)
    requires forall name :: PropertyOf(b, name).None? && PropertyOf(a, name).None?
    ensures SameBooleans(Colliding(b), Colliding(a))
  {
    hide IsCoreKeyword, IsObjectKeyword;
    CollidingFacts(b);
    CollidingProperty(b);
    CollidingProperty(a);
    NoCoreFields(b.fields);
    SameBooleansReflexive(NAMELESS);
  }

  lemma CollidingProperty(property: Json)
    ensures forall name :: PropertyOf(Colliding(property), name)
                           == if name == "properties" then Some(property)
                              else if name == "" then Some(NAMELESS) else None
  {
    CollidingFacts(property);
    FindTwo("properties", Members(property), SHUT.key, SHUT.value, "properties");
  }

  lemma NamelessClosed()
    ensures ClosedSchema(NAMELESS)
  {
    hide IsCoreKeyword, IsObjectKeyword, RejectsObjects, IsScalarValue;
    ObjectKeywords();
    NotCore();
    var fields := NAMELESS.fields;
    forall key ensures Find(fields, key) == if key == "properties" then Some(BYSTANDER)
                                            else if key == "additionalProperties" then Some(Bool(false)) else None {
      FindTwo("properties", BYSTANDER, SHUT.key, SHUT.value, key);
    }
    OneMember("required", Bool(true));
    assert IsObjectKeyword(fields[0].key);
  }

  lemma {:induction false} SameBooleansReflexive(v: Json)
    ensures SameBooleans(v, v)
    decreases v
  {
    hide IsCoreKeyword;
    forall name | PropertyOf(v, name).Some? ensures SameBooleans(PropertyOf(v, name).value, PropertyOf(v, name).value) {
      SameBooleansReflexive(PropertyOf(v, name).value);
    }
  }

  /** A property with the empty name hides the schema of a sibling, so what the sibling later requires goes unseen. */
  lemma EmptyName(demanded: string, reading: Reading)
    ensures var before := Colliding(Obj([SHUT]));
            var after := Colliding(Obj([SHUT, Field("required", Arr([Str(demanded)]))]));
            && LosesInstance(before, after, reading, Obj([Field("properties", Obj([]))]))
            && ObjectRoot(before) && ObjectRoot(after) && ClosedSchema(before) && SameBooleans(before, after)
            && !PlainSchema(before)
  {
    hide LosesInstance, PlainSchema, ObjectRoot, ClosedSchema, SameBooleans, IsCoreKeyword, IsObjectKeyword;
    var b, a := Obj([SHUT]), Obj([SHUT, Field("required", Arr([Str(demanded)]))]);
    ObjectKeywords();
    NotCore();
    OneMember(SHUT.key, SHUT.value);
    FindTwo(SHUT.key, SHUT.value, "required", Arr([Str(demanded)]), "properties");
    assert IsObjectKeyword(b.fields[0].key);
    CollidingFragment(b, a);
    EmptyNameLoses(demanded, reading);
  }

  lemma EmptyNameLoses(demanded: string, reading: Reading)
    ensures LosesInstance(Colliding(Obj([SHUT])),
                          Colliding(Obj([SHUT, Field("required", Arr([Str(demanded)]))])),
                          reading, Obj([Field("properties", Obj([]))]))
  {
    var b, a := Obj([SHUT]), Obj([SHUT, Field("required", Arr([Str(demanded)]))]);
    ShutFacts(demanded, Field("required", Arr([Str(demanded)])));
    ShapeReflexive(ShapeOf(b));
    CollidingPasses(b, a);
    CollidingValid(b, Obj([]), reading);
    CollidingValid(a, Obj([]), reading);
    ObjectOnlyValid(b, [], reading);
    ObjectOnlyValid(a, [], reading);
    assert RequiredAllows(b.fields, []);
    assert demanded in RequiredValues(a.fields);
  }

  // ---- Reordered members --------------------------------------------------------------------------------------

  /** The colliding schema with its two properties in the other order. */
  function ReorderedMembers(property: Json): Json {
    Obj([Field("", NAMELESS), Field("properties", property)])
  }

  function Reordered(property: Json): Json {
    Obj([Field("properties", ReorderedMembers(property)), SHUT])
  }

  lemma ReorderedNodes(path: string, k: string, property: Json, nameless: Json, bystander: Json, members: Json)
    requires IsObjectKeyword(k) && property.Obj? && HasObjectKeyword(property.fields)
    requires forall i :: 0 <= i < |property.fields| ==> NoNodes(property.fields[i].value)
    requires nameless.Obj? && Nodes(nameless, path) == map[path := nameless] + map[Child(path, k) := bystander]
    requires members == Obj([Field("", nameless), Field(k, property)])
    ensures Child(path, k) in Nodes(members, path) && Nodes(members, path)[Child(path, k)] == property
  {
    hide IsObjectKeyword;
    ChildText(path, "");
    FieldNodesTwo(Field("", nameless), Field(k, property), path);
    OwnOnly(property, Child(path, k));
    assert Own(property, Child(path, k)) == map[Child(path, k) := property];
  }

  lemma ReorderedEntry(k: string, property: Json, shut: Field, nameless: Json, bystander: Json, members: Json,
                       root: Json, c1: string, c2: string)
    requires IsObjectKeyword(k) && !IsContainer(shut.value)
    requires bystander.Obj? && HasObjectKeyword(bystander.fields)
    requires forall i :: 0 <= i < |bystander.fields| ==> NoNodes(bystander.fields[i].value)
    requires property.Obj? && HasObjectKeyword(property.fields)
    requires forall i :: 0 <= i < |property.fields| ==> NoNodes(property.fields[i].value)
    requires nameless == Obj([Field(k, bystander), shut])
    requires members == Obj([Field("", nameless), Field(k, property)])
    requires root == Obj([Field(k, members), shut]) && c1 == Child("", k) && c2 == Child(c1, k)
    ensures c2 in Nodes(root, "") && Nodes(root, "")[c2] == property
  {
    hide IsObjectKeyword, Child;
    NamelessNodes(c1, k, bystander, shut, nameless);
    ReorderedNodes(c1, k, property, nameless, bystander, members);
    RootNodes(k, members, shut, root);
  }

  lemma PairReordered(a: Field, b: Field)
    requires a.key != b.key
    ensures Equal(Canonical, Obj([a, b]), Obj([b, a]))
  {
    CanonicalPair(a, b);
    CanonicalPair(b, a);
  }

  lemma CanonicalPair(a: Field, b: Field)
    requires a.key != b.key
    ensures NormFields(Canonical, [a, b]) == map[a.key := Norm(Canonical, a.value), b.key := Norm(Canonical, b.value)]
  {
    assert [a, b][1..] == [b] && [b][1..] == [];
    assert NormFields(Canonical, [b]) == map[b.key := Norm(Canonical, b.value)];
  }

  lemma ReorderedEqual(property: Json)
    ensures Equal(Canonical, Colliding(property), Reordered(property))
  {
    PairReordered(Field("properties", property), Field("", NAMELESS));
    CanonicalPair(Field("properties", Members(property)), SHUT);
    CanonicalPair(Field("properties", ReorderedMembers(property)), SHUT);
  }

  /** One incompatible entry is enough for a report. */
  lemma EntryReported(before: Json, after: Json, p: string)
    requires p in Nodes(before, "") && Nodes(before, "")[p].Obj? && p in Nodes(after, "") && Nodes(after, "")[p].Obj?
    requires !NodeCompatible(Nodes(before, "")[p].fields, Nodes(after, "")[p].fields)
    ensures SchemaBreakingChanges(before, after) != []
  {
    hide SchemaBreakingChanges, Nodes, NodeCompatible;
    NodesAreDicts(before, "");
    NodesAreDicts(after, "");
    assert !PointerCompatible(p, Nodes(before, ""), Nodes(after, ""));
    SilentMeansCompatible(before, after);
  }

  lemma CollidingEntries(property: Json, c2: string)
    requires property.Obj? && HasObjectKeyword(property.fields)
    requires forall i :: 0 <= i < |property.fields| ==> NoNodes(property.fields[i].value)
    requires c2 == Child(Child("", "properties"), "properties")
    ensures c2 in Nodes(Colliding(property), "") && Nodes(Colliding(property), "")[c2] == BYSTANDER
    ensures c2 in Nodes(Reordered(property), "") && Nodes(Reordered(property), "")[c2] == property
  {
    hide Nodes, NoNodes, HasObjectKeyword, IsObjectKeyword, Child;
    var c1 := Child("", "properties");
    ObjectKeywords();
    BystanderFacts();
    CollidingNodes(property, Colliding(property), c1, c2);
    ReorderedEntry("properties", property, SHUT, NAMELESS, BYSTANDER, ReorderedMembers(property), Reordered(property),
                   c1, c2);
  }

  /**
   With an empty member name the order of members decides which schema an index keeps: two documents with one canonical
   text pass by the equality shortcut, and the gate itself reports a breaking change between them.
   */
  lemma ReorderedReported(property: Json)
    requires property == Obj([SHUT])
    ensures Equal(Canonical, Colliding(property), Reordered(property))
    ensures SchemaBreakingChanges(Colliding(property), Reordered(property)) != []
  {
    hide SchemaBreakingChanges, Equal, Nodes, NodeCompatible, Colliding, Reordered;
    ReorderedEqual(property);
    ShutIsNode(property);
    ClosedBystander(property);
    var c2 := Child(Child("", "properties"), "properties");
    CollidingEntries(property, c2);
    EntryReported(Colliding(property), Reordered(property), c2);
  }

  lemma ShutIsNode(property: Json)
    requires property == Obj([SHUT])
    ensures HasObjectKeyword(property.fields)
    ensures forall i :: 0 <= i < |property.fields| ==> NoNodes(property.fields[i].value)
  {
    assert IsObjectKeyword(property.fields[0].key);
  }

  lemma ClosedBystander(property: Json)
    requires property == Obj([SHUT])
    ensures !NodeCompatible(BYSTANDER.fields, property.fields)
  {
    OneMember("required", Bool(true));
    OneMember(SHUT.key, SHUT.value);
  }
}
