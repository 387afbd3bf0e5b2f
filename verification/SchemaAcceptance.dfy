/**
 What the gate promises to a consumer: an instance that the old schema accepts, the new schema accepts.
 The keywords are read by JSON Schema 2020-12: Validation sections 6.1.1 (type), 6.1.2 (enum) and 6.5.3 (required),
 Core sections 10.3.2.1 (properties) and 10.3.2.3 (additionalProperties).
 */
module SchemaAcceptance {
  import opened Json
  import opened Options
  import opened JsonPointer
  import opened SchemaNodes
  import opened SchemaGate

  /**
   A reading of the other assertion keywords. The keyword, its value and the instance decide; two values that
   JSON Schema calls equal are one value here. Nothing else is assumed, so a theorem holds for every reading.
   */
  type Reading = (string, Value, Json) -> bool

  predicate HasType(instance: Json, name: string) {
    if name == "object" then instance.Obj?
    else if name == "array" then instance.Arr?
    else if name == "string" then instance.Str?
    else if name == "boolean" then instance.Bool?
    else if name == "null" then instance.Null?
    else if name == "number" then instance.Int? || instance.Float?
    else name == "integer" && (instance.Int? || (instance.Float? && instance.r == instance.r.Floor as real))
  }

  /** The `type` keyword: one name or a list of names. */
  predicate TypeAllows(value: Value, instance: Json) {
    match value
    case VStr(name) => HasType(instance, name)
    case VArr(names) => exists i :: 0 <= i < |names| && names[i].VStr? && HasType(instance, names[i].s)
    case _ => true
  }

  ghost predicate KeywordAllows(key: string, value: Json, instance: Json, reading: Reading) {
    if key == "type" then TypeAllows(Norm(Schema, value), instance) else reading(key, Norm(Schema, value), instance)
  }

  ghost predicate CoreAllows(fields: seq<Field>, instance: Json, reading: Reading) {
    forall key :: IsCoreKeyword(key) && Find(fields, key).Some? ==>
      KeywordAllows(key, Find(fields, key).value, instance, reading)
  }

  ghost predicate EnumAllows(fields: seq<Field>, instance: Json) {
    match Find(fields, "enum")
    case Some(Arr(items)) => exists i :: 0 <= i < |items| && Equal(Schema, items[i], instance)
    case _ => true
  }

  ghost predicate RequiredAllows(fields: seq<Field>, members: seq<Field>) {
    forall name :: name in RequiredValues(fields) ==> Find(members, name).Some?
  }

  /** The validity of an instance. `$ref` and `patternProperties` are outside the fragment below. */
  ghost predicate Valid(schema: Json, instance: Json, reading: Reading)
    decreases schema
  {
    match schema
    case Bool(b) => b
    case Obj(fields) =>
      && EnumAllows(fields, instance)
      && CoreAllows(fields, instance, reading)
      && (instance.Obj? ==>
            && RequiredAllows(fields, instance.fields)
            && (forall name :: Find(instance.fields, name).Some? ==>
                  MemberAllows(schema, name, Find(instance.fields, name).value, reading)))
    case _ => false
  }

  /** The schema of the property `name`, if the dict declares one. */
  function PropertyOf(schema: Json, name: string): (r: Option<Json>)
    ensures r.Some? ==> r.value < schema
  {
    if !schema.Obj? then None else
      match Find(schema.fields, "properties")
      case Some(Obj(members)) =>
        assert Obj(members) < schema;
        Find(members, name)
      case _ => None
  }

  /** `properties` decides for its own names, `additionalProperties` for the others. */
  ghost predicate MemberAllows(schema: Json, name: string, value: Json, reading: Reading)
    requires schema.Obj?
    decreases schema, 0
  {
    var property := PropertyOf(schema, name);
    if property.Some? then Valid(property.value, value, reading)
    else
      match Find(schema.fields, "additionalProperties")
      case Some(rest) => Valid(rest, value, reading)
      case None => true
  }

  // ---- The fragment -------------------------------------------------------------------------------------------

  /** A keyword value without a subschema: a scalar, or a list of strings as `type` may have. */
  ghost predicate IsScalarValue(v: Json) {
    !v.Obj? && (v.Arr? ==> forall i :: 0 <= i < |v.items| ==> v.items[i].Str?)
  }

  predicate TypeExcludesObjects(value: Value) {
    match value
    case VStr(name) => name != "object"
    case VArr(names) => forall i :: 0 <= i < |names| ==> names[i] != VStr("object")
    case _ => false
  }

  /** No object can satisfy the schema, by its `type` or by its `enum`. */
  ghost predicate RejectsObjects(fields: seq<Field>) {
    || (Find(fields, "type").Some? && TypeExcludesObjects(Norm(Schema, Find(fields, "type").value)))
    || match EnumValues(fields)
       case Some(items) => forall i :: 0 <= i < |items| ==> !items[i].Obj?
       case None => false
  }

  /** The shape that both revisions of a schema dict have. */
  ghost predicate PlainDict(fields: seq<Field>) {
    && DistinctKeys(fields)
    && (forall i :: 0 <= i < |fields| ==>
          fields[i].key != "" && fields[i].key != "patternProperties" && fields[i].key != "$ref")
    && (Find(fields, "enum").Some? ==> Find(fields, "enum").value.Arr?)
    && (Find(fields, "properties").Some? ==> Find(fields, "properties").value.Obj?)
    && DistinctKeys(Properties(fields))
    && (forall i :: 0 <= i < |Properties(fields)| ==> Properties(fields)[i].key != "")
  }

  /** A schema of the fragment: a boolean, or a plain dict whose properties are in the fragment. */
  ghost predicate PlainSchema(s: Json)
    decreases s
  {
    if s.Bool? then true else
      && s.Obj? && PlainDict(s.fields)
      && forall name :: PropertyOf(s, name).Some? ==> PlainSchema(PropertyOf(s, name).value)
  }

  /** The old revision besides: its other keywords are scalar, and wherever objects are admitted the dict is closed. */
  ghost predicate ClosedSchema(s: Json)
    decreases s
  {
    if s.Bool? then true else
      && s.Obj?
      && (forall i :: 0 <= i < |s.fields| && IsCoreKeyword(s.fields[i].key) ==> IsScalarValue(s.fields[i].value))
      && (if HasObjectKeyword(s.fields) then IsClosed(s.fields) else RejectsObjects(s.fields))
      && forall name :: PropertyOf(s, name).Some? ==> ClosedSchema(PropertyOf(s, name).value)
  }

  /** The root carries object keywords and annotations only: the gate compares nothing else of it. */
  ghost predicate ObjectRoot(s: Json) {
    && s.Obj? && HasObjectKeyword(s.fields)
    && forall i :: 0 <= i < |s.fields| ==> !IsCoreKeyword(s.fields[i].key) && s.fields[i].key != "enum"
  }

  /** The fragment of the theorem. */
  ghost predicate InFragment(before: Json, after: Json) {
    PlainSchema(before) && PlainSchema(after) && ObjectRoot(before) && ObjectRoot(after) && ClosedSchema(before)
  }

  /**
   No other keyword than `type` is a boolean on one side and a number on the other: Python takes `True == 1` for equal.
   */
  ghost predicate SameBooleans(before: Json, after: Json)
    decreases before
  {
    before.Obj? && after.Obj? ==>
      && (forall key :: IsCoreKeyword(key) && key != "type" && Find(before.fields, key).Some? &&
                        Find(after.fields, key).Some? ==>
            (Find(before.fields, key).value.Bool? <==> Find(after.fields, key).value.Bool?))
      && (forall name :: PropertyOf(before, name).Some? && PropertyOf(after, name).Some? ==>
            SameBooleans(PropertyOf(before, name).value, PropertyOf(after, name).value))
  }

  // ---- Equal cores mean equal keywords ------------------------------------------------------------------------

  lemma {:induction false} CoreFieldsFind(fields: seq<Field>, key: string)
    ensures Find(CoreFields(fields), key)
            == if IsCoreKeyword(key) && Find(fields, key).Some? then Some(WithoutAnnotations(Find(fields, key).value))
               else None
  {
    if fields != [] {
      CoreFieldsFind(fields[1..], key);
      FindStep(fields, key);
      var head, rest := fields[0], CoreFields(fields[1..]);
      if IsCoreKeyword(head.key) {
        var kept := Field(head.key, WithoutAnnotations(head.value));
        assert CoreFields(fields) == [kept] + rest;
        assert ([kept] + rest)[1..] == rest;
        FindStep([kept] + rest, key);
      } else {
        assert CoreFields(fields) == rest;
      }
    }
  }

  lemma StripScalar(v: Json)
    requires IsScalarValue(v)
    ensures WithoutAnnotations(v) == v
  {
    if v.Arr? {
      StripStrings(v.items);
    }
  }

  lemma {:induction false} StripStrings(items: seq<Json>)
    requires forall i :: 0 <= i < |items| ==> items[i].Str?
    ensures StripItems(items) == items
  {
    if items != [] {
      StripStrings(items[1..]);
    }
  }

  lemma {:induction false} StripItemsAt(items: seq<Json>, i: nat)
    requires i < |items|
    ensures |StripItems(items)| == |items|
    ensures StripItems(items)[i] == WithoutAnnotations(items[i])
  {
    if i > 0 {
      StripItemsAt(items[1..], i - 1);
    } else if |items| > 1 {
      StripItemsAt(items[1..], 0);
    }
  }

  /** Python equality of stripped scalar values is JSON Schema equality, once booleans are kept apart from numbers. */
  lemma ScalarEquality(before: Json, after: Json)
    requires IsScalarValue(before) && (before.Bool? <==> after.Bool?)
    requires Equal(Python, WithoutAnnotations(before), WithoutAnnotations(after))
    ensures Equal(Schema, before, after)
  {
    StripScalar(before);
    if before.Arr? {
      assert after.Arr?;
      ListEquality(before.items, after.items);
    }
  }

  lemma {:induction false} StripItemsLength(items: seq<Json>)
    ensures |StripItems(items)| == |items|
  {
    if items != [] {
      StripItemsLength(items[1..]);
    }
  }

  lemma ListEquality(before: seq<Json>, after: seq<Json>)
    requires forall i :: 0 <= i < |before| ==> before[i].Str?
    requires NormItems(Python, before) == NormItems(Python, StripItems(after))
    ensures NormItems(Schema, before) == NormItems(Schema, after)
  {
    var stripped := StripItems(after);
    StripItemsLength(after);
    assert |before| == |NormItems(Python, before)| == |NormItems(Python, stripped)| == |after|;
    forall i | 0 <= i < |before| ensures NormItems(Schema, before)[i] == NormItems(Schema, after)[i] {
      StripItemsAt(after, i);
      assert NormItems(Python, before)[i] == NormItems(Python, stripped)[i];
      StringEquality(before[i], after[i]);
    }
  }

  lemma StringEquality(before: Json, after: Json)
    requires before.Str? && Equal(Python, before, WithoutAnnotations(after))
    ensures Equal(Schema, before, after)
  {
  }

  /** The core comparison of the gate, keyword by keyword. */
  lemma CoreKeywords(before: seq<Field>, after: seq<Field>, key: string)
    requires IsCoreKeyword(key)
    requires Norm(Python, Obj(CoreFields(before))) == Norm(Python, Obj(CoreFields(after)))
    ensures Find(before, key).Some? <==> Find(after, key).Some?
    ensures Find(before, key).Some? ==>
              Equal(Python, WithoutAnnotations(Find(before, key).value), WithoutAnnotations(Find(after, key).value))
  {
    CoreFieldsFind(before, key);
    CoreFieldsFind(after, key);
    NormFieldsAt(Python, CoreFields(before), key);
    NormFieldsAt(Python, CoreFields(after), key);
    assert NormFields(Python, CoreFields(before)) == NormFields(Python, CoreFields(after));
  }

  lemma FindScalar(fields: seq<Field>, key: string)
    requires forall i :: 0 <= i < |fields| && IsCoreKeyword(fields[i].key) ==> IsScalarValue(fields[i].value)
    requires IsCoreKeyword(key) && Find(fields, key).Some?
    ensures IsScalarValue(Find(fields, key).value)
  {
    assert fields[Position(fields, key)].value == Find(fields, key).value;
  }

  /** A `type` between boolean and number decides nothing on either side. */
  lemma TypeKept(before: Json, after: Json, instance: Json)
    requires IsScalarValue(before) && Equal(Python, WithoutAnnotations(before), WithoutAnnotations(after))
    ensures TypeAllows(Norm(Schema, before), instance) == TypeAllows(Norm(Schema, after), instance)
  {
    if before.Bool? <==> after.Bool? {
      ScalarEquality(before, after);
    } else {
      StripScalar(before);
    }
  }

  lemma CoreKept(before: Json, after: Json, instance: Json, reading: Reading)
    requires before.Obj? && after.Obj? && ClosedSchema(before) && SameBooleans(before, after)
    requires Norm(Python, PropertyCore(before)) == Norm(Python, PropertyCore(after))
    requires CoreAllows(before.fields, instance, reading)
    ensures CoreAllows(after.fields, instance, reading)
  {
    forall key | IsCoreKeyword(key) && Find(after.fields, key).Some?
      ensures KeywordAllows(key, Find(after.fields, key).value, instance, reading)
    {
      CoreKeywords(before.fields, after.fields, key);
      FindScalar(before.fields, key);
      assert KeywordAllows(key, Find(before.fields, key).value, instance, reading);
      if key == "type" {
        TypeKept(Find(before.fields, key).value, Find(after.fields, key).value, instance);
      } else {
        ScalarEquality(Find(before.fields, key).value, Find(after.fields, key).value);
      }
    }
  }

  // ---- Enums only grow ----------------------------------------------------------------------------------------

  lemma EnumKept(before: seq<Field>, after: seq<Field>, instance: Json)
    requires Find(before, "enum").Some? ==> Find(before, "enum").value.Arr?
    requires Find(after, "enum").Some? ==> Find(after, "enum").value.Arr?
    requires EnumNorms(before).None? <==> EnumNorms(after).None?
    requires EnumNorms(before).Some? ==> forall v :: v in EnumNorms(before).value ==> v in EnumNorms(after).value
    requires EnumAllows(before, instance)
    ensures EnumAllows(after, instance)
  {
    if EnumValues(before).Some? {
      var b, a := EnumValues(before).value, EnumValues(after).value;
      var i :| 0 <= i < |b| && Equal(Schema, b[i], instance);
      assert NormItems(Canonical, b)[i] in NormItems(Canonical, a);
      var j :| 0 <= j < |a| && NormItems(Canonical, a)[j] == NormItems(Canonical, b)[i];
      CanonicalIsFiner(Schema, b[i], a[j]);
      assert Equal(Schema, a[j], instance);
    }
  }

  // ---- From the index to the tree -----------------------------------------------------------------------------

  /** The gate's comparison, restricted to the object schemas below one location. */
  ghost predicate CompatibleBelow(before: Json, after: Json, path: string) {
    NodesAreDicts(before, path);
    NodesAreDicts(after, path);
    IndexCompatible(Nodes(before, path), Nodes(after, path))
  }

  function PropertyPointer(path: string, name: string): string {
    Child(Child(path, "properties"), name)
  }

  lemma PlainIsClean(fields: seq<Field>)
    requires PlainDict(fields)
    ensures CleanDict(fields) && CleanDict(Properties(fields))
  {
  }

  /** Below the pointer of a property, the index of the parent is the index of the property schema. */
  lemma PropertyIndex(s: Json, path: string, name: string, p: string)
    requires s.Obj? && PlainDict(s.fields)
    requires PropertyOf(s, name).Some? && PropertyOf(s, name).value.Obj?
    requires Under(p, PropertyPointer(path, name))
    ensures SameAt(Nodes(s, path), Nodes(PropertyOf(s, name).value, PropertyPointer(path, name)), p)
  {
    PlainIsClean(s.fields);
    var members := Find(s.fields, "properties").value;
    FindNone(members.fields, name);
    var i := Position(members.fields, name);
    assert members.fields[i].key == name != "";
    ChildText(path, "properties");
    UnderChild(p, Child(path, "properties"), name);
    StepIntoDict(s, path, "properties", p);
    StepIntoDict(members, Child(path, "properties"), name, p);
  }

  /** The comparison below a location includes the comparison below each shared property. */
  lemma CompatibleProperty(before: Json, after: Json, path: string, name: string)
    requires before.Obj? && PlainDict(before.fields) && after.Obj? && PlainDict(after.fields)
    requires PropertyOf(before, name).Some? && PropertyOf(before, name).value.Obj?
    requires PropertyOf(after, name).Some? && PropertyOf(after, name).value.Obj?
    requires CompatibleBelow(before, after, path)
    ensures CompatibleBelow(PropertyOf(before, name).value, PropertyOf(after, name).value, PropertyPointer(path, name))
  {
    var b, a := PropertyOf(before, name).value, PropertyOf(after, name).value;
    var base := PropertyPointer(path, name);
    NodesAreDicts(before, path);
    NodesAreDicts(after, path);
    NodesAreDicts(b, base);
    NodesAreDicts(a, base);
    ChildText(path, "properties");
    ChildText(Child(path, "properties"), name);
    forall p | p in Nodes(b, base) ensures PointerCompatible(p, Nodes(b, base), Nodes(a, base)) {
      NodesUnder(b, base, p);
      PropertyIndex(before, path, name, p);
      PropertyIndex(after, path, name, p);
      assert PointerCompatible(p, Nodes(before, path), Nodes(after, path));
    }
  }

  /** A dict with an object keyword is compared with its successor itself. */
  lemma CompatibleHere(before: Json, after: Json, path: string)
    requires before.Obj? && PlainDict(before.fields) && after.Obj? && PlainDict(after.fields)
    requires HasObjectKeyword(before.fields) && CompatibleBelow(before, after, path)
    ensures NodeCompatible(before.fields, after.fields)
  {
    NodesAreDicts(before, path);
    NodesAreDicts(after, path);
    FieldNodesNotBase(before.fields, path);
    FieldNodesNotBase(after.fields, path);
    assert PointerCompatible(path, Nodes(before, path), Nodes(after, path));
  }

  // ---- The theorem --------------------------------------------------------------------------------------------

  /** A closed dict admits only the names that it declares. */
  lemma ClosedAdmits(s: Json, name: string, value: Json, reading: Reading)
    requires s.Obj? && IsClosed(s.fields) && MemberAllows(s, name, value, reading)
    ensures PropertyOf(s, name).Some?
  {
  }

  lemma PropertyOfFind(s: Json, name: string)
    requires s.Obj? && PlainDict(s.fields)
    ensures PropertyOf(s, name) == Find(Properties(s.fields), name)
  {
  }

  lemma {:induction false} MemberKept(before: Json, after: Json, path: string, reading: Reading, name: string,
                                      value: Json)
    requires before.Obj? && PlainSchema(before) && after.Obj? && PlainSchema(after)
    requires ClosedSchema(before) && HasObjectKeyword(before.fields)
    requires SameBooleans(before, after) && CompatibleBelow(before, after, path)
    requires MemberAllows(before, name, value, reading)
    ensures MemberAllows(after, name, value, reading)
    decreases before, 0
  {
    ClosedAdmits(before, name, value, reading);
    CompatibleHere(before, after, path);
    PropertyOfFind(before, name);
    PropertyOfFind(after, name);
    var b := PropertyOf(before, name).value;
    assert PropertyCompatible(Find(Properties(before.fields), name).value, Find(Properties(after.fields), name).value);
    var a := PropertyOf(after, name).value;
    if b.Obj? && a.Obj? {
      CompatibleProperty(before, after, path, name);
      SchemaKept(b, a, PropertyPointer(path, name), reading, value);
    } else {
      PlainKept(b, a);
    }
  }

  /** A boolean schema stays the same boolean schema. */
  lemma PlainKept(before: Json, after: Json)
    requires PlainSchema(before) && PlainSchema(after) && PropertyCompatible(before, after)
    requires !before.Obj? || !after.Obj?
    ensures before == after
  {
  }

  lemma {:induction false} SchemaKept(before: Json, after: Json, path: string, reading: Reading, instance: Json)
    requires before.Obj? && PlainSchema(before) && after.Obj? && PlainSchema(after)
    requires ClosedSchema(before) && SameBooleans(before, after)
    requires PropertyCompatible(before, after) && CompatibleBelow(before, after, path)
    requires Valid(before, instance, reading)
    ensures Valid(after, instance, reading)
    decreases before, 2
  {
    EnumKept(before.fields, after.fields, instance);
    CoreKept(before, after, instance, reading);
    if instance.Obj? {
      if HasObjectKeyword(before.fields) {
        ObjectKept(before, after, path, reading, instance.fields);
      } else {
        ObjectsRejected(before, instance, reading);
      }
    }
  }

  lemma ExcludedType(value: Value, instance: Json)
    requires TypeExcludesObjects(value) && TypeAllows(value, instance)
    ensures !instance.Obj?
  {
    if value.VArr? {
      var i :| 0 <= i < |value.items| && value.items[i].VStr? && HasType(instance, value.items[i].s);
      assert value.items[i] != VStr("object");
    }
  }

  lemma ExcludedByEnum(fields: seq<Field>, instance: Json)
    requires EnumValues(fields).Some? && EnumAllows(fields, instance)
    requires forall i :: 0 <= i < |EnumValues(fields).value| ==> !EnumValues(fields).value[i].Obj?
    ensures !instance.Obj?
  {
    var items := EnumValues(fields).value;
    var i :| 0 <= i < |items| && Equal(Schema, items[i], instance);
    assert !items[i].Obj?;
  }

  lemma ObjectsRejected(s: Json, instance: Json, reading: Reading)
    requires s.Obj? && RejectsObjects(s.fields) && Valid(s, instance, reading)
    ensures !instance.Obj?
  {
    hide TypeExcludesObjects, TypeAllows, Equal;
    if Find(s.fields, "type").Some? && TypeExcludesObjects(Norm(Schema, Find(s.fields, "type").value)) {
      assert KeywordAllows("type", Find(s.fields, "type").value, instance, reading);
      ExcludedType(Norm(Schema, Find(s.fields, "type").value), instance);
    } else {
      ExcludedByEnum(s.fields, instance);
    }
  }

  /** The object part: required members and the value of every member. */
  lemma {:induction false} ObjectKept(before: Json, after: Json, path: string, reading: Reading, members: seq<Field>)
    requires before.Obj? && PlainSchema(before) && after.Obj? && PlainSchema(after)
    requires ClosedSchema(before) && HasObjectKeyword(before.fields)
    requires SameBooleans(before, after) && CompatibleBelow(before, after, path)
    requires RequiredAllows(before.fields, members)
    requires forall name :: Find(members, name).Some? ==>
               MemberAllows(before, name, Find(members, name).value, reading)
    ensures RequiredAllows(after.fields, members)
    ensures forall name :: Find(members, name).Some? ==>
              MemberAllows(after, name, Find(members, name).value, reading)
    decreases before, 1
  {
    CompatibleHere(before, after, path);
    forall name | Find(members, name).Some? ensures MemberAllows(after, name, Find(members, name).value, reading) {
      MemberKept(before, after, path, reading, name, Find(members, name).value);
    }
  }

  /**
   No reported breaking change preserves acceptance: on the fragment, under every reading of the other keywords,
   each instance that the old schema accepts is accepted by the new one.
   */
  lemma AcceptancePreserved(before: Json, after: Json, reading: Reading, instance: Json)
    requires InFragment(before, after) && SameBooleans(before, after)
    requires SchemaBreakingChanges(before, after) == []
    requires Valid(before, instance, reading)
    ensures Valid(after, instance, reading)
  {
    SilentMeansCompatible(before, after);
    RootUnconstrained(after, instance, reading);
    if instance.Obj? {
      ObjectKept(before, after, "", reading, instance.fields);
    }
  }

  lemma RootUnconstrained(s: Json, instance: Json, reading: Reading)
    requires ObjectRoot(s)
    ensures EnumAllows(s.fields, instance) && CoreAllows(s.fields, instance, reading)
  {
    FindNone(s.fields, "enum");
    forall key | IsCoreKeyword(key) && Find(s.fields, key).Some? ensures false {
      FindNone(s.fields, key);
    }
  }

  // ---- The condition on booleans ------------------------------------------------------------------------------

  /** Both keyword values give one verdict on every instance, whatever the reading. */
  ghost predicate SameVerdict(key: string, v: Json, w: Json) {
    forall reading: Reading, instance: Json ::
      KeywordAllows(key, v, instance, reading) == KeywordAllows(key, w, instance, reading)
  }

  /** No shared keyword of a shared property changes its verdict. */
  ghost predicate SameVerdicts(before: Json, after: Json)
    decreases before
  {
    before.Obj? && after.Obj? ==>
      && (forall key :: IsCoreKeyword(key) && Find(before.fields, key).Some? && Find(after.fields, key).Some? ==>
            SameVerdict(key, Find(before.fields, key).value, Find(after.fields, key).value))
      && (forall name :: PropertyOf(before, name).Some? && PropertyOf(after, name).Some? ==>
            SameVerdicts(PropertyOf(before, name).value, PropertyOf(after, name).value))
  }

  /** One keyword value that the gate takes for unchanged. */
  lemma VerdictExact(key: string, v: Json, w: Json)
    requires IsScalarValue(v) && Equal(Python, WithoutAnnotations(v), WithoutAnnotations(w))
    ensures SameVerdict(key, v, w) <==> key == "type" || (v.Bool? <==> w.Bool?)
  {
    hide WithoutAnnotations, TypeAllows;
    if key == "type" {
      forall reading: Reading, instance: Json
        ensures KeywordAllows(key, v, instance, reading) == KeywordAllows(key, w, instance, reading)
      {
        TypeKept(v, w, instance);
      }
    } else if v.Bool? <==> w.Bool? {
      ScalarEquality(v, w);
    } else {
      var reading: Reading := (k, value, instance) => value == Norm(Schema, v);
      assert KeywordAllows(key, v, Null, reading) && !KeywordAllows(key, w, Null, reading);
    }
  }

  lemma HasProperties(s: Json, name: string)
    requires PropertyOf(s, name).Some?
    ensures HasObjectKeyword(s.fields)
  {
    var i := Position(s.fields, "properties");
    assert IsObjectKeyword(s.fields[i].key);
  }

  lemma KeywordVerdicts(before: Json, after: Json)
    requires before.Obj? && ClosedSchema(before) && after.Obj?
    requires Norm(Python, PropertyCore(before)) == Norm(Python, PropertyCore(after))
    ensures forall key :: IsCoreKeyword(key) && Find(before.fields, key).Some? && Find(after.fields, key).Some? ==>
              (SameVerdict(key, Find(before.fields, key).value, Find(after.fields, key).value) <==>
               key == "type" || (Find(before.fields, key).value.Bool? <==> Find(after.fields, key).value.Bool?))
  {
    hide SameVerdict, IsScalarValue, RejectsObjects, WithoutAnnotations, Find, IsCoreKeyword, Norm;
    forall key | IsCoreKeyword(key) && Find(before.fields, key).Some? && Find(after.fields, key).Some?
      ensures SameVerdict(key, Find(before.fields, key).value, Find(after.fields, key).value) <==>
              key == "type" || (Find(before.fields, key).value.Bool? <==> Find(after.fields, key).value.Bool?)
    {
      CoreKeywords(before.fields, after.fields, key);
      FindScalar(before.fields, key);
      VerdictExact(key, Find(before.fields, key).value, Find(after.fields, key).value);
    }
  }

  /** What the pair of schemas hands down to a pair of shared properties. */
  lemma PropertyPair(before: Json, after: Json, path: string, name: string)
    requires before.Obj? && PlainSchema(before) && after.Obj? && PlainSchema(after) && ClosedSchema(before)
    requires CompatibleBelow(before, after, path)
    requires PropertyOf(before, name).Some? && PropertyOf(after, name).Some?
    requires PropertyOf(before, name).value.Obj? && PropertyOf(after, name).value.Obj?
    ensures var b, a := PropertyOf(before, name).value, PropertyOf(after, name).value;
            && b < before && PlainSchema(b) && PlainSchema(a) && ClosedSchema(b)
            && Norm(Python, PropertyCore(b)) == Norm(Python, PropertyCore(a))
            && CompatibleBelow(b, a, PropertyPointer(path, name))
  {
    hide IsScalarValue, PlainDict, CompatibleBelow, PropertyCompatible, RejectsObjects, WithoutAnnotations;
    SharedProperty(before, after, path, name);
  }

  lemma {:induction false} VerdictsExactBelow(before: Json, after: Json, path: string)
    requires before.Obj? && PlainSchema(before) && after.Obj? && PlainSchema(after) && ClosedSchema(before)
    requires Norm(Python, PropertyCore(before)) == Norm(Python, PropertyCore(after))
    requires CompatibleBelow(before, after, path)
    ensures SameBooleans(before, after) <==> SameVerdicts(before, after)
    decreases before
  {
    hide SameVerdict, PlainSchema, ClosedSchema, PlainDict, CompatibleBelow, PropertyCompatible, WithoutAnnotations,
         Find, PropertyOf, IsCoreKeyword, Norm, PropertyCore;
    KeywordVerdicts(before, after);
    forall name | PropertyOf(before, name).Some? && PropertyOf(after, name).Some?
      ensures SameBooleans(PropertyOf(before, name).value, PropertyOf(after, name).value) <==>
              SameVerdicts(PropertyOf(before, name).value, PropertyOf(after, name).value)
    {
      var b, a := PropertyOf(before, name).value, PropertyOf(after, name).value;
      if b.Obj? && a.Obj? {
        PropertyPair(before, after, path, name);
        VerdictsExactBelow(b, a, PropertyPointer(path, name));
      }
    }
  }

  lemma SharedProperty(before: Json, after: Json, path: string, name: string)
    requires before.Obj? && PlainDict(before.fields) && after.Obj? && PlainDict(after.fields)
    requires PropertyOf(before, name).Some? && PropertyOf(before, name).value.Obj?
    requires PropertyOf(after, name).Some? && PropertyOf(after, name).value.Obj?
    requires CompatibleBelow(before, after, path)
    ensures var b, a := PropertyOf(before, name).value, PropertyOf(after, name).value;
            && Norm(Python, PropertyCore(b)) == Norm(Python, PropertyCore(a))
            && CompatibleBelow(b, a, PropertyPointer(path, name))
  {
    hide CompatibleBelow, PlainDict;
    HasProperties(before, name);
    CompatibleHere(before, after, path);
    CompatibleProperty(before, after, path, name);
    PropertyOfFind(before, name);
    PropertyOfFind(after, name);
    assert PropertyCompatible(Find(Properties(before.fields), name).value, Find(Properties(after.fields), name).value);
  }

  /**
   The condition on booleans is exact on the whole fragment: where the gate is silent, it holds if and only if no shared
   keyword of a shared property changes its verdict under any reading.
   */
  lemma VerdictsExact(before: Json, after: Json)
    requires InFragment(before, after) && SchemaBreakingChanges(before, after) == []
    ensures SameBooleans(before, after) <==> SameVerdicts(before, after)
  {
    SilentMeansCompatible(before, after);
    NoCoreFields(before.fields);
    NoCoreFields(after.fields);
    VerdictsExactBelow(before, after, "");
  }

  lemma {:induction false} NoCoreFields(fields: seq<Field>)
    requires forall i :: 0 <= i < |fields| ==> !IsCoreKeyword(fields[i].key)
    ensures CoreFields(fields) == []
    ensures forall key :: IsCoreKeyword(key) ==> Find(fields, key).None?
  {
    hide IsCoreKeyword;
    if fields != [] {
      NoCoreFields(fields[1..]);
      forall key | IsCoreKeyword(key) ensures Find(fields, key).None? {
        FindStep(fields, key);
      }
    }
  }
}
