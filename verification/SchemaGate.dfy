/**
 The compatibility gate between two revisions of one published schema: the list of breaking changes,
 what it means for that list to be empty, and the order that "no breaking change" induces on all JSON documents.
 */
module SchemaGate {
  import opened Decimals
  import opened Json
  import opened Options
  import opened JsonPointer
  import opened SchemaNodes
  import opened Ordering

  predicate IsAnnotation(key: string) {
    || key == "$comment" || key == "$id" || key == "$schema" || key == "deprecated" || key == "description"
    || key == "examples" || key == "readOnly" || key == "title" || key == "writeOnly"
  }

  /** The keywords that `_property_core` compares: neither annotations nor those with a rule of their own. */
  predicate IsCoreKeyword(key: string) {
    !IsAnnotation(key) && !IsObjectKeyword(key) && key != "default" && key != "enum"
  }

  /** `_without_annotations`. It sorts the members, which Python dict equality ignores. */
  function WithoutAnnotations(v: Json): Json
    decreases v, 1
  {
    match v
    case Obj(fields) => Obj(StripFields(fields))
    case Arr(items) => Arr(StripItems(items))
    case _ => v
  }

  function StripFields(fields: seq<Field>): seq<Field>
    decreases fields, 0
  {
    if fields == [] then [] else
      (if IsAnnotation(fields[0].key) then [] else [Field(fields[0].key, WithoutAnnotations(fields[0].value))])
      + StripFields(fields[1..])
  }

  function StripItems(items: seq<Json>): seq<Json>
    decreases items, 0
  {
    if items == [] then [] else [WithoutAnnotations(items[0])] + StripItems(items[1..])
  }

  function CoreFields(fields: seq<Field>): seq<Field> {
    if fields == [] then [] else
      (if IsCoreKeyword(fields[0].key) then [Field(fields[0].key, WithoutAnnotations(fields[0].value))] else [])
      + CoreFields(fields[1..])
  }

  /** `_property_core`. */
  function PropertyCore(v: Json): Json {
    if v.Obj? then Obj(CoreFields(v.fields)) else WithoutAnnotations(v)
  }

  /** `_enum_values`. */
  function EnumValues(fields: seq<Field>): Option<seq<Json>> {
    match Find(fields, "enum")
    case Some(Arr(items)) => Some(items)
    case _ => None
  }

  /** `_enum_missing_values`: old values whose canonical text is not one of the new ones. */
  function EnumMissingValues(before: seq<Json>, after: seq<Json>): seq<Json> {
    if before == [] then [] else
      (if Norm(Canonical, before[0]) in NormItems(Canonical, after) then [] else [before[0]])
      + EnumMissingValues(before[1..], after)
  }

  /** `_required_values`. */
  function RequiredValues(fields: seq<Field>): set<string> {
    match Find(fields, "required")
    case Some(Arr(items)) => set i | 0 <= i < |items| && items[i].Str? :: items[i].s
    case _ => {}
  }

  /** `_properties`. */
  function Properties(fields: seq<Field>): seq<Field> {
    match Find(fields, "properties")
    case Some(Obj(members)) => members
    case _ => []
  }

  /** `schema.get("additionalProperties") is False`. */
  predicate IsClosed(fields: seq<Field>) {
    Find(fields, "additionalProperties") == Some(Bool(false))
  }

  /** The member of an object schema that a change names: a property or a required name. */
  datatype Place = Place(node: string, keyword: string, name: string)

  /** One reported breaking change. */
  datatype Change =
    | SchemaRemoved(node: string)
    | PropertyRemoved(at: Place)
    | DefaultChanged(at: Place)
    | EnumAdded(at: Place)
    | EnumRemoved(at: Place)
    | EnumValuesRemoved(at: Place, values: seq<Json>)
    | SchemaChanged(at: Place)
    | NewlyRequired(at: Place)
    | AdditionalPropertiesTightened(node: string)

  function DefaultNorm(fields: seq<Field>): Option<Value> {
    var d := Find(fields, "default");
    if d.Some? then Some(Norm(Python, d.value)) else None
  }

  function EnumChanges(at: Place, before: Option<seq<Json>>, after: Option<seq<Json>>): seq<Change> {
    match (before, after)
    case (None, None) => []
    case (None, Some(_)) => [EnumAdded(at)]
    case (Some(_), None) => [EnumRemoved(at)]
    case (Some(b), Some(a)) =>
      var missing := EnumMissingValues(b, a);
      if missing == [] then [] else [EnumValuesRemoved(at, missing)]
  }

  /** `_property_breaking_changes`. */
  function PropertyBreakingChanges(at: Place, before: Json, after: Json): seq<Change> {
    if !before.Obj? || !after.Obj? then
      if Equal(Python, WithoutAnnotations(before), WithoutAnnotations(after)) then [] else [SchemaChanged(at)]
    else
      (if DefaultNorm(before.fields) == DefaultNorm(after.fields) then [] else [DefaultChanged(at)])
      + EnumChanges(at, EnumValues(before.fields), EnumValues(after.fields))
      + (if Equal(Python, PropertyCore(before), PropertyCore(after)) then [] else [SchemaChanged(at)])
  }

  function RemovedChanges(pointer: string, names: seq<string>): seq<Change> {
    if names == [] then [] else
      var k := |names| - 1;
      RemovedChanges(pointer, names[..k]) + [PropertyRemoved(Place(pointer, "properties", names[k]))]
  }

  function CommonChanges(pointer: string, names: seq<string>, before: seq<Field>, after: seq<Field>): seq<Change>
    requires forall name :: name in names ==> Find(before, name).Some? && Find(after, name).Some?
  {
    if names == [] then [] else
      var k := |names| - 1;
      CommonChanges(pointer, names[..k], before, after)
      + PropertyBreakingChanges(Place(pointer, "properties", names[k]),
                                Find(before, names[k]).value, Find(after, names[k]).value)
  }

  function RequiredChanges(pointer: string, names: seq<string>): seq<Change> {
    if names == [] then [] else
      var k := |names| - 1;
      RequiredChanges(pointer, names[..k]) + [NewlyRequired(Place(pointer, "required", names[k]))]
  }

  function CommonNames(before: seq<Field>, after: seq<Field>): (names: seq<string>)
    ensures forall name :: name in names <==> Find(before, name).Some? && Find(after, name).Some?
  {
    SortedSet(Keys(before) * Keys(after))
  }

  /** The changes that one shared pointer contributes. */
  function NodeChanges(pointer: string, before: seq<Field>, after: seq<Field>): seq<Change> {
    var op, np := Properties(before), Properties(after);
    RemovedChanges(pointer, SortedSet(Keys(op) - Keys(np)))
    + CommonChanges(pointer, CommonNames(op, np), op, np)
    + RequiredChanges(pointer, SortedSet(RequiredValues(after) - RequiredValues(before)))
    + (if !IsClosed(before) && IsClosed(after) then [AdditionalPropertiesTightened(pointer)] else [])
  }

  /** An index as `Nodes` builds it: every entry is a dict. */
  ghost predicate IsIndex(nodes: map<string, Json>) {
    forall p :: p in nodes ==> nodes[p].Obj?
  }

  function PointerChanges(pointers: seq<string>, before: map<string, Json>, after: map<string, Json>): seq<Change>
    requires IsIndex(before) && IsIndex(after)
    requires forall p :: p in pointers ==> p in before
  {
    if pointers == [] then [] else
      var k := |pointers| - 1;
      var p := pointers[k];
      PointerChanges(pointers[..k], before, after) + PointerChange(p, before, after)
  }

  /** What the loop body of `_schema_breaking_changes` appends for one pointer. */
  function PointerChange(p: string, before: map<string, Json>, after: map<string, Json>): seq<Change>
    requires IsIndex(before) && IsIndex(after) && p in before
  {
    if p in after then NodeChanges(p, before[p].fields, after[p].fields) else [SchemaRemoved(p)]
  }

  function IndexChanges(before: map<string, Json>, after: map<string, Json>): seq<Change>
    requires IsIndex(before) && IsIndex(after)
  {
    PointerChanges(SortedSet(before.Keys), before, after)
  }

  lemma {:induction false} NodesAreDicts(v: Json, path: string)
    ensures IsIndex(Nodes(v, path))
    decreases v, 1
  {
    if v.Obj? {
      FieldNodesAreDicts(v.fields, path);
    }
  }

  lemma {:induction false} FieldNodesAreDicts(fields: seq<Field>, path: string)
    ensures IsIndex(FieldNodes(fields, path))
    decreases fields, 0
  {
    if fields != [] {
      var base := Child(path, fields[0].key);
      match fields[0].value {
        case Obj(_) => NodesAreDicts(fields[0].value, base);
        case Arr(items) => ItemNodesAreDicts(items, 0, base);
        case _ =>
      }
      FieldNodesAreDicts(fields[1..], path);
    }
  }

  lemma {:induction false} ItemNodesAreDicts(items: seq<Json>, start: nat, path: string)
    ensures IsIndex(ItemNodes(items, start, path))
    decreases items, 0
  {
    if items != [] {
      NodesAreDicts(items[0], Child(path, Decimal(start)));
      ItemNodesAreDicts(items[1..], start + 1, path);
    }
  }

  /** `_schema_breaking_changes`. */
  function SchemaBreakingChanges(before: Json, after: Json): seq<Change> {
    NodesAreDicts(before, "");
    NodesAreDicts(after, "");
    IndexChanges(Nodes(before, ""), Nodes(after, ""))
  }

  // ---- The loops of the source --------------------------------------------------------------------------------

  /** The loop over the removed names, and the one over the newly required names, of one pointer. */
  method ReportNames(pointer: string, removed: seq<string>, required: seq<string>)
    returns (lost: seq<Change>, demanded: seq<Change>)
    ensures lost == RemovedChanges(pointer, removed) && demanded == RequiredChanges(pointer, required)
  {
    lost, demanded := [], [];
    for k := 0 to |removed|
      invariant lost == RemovedChanges(pointer, removed[..k])
    {
      assert removed[..k + 1][..k] == removed[..k];
      lost := lost + [PropertyRemoved(Place(pointer, "properties", removed[k]))];
    }
    assert removed[..|removed|] == removed;
    for k := 0 to |required|
      invariant demanded == RequiredChanges(pointer, required[..k])
    {
      assert required[..k + 1][..k] == required[..k];
      demanded := demanded + [NewlyRequired(Place(pointer, "required", required[k]))];
    }
    assert required[..|required|] == required;
  }

  /** The loop over the properties that both revisions have. */
  method ReportCommon(pointer: string, names: seq<string>, before: seq<Field>, after: seq<Field>)
    returns (changes: seq<Change>)
    requires forall name :: name in names ==> Find(before, name).Some? && Find(after, name).Some?
    ensures changes == CommonChanges(pointer, names, before, after)
  {
    changes := [];
    for k := 0 to |names|
      invariant changes == CommonChanges(pointer, names[..k], before, after)
    {
      assert names[..k + 1][..k] == names[..k];
      changes := changes + PropertyBreakingChanges(Place(pointer, "properties", names[k]),
                                                   Find(before, names[k]).value, Find(after, names[k]).value);
    }
    assert names[..|names|] == names;
  }

  /** The checks on one pointer: the loop body of `_schema_breaking_changes`. */
  method CheckNode(pointer: string, before: seq<Field>, after: seq<Field>) returns (changes: seq<Change>)
    ensures changes == NodeChanges(pointer, before, after)
  {
    hide CommonChanges, RemovedChanges, RequiredChanges, SortedSet, StrictlySorted, RequiredValues, Properties,
         IsClosed, PropertyBreakingChanges;
    var op, np := Properties(before), Properties(after);
    var lost, demanded := ReportNames(pointer, SortedSet(Keys(op) - Keys(np)),
                                      SortedSet(RequiredValues(after) - RequiredValues(before)));
    var changed := ReportCommon(pointer, CommonNames(op, np), op, np);
    changes := lost + changed + demanded;
    if !IsClosed(before) && IsClosed(after) {
      changes := changes + [AdditionalPropertiesTightened(pointer)];
    }
  }

  /** The loop over the sorted pointers of the old index. */
  method CompareIndexes(before: map<string, Json>, after: map<string, Json>) returns (changes: seq<Change>)
    requires IsIndex(before) && IsIndex(after)
    ensures changes == IndexChanges(before, after)
  {
    hide NodeChanges, SortedSet, StrictlySorted;
    var pointers := SortedSet(before.Keys);
    changes := [];
    for k := 0 to |pointers|
      invariant changes == PointerChanges(pointers[..k], before, after)
    {
      assert pointers[..k + 1][..k] == pointers[..k];
      var p := pointers[k];
      var found := [SchemaRemoved(p)];
      if p in after {
        found := CheckNode(p, before[p].fields, after[p].fields);
      }
      changes := changes + found;
    }
    assert pointers[..|pointers|] == pointers;
  }

  /** `_schema_breaking_changes` as the source runs it. */
  method CheckSchemas(before: Json, after: Json) returns (changes: seq<Change>)
    ensures changes == SchemaBreakingChanges(before, after)
  {
    var old_nodes := ObjectSchemaNodes(before, "");
    var new_nodes := ObjectSchemaNodes(after, "");
    NodesAreDicts(before, "");
    NodesAreDicts(after, "");
    changes := CompareIndexes(old_nodes, new_nodes);
  }

  // ---- What silence means -------------------------------------------------------------------------------------

  /** What the gate sees of a property: the compared values of a dict, or the whole of anything else. */
  datatype Shape =
    | Plain(whole: Value)
    | Dict(default: Option<Value>, enum: Option<seq<Value>>, core: Value)

  function EnumNorms(fields: seq<Field>): Option<seq<Value>> {
    var e := EnumValues(fields);
    if e.Some? then Some(NormItems(Canonical, e.value)) else None
  }

  function ShapeOf(v: Json): Shape {
    if v.Obj? then Dict(DefaultNorm(v.fields), EnumNorms(v.fields), Norm(Python, PropertyCore(v)))
    else Plain(Norm(Python, WithoutAnnotations(v)))
  }

  ghost predicate Covered(before: seq<Value>, after: seq<Value>) {
    forall v :: v in before ==> v in after
  }

  /** Same default, same core, and an enum that is absent on both sides or only grows. */
  ghost predicate ShapeCompatible(before: Shape, after: Shape) {
    match (before, after)
    case (Plain(b), Plain(a)) => b == a
    case (Dict(bd, be, bc), Dict(ad, ae, ac)) =>
      && bd == ad && bc == ac
      && (be.None? <==> ae.None?)
      && (be.Some? ==> Covered(be.value, ae.value))
    case _ => false
  }

  ghost predicate PropertyCompatible(before: Json, after: Json) {
    ShapeCompatible(ShapeOf(before), ShapeOf(after))
  }

  ghost predicate PropertiesCompatible(before: seq<Field>, after: seq<Field>) {
    forall name :: Find(before, name).Some? ==>
      Find(after, name).Some? && PropertyCompatible(Find(before, name).value, Find(after, name).value)
  }

  /** No property lost or changed, nothing newly required, not newly closed. */
  ghost predicate NodeCompatible(before: seq<Field>, after: seq<Field>) {
    && PropertiesCompatible(Properties(before), Properties(after))
    && RequiredValues(after) <= RequiredValues(before)
    && (IsClosed(after) ==> IsClosed(before))
  }

  ghost predicate IndexCompatible(before: map<string, Json>, after: map<string, Json>)
    requires IsIndex(before) && IsIndex(after)
  {
    forall p :: p in before ==> PointerCompatible(p, before, after)
  }

  /** Every object schema of `before` is still there, at its own pointer, and compatible. */
  ghost predicate Compatible(before: Json, after: Json) {
    NodesAreDicts(before, "");
    NodesAreDicts(after, "");
    IndexCompatible(Nodes(before, ""), Nodes(after, ""))
  }

  lemma TwoEmpty<T>(a: seq<T>, b: seq<T>)
    ensures a + b == [] <==> a == [] && b == []
  {
    assert |a + b| == |a| + |b|;
  }

  lemma NormItemsMember(items: seq<Json>, v: Value)
    requires items != []
    ensures v in NormItems(Canonical, items) <==>
            v == Norm(Canonical, items[0]) || v in NormItems(Canonical, items[1..])
  {
    hide Norm;
    assert NormItems(Canonical, items) == [Norm(Canonical, items[0])] + NormItems(Canonical, items[1..]);
  }

  lemma EnumMissingStep(before: seq<Json>, after: seq<Json>)
    requires before != []
    ensures EnumMissingValues(before, after) == [] <==>
            Norm(Canonical, before[0]) in NormItems(Canonical, after) && EnumMissingValues(before[1..], after) == []
  {
    hide Norm, NormItems;
  }

  lemma {:induction false} EnumMissingNone(before: seq<Json>, after: seq<Json>)
    ensures EnumMissingValues(before, after) == [] <==>
            Covered(NormItems(Canonical, before), NormItems(Canonical, after))
  {
    hide Norm, NormItems, EnumMissingValues;
    if before == [] {
      NoneMissing(after);
    } else {
      EnumMissingNone(before[1..], after);
      EnumMissingStep(before, after);
      forall v
        ensures v in NormItems(Canonical, before) <==>
                v == Norm(Canonical, before[0]) || v in NormItems(Canonical, before[1..])
      {
        NormItemsMember(before, v);
      }
    }
  }

  lemma NoneMissing(after: seq<Json>)
    ensures EnumMissingValues([], after) == [] && NormItems(Canonical, []) == []
  {
  }

  ghost predicate EnumGrows(before: Option<seq<Json>>, after: Option<seq<Json>>) {
    && (before.None? <==> after.None?)
    && (before.Some? && after.Some? ==>
          Covered(NormItems(Canonical, before.value), NormItems(Canonical, after.value)))
  }

  /** An enum is silent when it is absent on both sides, or on none and only grows. */
  lemma EnumSilent(at: Place, before: Option<seq<Json>>, after: Option<seq<Json>>)
    ensures EnumChanges(at, before, after) == [] <==> EnumGrows(before, after)
  {
    hide EnumMissingValues, NormItems, Covered;
    if before.Some? && after.Some? {
      EnumMissingNone(before.value, after.value);
    }
  }

  /** Without its annotations a dict is still a dict, and nothing else is one. */
  lemma KindsDiffer(before: Json, after: Json)
    requires before.Obj? != after.Obj?
    ensures !Equal(Python, WithoutAnnotations(before), WithoutAnnotations(after))
  {
    hide NormItems, NormFields;
    assert WithoutAnnotations(before).Obj? == before.Obj? && WithoutAnnotations(after).Obj? == after.Obj?;
    assert Norm(Python, WithoutAnnotations(before)).VObj? == before.Obj?;
    assert Norm(Python, WithoutAnnotations(after)).VObj? == after.Obj?;
  }

  lemma DictCompatible(before: Json, after: Json)
    requires before.Obj? && after.Obj?
    ensures PropertyCompatible(before, after) <==>
            && DefaultNorm(before.fields) == DefaultNorm(after.fields)
            && EnumGrows(EnumValues(before.fields), EnumValues(after.fields))
            && Equal(Python, PropertyCore(before), PropertyCore(after))
  {
    hide EnumValues, Norm, NormItems, PropertyCore, DefaultNorm, Covered;
    var b, a := EnumValues(before.fields), EnumValues(after.fields);
    assert EnumNorms(before.fields) == if b.Some? then Some(NormItems(Canonical, b.value)) else None;
    assert EnumNorms(after.fields) == if a.Some? then Some(NormItems(Canonical, a.value)) else None;
  }

  lemma DictSilent(at: Place, before: Json, after: Json)
    requires before.Obj? && after.Obj?
    ensures PropertyBreakingChanges(at, before, after) == [] <==>
            && DefaultNorm(before.fields) == DefaultNorm(after.fields)
            && EnumGrows(EnumValues(before.fields), EnumValues(after.fields))
            && Equal(Python, PropertyCore(before), PropertyCore(after))
  {
    hide EnumChanges, EnumValues, Norm, NormItems, PropertyCore, DefaultNorm, EnumGrows;
    var enum := EnumChanges(at, EnumValues(before.fields), EnumValues(after.fields));
    EnumSilent(at, EnumValues(before.fields), EnumValues(after.fields));
    var default := if DefaultNorm(before.fields) == DefaultNorm(after.fields) then [] else [DefaultChanged(at)];
    var core := if Equal(Python, PropertyCore(before), PropertyCore(after)) then [] else [SchemaChanged(at)];
    TwoEmpty(default, enum);
    TwoEmpty(default + enum, core);
    assert PropertyBreakingChanges(at, before, after) == default + enum + core;
  }

  /** Silence on one property is compatibility of what the gate sees of it. */
  lemma PropertySilent(at: Place, before: Json, after: Json)
    ensures PropertyBreakingChanges(at, before, after) == [] <==> PropertyCompatible(before, after)
  {
    if before.Obj? && after.Obj? {
      hide PropertyBreakingChanges, PropertyCompatible;
      DictSilent(at, before, after);
      DictCompatible(before, after);
    } else if before.Obj? || after.Obj? {
      KindsDiffer(before, after);
    } else {
      hide Norm, WithoutAnnotations;
    }
  }

  ghost predicate AllCommonCompatible(names: seq<string>, before: seq<Field>, after: seq<Field>)
    requires forall name :: name in names ==> Find(before, name).Some? && Find(after, name).Some?
  {
    forall i :: 0 <= i < |names| ==>
      PropertyCompatible(Find(before, names[i]).value, Find(after, names[i]).value)
  }

  lemma {:induction false} CommonSilent(pointer: string, names: seq<string>, before: seq<Field>, after: seq<Field>)
    requires forall name :: name in names ==> Find(before, name).Some? && Find(after, name).Some?
    ensures CommonChanges(pointer, names, before, after) == [] <==> AllCommonCompatible(names, before, after)
  {
    if names != [] {
      var k := |names| - 1;
      var at, b, a := Place(pointer, "properties", names[k]), Find(before, names[k]).value, Find(after, names[k]).value;
      CommonSilent(pointer, names[..k], before, after);
      PropertySilent(at, b, a);
      TwoEmpty(CommonChanges(pointer, names[..k], before, after), PropertyBreakingChanges(at, b, a));
      AllCommonStep(names, before, after);
    }
  }

  lemma AllCommonStep(names: seq<string>, before: seq<Field>, after: seq<Field>)
    requires names != []
    requires forall name :: name in names ==> Find(before, name).Some? && Find(after, name).Some?
    ensures var k := |names| - 1;
            AllCommonCompatible(names, before, after) <==>
              && AllCommonCompatible(names[..k], before, after)
              && PropertyCompatible(Find(before, names[k]).value, Find(after, names[k]).value)
  {
    hide PropertyCompatible;
  }

  lemma EmptyDifference(a: set<string>, b: set<string>)
    ensures SortedSet(a - b) == [] <==> a <= b
  {
    hide SortedSet, StrictlySorted;
    var r := SortedSet(a - b);
    if a <= b {
      assert a - b == {};
      assert |r| == 0;
    }
    if r == [] {
      forall x | x in a ensures x in b {
        assert x in r <==> x in a - b;
      }
    }
  }

  lemma PropertiesSilent(pointer: string, before: seq<Field>, after: seq<Field>)
    ensures (&& RemovedChanges(pointer, SortedSet(Keys(before) - Keys(after))) == []
             && CommonChanges(pointer, CommonNames(before, after), before, after) == [])
            <==> PropertiesCompatible(before, after)
  {
    EmptyDifference(Keys(before), Keys(after));
    CommonSilent(pointer, CommonNames(before, after), before, after);
    if PropertiesCompatible(before, after) {
      assert Keys(before) <= Keys(after);
    }
  }

  lemma RequiredSilent(pointer: string, names: seq<string>)
    ensures RequiredChanges(pointer, names) == [] <==> names == []
  {
  }

  lemma AllEmpty<T>(a: seq<T>, b: seq<T>, c: seq<T>, d: seq<T>)
    ensures a + b + c + d == [] <==> a == [] && b == [] && c == [] && d == []
  {
    assert |a + b + c + d| == |a| + |b| + |c| + |d|;
  }

  lemma NodeSilent(pointer: string, before: seq<Field>, after: seq<Field>)
    ensures NodeChanges(pointer, before, after) == [] <==> NodeCompatible(before, after)
  {
    hide Properties, RequiredValues, IsClosed, RemovedChanges, RequiredChanges, CommonChanges, SortedSet,
         StrictlySorted;
    var op, np := Properties(before), Properties(after);
    var rb, ra := RequiredValues(before), RequiredValues(after);
    PropertiesSilent(pointer, op, np);
    EmptyDifference(ra, rb);
    RequiredSilent(pointer, SortedSet(ra - rb));
    AllEmpty(RemovedChanges(pointer, SortedSet(Keys(op) - Keys(np))),
             CommonChanges(pointer, CommonNames(op, np), op, np),
             RequiredChanges(pointer, SortedSet(ra - rb)),
             if !IsClosed(before) && IsClosed(after) then [AdditionalPropertiesTightened(pointer)] else []);
  }

  ghost predicate PointersCompatible(pointers: seq<string>, before: map<string, Json>, after: map<string, Json>)
    requires IsIndex(before) && IsIndex(after)
    requires forall p :: p in pointers ==> p in before
  {
    forall i :: 0 <= i < |pointers| ==> PointerCompatible(pointers[i], before, after)
  }

  ghost predicate PointerCompatible(p: string, before: map<string, Json>, after: map<string, Json>)
    requires IsIndex(before) && IsIndex(after) && p in before
  {
    p in after && NodeCompatible(before[p].fields, after[p].fields)
  }

  lemma PointerSilent(p: string, before: map<string, Json>, after: map<string, Json>)
    requires IsIndex(before) && IsIndex(after) && p in before
    ensures PointerChange(p, before, after) == [] <==> PointerCompatible(p, before, after)
  {
    if p in after {
      NodeSilent(p, before[p].fields, after[p].fields);
    }
  }

  lemma {:induction false} PointersSilent(pointers: seq<string>, before: map<string, Json>, after: map<string, Json>)
    requires IsIndex(before) && IsIndex(after)
    requires forall p :: p in pointers ==> p in before
    ensures PointerChanges(pointers, before, after) == [] <==> PointersCompatible(pointers, before, after)
  {
    if pointers != [] {
      var k := |pointers| - 1;
      PointersSilent(pointers[..k], before, after);
      PointerSilent(pointers[k], before, after);
      TwoEmpty(PointerChanges(pointers[..k], before, after), PointerChange(pointers[k], before, after));
      PointersStep(pointers, before, after);
    }
  }

  lemma PointersStep(pointers: seq<string>, before: map<string, Json>, after: map<string, Json>)
    requires IsIndex(before) && IsIndex(after) && pointers != []
    requires forall p :: p in pointers ==> p in before
    ensures var k := |pointers| - 1;
            PointersCompatible(pointers, before, after) <==>
              PointersCompatible(pointers[..k], before, after) && PointerCompatible(pointers[k], before, after)
  {
  }

  lemma IndexSilent(before: map<string, Json>, after: map<string, Json>)
    requires IsIndex(before) && IsIndex(after)
    ensures IndexChanges(before, after) == [] <==> IndexCompatible(before, after)
  {
    hide PointerChanges, PointerCompatible, StrictlySorted;
    PointersSilent(SortedSet(before.Keys), before, after);
  }

  /** The gate is silent exactly when every old object schema survives compatibly at its own pointer. */
  lemma SilentMeansCompatible(before: Json, after: Json)
    ensures SchemaBreakingChanges(before, after) == [] <==> Compatible(before, after)
  {
    NodesAreDicts(before, "");
    NodesAreDicts(after, "");
    IndexSilent(Nodes(before, ""), Nodes(after, ""));
  }

  // ---- "No breaking change" is a preorder ---------------------------------------------------------------------

  lemma PropertiesTransitive(a: seq<Field>, b: seq<Field>, c: seq<Field>)
    requires PropertiesCompatible(a, b) && PropertiesCompatible(b, c)
    ensures PropertiesCompatible(a, c)
  {
    forall name | Find(a, name).Some?
      ensures Find(c, name).Some? && PropertyCompatible(Find(a, name).value, Find(c, name).value)
    {
      ShapeTransitive(ShapeOf(Find(a, name).value), ShapeOf(Find(b, name).value), ShapeOf(Find(c, name).value));
    }
  }

  lemma ShapeTransitive(a: Shape, b: Shape, c: Shape)
    requires ShapeCompatible(a, b) && ShapeCompatible(b, c)
    ensures ShapeCompatible(a, c)
  {
  }

  lemma NodeTransitive(a: seq<Field>, b: seq<Field>, c: seq<Field>)
    requires NodeCompatible(a, b) && NodeCompatible(b, c)
    ensures NodeCompatible(a, c)
  {
    PropertiesTransitive(Properties(a), Properties(b), Properties(c));
  }

  lemma NodeReflexive(a: seq<Field>)
    ensures NodeCompatible(a, a)
  {
    forall name | Find(Properties(a), name).Some?
      ensures PropertyCompatible(Find(Properties(a), name).value, Find(Properties(a), name).value)
    {
      ShapeReflexive(ShapeOf(Find(Properties(a), name).value));
    }
  }

  lemma ShapeReflexive(s: Shape)
    ensures ShapeCompatible(s, s)
  {
  }

  /** Comparing any document with itself reports nothing. */
  lemma GateReflexive(v: Json)
    ensures SchemaBreakingChanges(v, v) == []
  {
    NodesAreDicts(v, "");
    forall p | p in Nodes(v, "") ensures NodeCompatible(Nodes(v, "")[p].fields, Nodes(v, "")[p].fields) {
      NodeReflexive(Nodes(v, "")[p].fields);
    }
    SilentMeansCompatible(v, v);
  }

  /** Two silent comparisons in a row make the comparison of the ends silent, for any three documents. */
  lemma GateTransitive(a: Json, b: Json, c: Json)
    requires SchemaBreakingChanges(a, b) == [] && SchemaBreakingChanges(b, c) == []
    ensures SchemaBreakingChanges(a, c) == []
  {
    SilentMeansCompatible(a, b);
    SilentMeansCompatible(b, c);
    SilentMeansCompatible(a, c);
    NodesAreDicts(a, "");
    NodesAreDicts(b, "");
    NodesAreDicts(c, "");
    var na, nb, nc := Nodes(a, ""), Nodes(b, ""), Nodes(c, "");
    forall p | p in na ensures p in nc && NodeCompatible(na[p].fields, nc[p].fields) {
      assert p in nb && p in nc;
      NodeTransitive(na[p].fields, nb[p].fields, nc[p].fields);
    }
  }
}
