/**
 The shortcut before the gate: a schema that Python's `==` calls unchanged is not compared. The gate would have been
 silent exactly when, pointer by pointer, equal object schemas spell their enum values and their closings alike and
 other ones are compatible; otherwise the shortcut lets a breaking change through, and a run of passing steps no longer
 composes.
 */
module SchemaSpelling {
  import opened Json
  import opened Options
  import opened JsonPointer
  import opened SchemaNodes
  import opened SchemaGate
  import opened SchemaAcceptance
  import opened SchemaLimits

  /** One revision of a stable schema passes against its base. */
  predicate StepPasses(before: Json, after: Json) {
    Equal(Python, before, after) || SchemaBreakingChanges(before, after) == []
  }

  // ---- Equal documents ----------------------------------------------------------------------------------------

  lemma FindEqual(eq: Equality, a: seq<Field>, b: seq<Field>, key: string)
    requires Equal(eq, Obj(a), Obj(b))
    ensures Find(a, key).Some? <==> Find(b, key).Some?
    ensures Find(a, key).Some? ==> Equal(eq, Find(a, key).value, Find(b, key).value)
  {
    assert NormFields(eq, a) == NormFields(eq, b);
    NormFieldsAt(eq, a, key);
    NormFieldsAt(eq, b, key);
  }

  lemma FromFinds(eq: Equality, a: seq<Field>, b: seq<Field>)
    requires forall key :: SameFind(eq, a, b, key)
    ensures Equal(eq, Obj(a), Obj(b))
  {
    var na, nb := NormFields(eq, a), NormFields(eq, b);
    forall key ensures (key in na <==> key in nb) && (key in na ==> na[key] == nb[key]) {
      assert SameFind(eq, a, b, key);
      NormFieldsAt(eq, a, key);
      NormFieldsAt(eq, b, key);
    }
    assert na == nb;
  }

  ghost predicate SameFind(eq: Equality, a: seq<Field>, b: seq<Field>, key: string) {
    && (Find(a, key).Some? <==> Find(b, key).Some?)
    && (Find(a, key).Some? ==> Equal(eq, Find(a, key).value, Find(b, key).value))
  }

  lemma ItemsEqual(eq: Equality, a: seq<Json>, b: seq<Json>)
    requires Equal(eq, Arr(a), Arr(b))
    ensures |a| == |b| && forall i :: 0 <= i < |a| ==> Equal(eq, a[i], b[i])
  {
    var na, nb := NormItems(eq, a), NormItems(eq, b);
    assert na == nb && |a| == |na| == |nb| == |b|;
    forall i | 0 <= i < |a| ensures Equal(eq, a[i], b[i]) {
      assert na[i] == Norm(eq, a[i]) && nb[i] == Norm(eq, b[i]);
    }
  }

  /** Equal documents agree in which of them are dicts and lists. */
  lemma EqualKinds(eq: Equality, a: Json, b: Json)
    requires Equal(eq, a, b)
    ensures (a.Obj? <==> b.Obj?) && (a.Arr? <==> b.Arr?) && (a.Str? ==> a == b)
  {
  }

  lemma {:induction false} StripFind(fields: seq<Field>, key: string)
    ensures Find(StripFields(fields), key)
            == if !IsAnnotation(key) && Find(fields, key).Some? then Some(WithoutAnnotations(Find(fields, key).value))
               else None
  {
    if fields != [] {
      StripFind(fields[1..], key);
      FindStep(fields, key);
      var head, rest := fields[0], StripFields(fields[1..]);
      if IsAnnotation(head.key) {
        assert StripFields(fields) == rest;
      } else {
        var kept := Field(head.key, WithoutAnnotations(head.value));
        assert StripFields(fields) == [kept] + rest;
        assert ([kept] + rest)[1..] == rest;
        FindStep([kept] + rest, key);
      }
    }
  }

  /** Removing annotations keeps equal documents equal. */
  lemma {:induction false} StripEqual(eq: Equality, a: Json, b: Json)
    requires Equal(eq, a, b)
    ensures Equal(eq, WithoutAnnotations(a), WithoutAnnotations(b))
    decreases a
  {
    hide IsAnnotation;
    EqualKinds(eq, a, b);
    if a.Arr? {
      ItemsEqual(eq, a.items, b.items);
      var sa, sb := StripItems(a.items), StripItems(b.items);
      if a.items != [] {
        StripItemsAt(a.items, 0);
        StripItemsAt(b.items, 0);
      }
      assert |sa| == |sb|;
      forall i | 0 <= i < |sa| ensures Norm(eq, sa[i]) == Norm(eq, sb[i]) {
        StripItemsAt(a.items, i);
        StripItemsAt(b.items, i);
        StripEqual(eq, a.items[i], b.items[i]);
      }
      assert NormItems(eq, sa) == NormItems(eq, sb);
    } else if a.Obj? {
      forall key ensures SameFind(eq, StripFields(a.fields), StripFields(b.fields), key) {
        StripFind(a.fields, key);
        StripFind(b.fields, key);
        FindEqual(eq, a.fields, b.fields, key);
        if Find(a.fields, key).Some? {
          StripEqual(eq, Find(a.fields, key).value, Find(b.fields, key).value);
        }
      }
      FromFinds(eq, StripFields(a.fields), StripFields(b.fields));
    }
  }

  lemma CoreEqual(eq: Equality, a: seq<Field>, b: seq<Field>)
    requires Equal(eq, Obj(a), Obj(b))
    ensures Equal(eq, Obj(CoreFields(a)), Obj(CoreFields(b)))
  {
    forall key ensures SameFind(eq, CoreFields(a), CoreFields(b), key) {
      CoreFieldsFind(a, key);
      CoreFieldsFind(b, key);
      FindEqual(eq, a, b, key);
      if Find(a, key).Some? {
        StripEqual(eq, Find(a, key).value, Find(b, key).value);
      }
    }
    FromFinds(eq, CoreFields(a), CoreFields(b));
  }

  lemma RequiredEqual(eq: Equality, a: seq<Field>, b: seq<Field>)
    requires Equal(eq, Obj(a), Obj(b))
    ensures RequiredValues(b) <= RequiredValues(a)
  {
    FindEqual(eq, a, b, "required");
    var ra, rb := Find(a, "required"), Find(b, "required");
    if rb.Some? {
      EqualKinds(eq, ra.value, rb.value);
      if rb.value.Arr? {
        StringsEqual(eq, ra.value.items, rb.value.items);
      }
    }
  }

  lemma StringsEqual(eq: Equality, xs: seq<Json>, ys: seq<Json>)
    requires Equal(eq, Arr(xs), Arr(ys))
    ensures |xs| == |ys| && forall i :: 0 <= i < |ys| && ys[i].Str? ==> xs[i] == ys[i]
  {
    ItemsEqual(eq, xs, ys);
    forall i | 0 <= i < |ys| && ys[i].Str? ensures xs[i] == ys[i] {
      assert Equal(eq, xs[i], ys[i]);
    }
  }

  lemma {:induction false} ReachEqual(eq: Equality, a: Json, b: Json, steps: seq<string>)
    requires Equal(eq, a, b) && Reach(a, steps).Some?
    ensures Reach(b, steps).Some? && Equal(eq, Reach(a, steps).value, Reach(b, steps).value)
    decreases |steps|
  {
    EqualKinds(eq, a, b);
    if steps != [] {
      FindEqual(eq, a.fields, b.fields, steps[0]);
      var x, y := Find(a.fields, steps[0]).value, Find(b.fields, steps[0]).value;
      EqualKinds(eq, x, y);
      if x.Obj? {
        ReachEqual(eq, x, y, steps[1..]);
      } else {
        ItemsEqual(eq, x.items, y.items);
        var i := ArrayIndex(steps[1], |x.items|).value;
        ReachEqual(eq, x.items[i], y.items[i], steps[2..]);
      }
    }
  }

  lemma KeywordEqual(eq: Equality, a: seq<Field>, b: seq<Field>)
    requires Equal(eq, Obj(a), Obj(b)) && HasObjectKeyword(a)
    ensures HasObjectKeyword(b)
  {
    var i :| 0 <= i < |a| && IsObjectKeyword(a[i].key);
    FindNone(a, a[i].key);
    FindEqual(eq, a, b, a[i].key);
    var j := Position(b, a[i].key);
    assert b[j].key == a[i].key;
  }

  /** An object schema of the first document, and the one at the same pointer of an equal document. */
  lemma NodeOfEqual(eq: Equality, a: Json, b: Json, p: string)
    requires WellFormed(a) && NonEmptyKeys(a) && WellFormed(b) && NonEmptyKeys(b)
    requires Equal(eq, a, b) && p in Nodes(a, "")
    ensures p in Nodes(b, "") && Nodes(a, "")[p].Obj? && Nodes(b, "")[p].Obj?
    ensures Equal(eq, Nodes(a, "")[p], Nodes(b, "")[p])
  {
    hide Nodes, Reach, WellFormed, NonEmptyKeys, HasObjectKeyword, Norm;
    var steps := NodesFrom(a, "", p);
    ReachEqual(eq, a, b, steps);
    NonEmptyKeysRoute(b, steps);
    NodesAt(b, "", steps);
    KeywordEqual(eq, Reach(a, steps).value.fields, Reach(b, steps).value.fields);
  }

  // ---- Spelling -----------------------------------------------------------------------------------------------

  /** What the gate tells apart although Python's `==` does not: the enum values of a property. */
  ghost predicate EnumSpelled(before: Json, after: Json) {
    before.Obj? && after.Obj? && EnumNorms(before.fields).Some? && EnumNorms(after.fields).Some? ==>
      forall v :: v in EnumNorms(before.fields).value ==> v in EnumNorms(after.fields).value
  }

  /** In one object schema: enum values that keep their text, and `false` not written over a zero. */
  ghost predicate NodeSpelled(before: seq<Field>, after: seq<Field>) {
    && (IsClosed(after) ==> IsClosed(before))
    && PropertiesSpelled(Properties(before), Properties(after))
  }

  ghost predicate PropertiesSpelled(before: seq<Field>, after: seq<Field>) {
    forall name :: Find(before, name).Some? && Find(after, name).Some? ==>
      EnumSpelled(Find(before, name).value, Find(after, name).value)
  }

  /** At every pointer that both documents have. */
  ghost predicate Spelled(before: Json, after: Json) {
    NodesAreDicts(before, "");
    NodesAreDicts(after, "");
    forall p :: p in Nodes(before, "") && p in Nodes(after, "") ==>
      NodeSpelled(Nodes(before, "")[p].fields, Nodes(after, "")[p].fields)
  }

  /** A property schema that Python takes for unchanged passes exactly when its enum values keep their text. */
  lemma PropertySpelledExact(a: Json, b: Json)
    requires Equal(Python, a, b)
    ensures PropertyCompatible(a, b) <==> EnumSpelled(a, b)
  {
    EqualKinds(Python, a, b);
    if a.Obj? {
      CoreEqual(Python, a.fields, b.fields);
      FindEqual(Python, a.fields, b.fields, "default");
      EnumKinds(a.fields, b.fields);
    } else {
      StripEqual(Python, a, b);
    }
  }

  lemma EnumKinds(a: seq<Field>, b: seq<Field>)
    requires Equal(Python, Obj(a), Obj(b))
    ensures EnumNorms(a).Some? <==> EnumNorms(b).Some?
  {
    FindEqual(Python, a, b, "enum");
    if Find(a, "enum").Some? {
      EqualKinds(Python, Find(a, "enum").value, Find(b, "enum").value);
    }
  }

  lemma PropertiesEqual(eq: Equality, a: seq<Field>, b: seq<Field>)
    requires Equal(eq, Obj(a), Obj(b))
    ensures Equal(eq, Obj(Properties(a)), Obj(Properties(b)))
  {
    FindEqual(eq, a, b, "properties");
    if Find(a, "properties").Some? {
      EqualKinds(eq, Find(a, "properties").value, Find(b, "properties").value);
    }
  }

  lemma PropertiesSpelledExact(a: seq<Field>, b: seq<Field>)
    requires Equal(Python, Obj(a), Obj(b))
    ensures PropertiesCompatible(a, b) <==> PropertiesSpelled(a, b)
  {
    hide PropertyCompatible, EnumSpelled;
    forall name | Find(a, name).Some?
      ensures Find(b, name).Some?
      ensures PropertyCompatible(Find(a, name).value, Find(b, name).value) <==>
              EnumSpelled(Find(a, name).value, Find(b, name).value)
    {
      FindEqual(Python, a, b, name);
      PropertySpelledExact(Find(a, name).value, Find(b, name).value);
    }
  }

  lemma NodeSpelledExact(a: seq<Field>, b: seq<Field>)
    requires Equal(Python, Obj(a), Obj(b))
    ensures NodeCompatible(a, b) <==> NodeSpelled(a, b)
  {
    hide PropertiesCompatible, PropertiesSpelled, RequiredValues, IsClosed, Properties;
    RequiredEqual(Python, a, b);
    PropertiesEqual(Python, a, b);
    PropertiesSpelledExact(Properties(a), Properties(b));
  }

  /** At one pointer: equal object schemas need the same spelling, different ones are compared in full. */
  ghost predicate EntryHonest(before: Json, after: Json)
    requires before.Obj? && after.Obj?
  {
    if Equal(Python, before, after) then NodeSpelled(before.fields, after.fields)
    else NodeCompatible(before.fields, after.fields)
  }

  ghost predicate Honest(before: Json, after: Json) {
    NodesAreDicts(before, "");
    NodesAreDicts(after, "");
    forall p :: p in Nodes(before, "") ==>
      p in Nodes(after, "") && EntryHonest(Nodes(before, "")[p], Nodes(after, "")[p])
  }

  lemma EntryHonestExact(before: Json, after: Json)
    requires before.Obj? && after.Obj?
    ensures EntryHonest(before, after) <==> NodeCompatible(before.fields, after.fields)
  {
    hide NodeSpelled, NodeCompatible, Norm;
    if Equal(Python, before, after) {
      assert before == Obj(before.fields) && after == Obj(after.fields);
      NodeSpelledExact(before.fields, after.fields);
    }
  }

  /** For any two documents: the gate is silent exactly when they are honest at every pointer. */
  lemma ShortcutExact(a: Json, b: Json)
    ensures SchemaBreakingChanges(a, b) == [] <==> Honest(a, b)
  {
    hide EntryHonest, NodeCompatible, SchemaBreakingChanges, Nodes;
    NodesAreDicts(a, "");
    NodesAreDicts(b, "");
    forall p | p in Nodes(a, "") && p in Nodes(b, "")
      ensures EntryHonest(Nodes(a, "")[p], Nodes(b, "")[p]) <==>
              NodeCompatible(Nodes(a, "")[p].fields, Nodes(b, "")[p].fields)
    {
      EntryHonestExact(Nodes(a, "")[p], Nodes(b, "")[p]);
    }
    SilentMeansCompatible(a, b);
  }

  /** Equal documents without empty member names are honest exactly when they are spelled alike. */
  lemma HonestIsSpelled(a: Json, b: Json)
    requires WellFormed(a) && NonEmptyKeys(a) && WellFormed(b) && NonEmptyKeys(b)
    requires Equal(Python, a, b)
    ensures Honest(a, b) <==> Spelled(a, b)
  {
    hide WellFormed, NonEmptyKeys, NodeSpelled, NodeCompatible, Norm, Nodes;
    NodesAreDicts(a, "");
    NodesAreDicts(b, "");
    forall p | p in Nodes(a, "")
      ensures p in Nodes(b, "")
      ensures EntryHonest(Nodes(a, "")[p], Nodes(b, "")[p]) <==>
              NodeSpelled(Nodes(a, "")[p].fields, Nodes(b, "")[p].fields)
    {
      NodeOfEqual(Python, a, b, p);
    }
  }

  /** Documents with one canonical text are spelled alike: for them the shortcut skips nothing. */
  lemma ShortcutRedundant(a: Json, b: Json)
    requires WellFormed(a) && NonEmptyKeys(a) && WellFormed(b) && NonEmptyKeys(b)
    requires Equal(Canonical, a, b)
    ensures Equal(Python, a, b) && SchemaBreakingChanges(a, b) == []
  {
    hide WellFormed, NonEmptyKeys, NodeSpelled, Norm, SchemaBreakingChanges, Nodes;
    CanonicalIsFiner(Python, a, b);
    NodesAreDicts(a, "");
    NodesAreDicts(b, "");
    forall p | p in Nodes(a, "") && p in Nodes(b, "")
      ensures NodeSpelled(Nodes(a, "")[p].fields, Nodes(b, "")[p].fields)
    {
      NodeOfEqual(Canonical, a, b, p);
      CanonicalNodeSpelled(Nodes(a, "")[p].fields, Nodes(b, "")[p].fields);
    }
    HonestIsSpelled(a, b);
    ShortcutExact(a, b);
  }

  lemma CanonicalNodeSpelled(a: seq<Field>, b: seq<Field>)
    requires Equal(Canonical, Obj(a), Obj(b))
    ensures NodeSpelled(a, b)
  {
    hide EnumSpelled, Properties, Find;
    FindEqual(Canonical, a, b, "additionalProperties");
    PropertiesEqual(Canonical, a, b);
    forall name | Find(Properties(a), name).Some? && Find(Properties(b), name).Some?
      ensures EnumSpelled(Find(Properties(a), name).value, Find(Properties(b), name).value)
    {
      FindEqual(Canonical, Properties(a), Properties(b), name);
      CanonicalEnumSpelled(Find(Properties(a), name).value, Find(Properties(b), name).value);
    }
  }

  lemma CanonicalEnumSpelled(a: Json, b: Json)
    requires Equal(Canonical, a, b)
    ensures EnumSpelled(a, b)
  {
    if a.Obj? && b.Obj? {
      FindEqual(Canonical, a.fields, b.fields, "enum");
    }
  }

  // ---- Runs of revisions --------------------------------------------------------------------------------------

  /** Where the shortcut fires, it skips nothing. */
  ghost predicate ShortcutHonest(before: Json, after: Json) {
    Equal(Python, before, after) ==> Honest(before, after)
  }

  /** A passing step is one that the gate itself passes exactly when its shortcut is honest, for any two documents. */
  lemma HonestExact(before: Json, after: Json)
    requires StepPasses(before, after)
    ensures SchemaBreakingChanges(before, after) == [] <==> ShortcutHonest(before, after)
  {
    hide Honest, SchemaBreakingChanges;
    ShortcutExact(before, after);
  }

  /** An untouched document is honest, whatever its member names are. */
  lemma UntouchedHonest(v: Json)
    ensures Honest(v, v)
  {
    hide Honest, SchemaBreakingChanges;
    GateReflexive(v);
    ShortcutExact(v, v);
  }

  /** Along a run of passing steps whose shortcuts are honest, the first schema is compatible with the last. */
  lemma {:induction false} RunCompatible(schemas: seq<Json>)
    requires schemas != []
    requires forall i :: 0 <= i < |schemas| - 1 ==>
               StepPasses(schemas[i], schemas[i + 1]) && ShortcutHonest(schemas[i], schemas[i + 1])
    ensures SchemaBreakingChanges(schemas[0], schemas[|schemas| - 1]) == []
  {
    hide StepPasses, ShortcutHonest, SchemaBreakingChanges;
    var n := |schemas| - 1;
    if n == 0 {
      GateReflexive(schemas[0]);
    } else {
      RunCompatible(schemas[..n]);
      assert StepPasses(schemas[n - 1], schemas[n - 1 + 1]);
      HonestExact(schemas[n - 1], schemas[n]);
      GateTransitive(schemas[0], schemas[n - 1], schemas[n]);
    }
  }

  /** Along a run of passing steps every earlier schema is compatible with every later one exactly on honest steps. */
  lemma RunExact(schemas: seq<Json>)
    requires forall i :: 0 <= i < |schemas| - 1 ==> StepPasses(schemas[i], schemas[i + 1])
    ensures (forall i, j :: 0 <= i <= j < |schemas| ==> SchemaBreakingChanges(schemas[i], schemas[j]) == []) <==>
            forall i :: 0 <= i < |schemas| - 1 ==> ShortcutHonest(schemas[i], schemas[i + 1])
  {
    hide StepPasses, ShortcutHonest, SchemaBreakingChanges;
    forall i | 0 <= i < |schemas| - 1
      ensures SchemaBreakingChanges(schemas[i], schemas[i + 1]) == [] <==> ShortcutHonest(schemas[i], schemas[i + 1])
    {
      HonestExact(schemas[i], schemas[i + 1]);
    }
    if forall i :: 0 <= i < |schemas| - 1 ==> ShortcutHonest(schemas[i], schemas[i + 1]) {
      forall i, j | 0 <= i <= j < |schemas| ensures SchemaBreakingChanges(schemas[i], schemas[j]) == [] {
        var part := schemas[i..j + 1];
        assert forall k :: 0 <= k < |part| ==> part[k] == schemas[i + k];
        RunCompatible(part);
      }
    }
  }

  /** Along such a run no instance of the first schema is lost, whatever the revisions between look like. */
  lemma RunPreservesAcceptance(schemas: seq<Json>, reading: Reading, instance: Json)
    requires schemas != []
    requires forall i :: 0 <= i < |schemas| - 1 ==>
               StepPasses(schemas[i], schemas[i + 1]) && ShortcutHonest(schemas[i], schemas[i + 1])
    requires var first, last := schemas[0], schemas[|schemas| - 1];
             InFragment(first, last) && SameBooleans(first, last)
    requires Valid(schemas[0], instance, reading)
    ensures Valid(schemas[|schemas| - 1], instance, reading)
  {
    RunCompatible(schemas);
    AcceptancePreserved(schemas[0], schemas[|schemas| - 1], reading, instance);
  }

  /** A closed root whose one property has an enum. */
  function EnumRoot(name: string, values: seq<Json>): Json {
    Root(name, Obj([Field("enum", Arr(values))]))
  }

  lemma EnumShape(values: seq<Json>)
    ensures ShapeOf(Obj([Field("enum", Arr(values))])) == Dict(None, Some(NormItems(Canonical, values)), VObj(map[]))
  {
    var fields := [Field("enum", Arr(values))];
    OneMember("enum", Arr(values));
    assert fields[1..] == [] && CoreFields(fields) == [];
  }

  lemma EnumsCompatible(before: seq<Json>, after: seq<Json>)
    ensures PropertyCompatible(Obj([Field("enum", Arr(before))]), Obj([Field("enum", Arr(after))])) <==>
            Covered(NormItems(Canonical, before), NormItems(Canonical, after))
  {
    hide ShapeOf;
    EnumShape(before);
    EnumShape(after);
  }

  /** The gate on two enum roots decides by the enum values alone. */
  lemma EnumRootRules(name: string, before: seq<Json>, after: seq<Json>)
    requires !IsObjectKeyword(name) && forall i :: 0 <= i < |before| ==> NoNodes(before[i])
    ensures SchemaBreakingChanges(EnumRoot(name, before), EnumRoot(name, after)) == [] <==>
            Covered(NormItems(Canonical, before), NormItems(Canonical, after))
  {
    hide SchemaBreakingChanges, PropertyCompatible;
    var b, a := Obj([Field("enum", Arr(before))]), Obj([Field("enum", Arr(after))]);
    EnumsCompatible(before, after);
    if PropertyCompatible(b, a) {
      assert NoNodes(b) by {
        assert b.fields[0].value == Arr(before);
      }
      RootRules(name, b, a);
    } else {
      RootRulesFail(name, b, a);
    }
  }

  lemma RootRulesFail(name: string, b: Json, a: Json)
    requires !PropertyCompatible(b, a)
    ensures SchemaBreakingChanges(Root(name, b), Root(name, a)) != []
  {
    hide PropertyCompatible, SchemaBreakingChanges;
    var before, after := Root(name, b), Root(name, a);
    RootFacts(name, b);
    RootFacts(name, a);
    NodesAreDicts(before, "");
    NodesAreDicts(after, "");
    FieldNodesNotBase(before.fields, "");
    FieldNodesNotBase(after.fields, "");
    assert !PointerCompatible("", Nodes(before, ""), Nodes(after, "")) by {
      assert !PropertiesCompatible([Field(name, b)], [Field(name, a)]);
    }
    SilentMeansCompatible(before, after);
  }

  lemma RootPython(name: string, b: Json, a: Json)
    requires Equal(Python, b, a)
    ensures Equal(Python, Root(name, b), Root(name, a))
  {
    OneKeywordNorm(name, b);
    OneKeywordNorm(name, a);
    var mb, ma := Obj([Field(name, b)]), Obj([Field(name, a)]);
    assert Root(name, b).fields[1..] == Root(name, a).fields[1..];
    assert NormFields(Python, Root(name, b).fields) == NormFields(Python, Root(name, a).fields);
  }

  /** Steps that use the shortcut do not compose: [1] to [true] to [true, 2] passes twice, [1] to [true, 2] fails. */
  lemma ShortcutDoesNotCompose(name: string)
    requires !IsObjectKeyword(name)
    ensures var a, b, c := EnumRoot(name, [Int(1)]), EnumRoot(name, [Bool(true)]), EnumRoot(name, [Bool(true), Int(2)]);
            StepPasses(a, b) && StepPasses(b, c) && !StepPasses(a, c)
  {
    hide SchemaBreakingChanges, IsObjectKeyword;
    var xs, ys, zs := [Int(1)], [Bool(true)], [Bool(true), Int(2)];
    EnumRootRules(name, ys, zs);
    EnumRootRules(name, xs, zs);
    EnumListNorms(xs, ys, zs);
    OneKeywordNorm("enum", Arr(xs));
    OneKeywordNorm("enum", Arr(ys));
    RootPython(name, Obj([Field("enum", Arr(xs))]), Obj([Field("enum", Arr(ys))]));
    EnumRootsDiffer(name, xs, zs);
  }

  lemma EnumListNorms(xs: seq<Json>, ys: seq<Json>, zs: seq<Json>)
    requires xs == [Int(1)] && ys == [Bool(true)] && zs == [Bool(true), Int(2)]
    ensures NormItems(Canonical, xs) == [VInt(1)] && NormItems(Canonical, ys) == [VBool(true)]
    ensures NormItems(Canonical, zs) == [VBool(true), VInt(2)]
    ensures NormItems(Python, xs) == NormItems(Python, ys)
    ensures VInt(1) in NormItems(Canonical, xs) && VInt(1) !in NormItems(Canonical, zs)
  {
  }

  lemma RootsDiffer(name: string, b: Json, a: Json)
    requires !Equal(Python, b, a)
    ensures !Equal(Python, Root(name, b), Root(name, a))
  {
    hide Norm;
    OneMemberDiffers(name, b, a);
    NormFieldsAt(Python, Root(name, b).fields, "properties");
    NormFieldsAt(Python, Root(name, a).fields, "properties");
    assert Norm(Python, Root(name, b)) == VObj(NormFields(Python, Root(name, b).fields)) by {
      NormOfDict(Root(name, b).fields);
    }
    assert Norm(Python, Root(name, a)) == VObj(NormFields(Python, Root(name, a).fields)) by {
      NormOfDict(Root(name, a).fields);
    }
  }

  lemma NormOfDict(fields: seq<Field>)
    ensures Norm(Python, Obj(fields)) == VObj(NormFields(Python, fields))
  {
  }

  lemma OneMemberDiffers(name: string, b: Json, a: Json)
    requires !Equal(Python, b, a)
    ensures !Equal(Python, Obj([Field(name, b)]), Obj([Field(name, a)]))
  {
    OneKeywordNorm(name, b);
    OneKeywordNorm(name, a);
    assert map[name := Norm(Python, b)][name] != map[name := Norm(Python, a)][name];
  }

  lemma EnumRootsDiffer(name: string, xs: seq<Json>, zs: seq<Json>)
    requires |xs| != |zs|
    ensures !Equal(Python, EnumRoot(name, xs), EnumRoot(name, zs))
  {
    assert |NormItems(Python, xs)| != |NormItems(Python, zs)|;
    OneMemberDiffers("enum", Arr(xs), Arr(zs));
    RootsDiffer(name, Obj([Field("enum", Arr(xs))]), Obj([Field("enum", Arr(zs))]));
  }
}
