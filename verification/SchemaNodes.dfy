/**
 The index of object schemas of the publication check: every dict that carries an object keyword, keyed by the
 pointer of its location, and the proof that the index is a faithful copy of the document.
 */
module SchemaNodes {
  import opened Decimals
  import opened Json
  import opened Options
  import opened JsonPointer
  import Separated

  predicate IsObjectKeyword(key: string) {
    key == "additionalProperties" || key == "patternProperties" || key == "properties" || key == "required"
  }

  predicate HasObjectKeyword(fields: seq<Field>) {
    exists i :: 0 <= i < |fields| && IsObjectKeyword(fields[i].key)
  }

  predicate IsContainer(v: Json) {
    v.Obj? || v.Arr?
  }

  /** What `_object_schema_nodes(schema, path)` returns. In `a + b` the entries of `b` win, as in `a.update(b)`. */
  function Nodes(schema: Json, path: string): map<string, Json>
    decreases schema, 1
  {
    if schema.Obj? then Own(schema, path) + FieldNodes(schema.fields, path) else map[]
  }

  function Own(schema: Json, path: string): map<string, Json>
    requires schema.Obj?
  {
    if HasObjectKeyword(schema.fields) then map[path := schema] else map[]
  }

  function FieldNodes(fields: seq<Field>, path: string): map<string, Json>
    decreases fields, 0
  {
    if fields == [] then map[]
    else ValueNodes(fields[0].value, Child(path, fields[0].key)) + FieldNodes(fields[1..], path)
  }

  function ValueNodes(value: Json, path: string): map<string, Json>
    decreases value, 2
  {
    match value
    case Obj(_) => Nodes(value, path)
    case Arr(items) => ItemNodes(items, 0, path)
    case _ => map[]
  }

  function ItemNodes(items: seq<Json>, start: nat, path: string): map<string, Json>
    decreases items, 0
  {
    if items == [] then map[]
    else Nodes(items[0], Child(path, Decimal(start))) + ItemNodes(items[1..], start + 1, path)
  }

  lemma UpdateAssociative(a: map<string, Json>, b: map<string, Json>, c: map<string, Json>)
    ensures a + (b + c) == (a + b) + c
  {
  }

  /** One pass of the loop over the members. */
  lemma MemberPass(nodes: map<string, Json>, fields: seq<Field>, k: nat, path: string)
    requires k < |fields|
    ensures nodes + FieldNodes(fields[k..], path)
            == (nodes + ValueNodes(fields[k].value, Child(path, fields[k].key))) + FieldNodes(fields[k + 1..], path)
  {
    assert fields[k..][0] == fields[k] && fields[k..][1..] == fields[k + 1..];
    assert FieldNodes(fields[k..], path)
           == ValueNodes(fields[k].value, Child(path, fields[k].key)) + FieldNodes(fields[k + 1..], path);
    var here := ValueNodes(fields[k].value, Child(path, fields[k].key));
    UpdateAssociative(nodes, here, FieldNodes(fields[k + 1..], path));
  }

  /** `_object_schema_nodes`: the recursive walk, with its loop over the members of a dict. */
  method ObjectSchemaNodes(schema: Json, path: string) returns (nodes: map<string, Json>)
    ensures nodes == Nodes(schema, path)
    decreases schema, 1
  {
    hide HasObjectKeyword, IsObjectKeyword, JsonPath;
    nodes := map[];
    if schema.Obj? {
      if HasObjectKeyword(schema.fields) {
        nodes := nodes[path := schema];
      }
      assert nodes == Own(schema, path);
      var k := 0;
      assert schema.fields[0..] == schema.fields;
      while k < |schema.fields|
        invariant k <= |schema.fields|
        invariant nodes + FieldNodes(schema.fields[k..], path) == Nodes(schema, path)
      {
        var key, value := schema.fields[k].key, schema.fields[k].value;
        MemberPass(nodes, schema.fields, k, path);
        var below := map[];
        if value.Obj? {
          below := ObjectSchemaNodes(value, JsonPath(path, [key]));
        } else if value.Arr? {
          below := ListSchemaNodes(value.items, path, key);
        }
        nodes := nodes + below;
        k := k + 1;
      }
      NoMembers(path);
      assert nodes + map[] == nodes;
    }
  }

  lemma NoMembers(path: string)
    ensures FieldNodes([], path) == map[]
  {
  }

  /** Its inner loop, over the items of a list member. */
  method ListSchemaNodes(items: seq<Json>, path: string, key: string) returns (nodes: map<string, Json>)
    ensures nodes == ItemNodes(items, 0, Child(path, key))
    decreases items, 0
  {
    nodes := map[];
    var base := Child(path, key);
    var index := 0;
    while index < |items|
      invariant index <= |items|
      invariant nodes + ItemNodes(items[index..], index, base) == ItemNodes(items, 0, base)
    {
      PathOfTwo(path, key, Decimal(index));
      assert items[index..][1..] == items[index + 1..];
      var below := ObjectSchemaNodes(items[index], JsonPath(path, [key, Decimal(index)]));
      UpdateAssociative(nodes, below, ItemNodes(items[index + 1..], index + 1, base));
      nodes := nodes + below;
      index := index + 1;
    }
    assert nodes + map[] == nodes;
  }

  // ---- Locations ----------------------------------------------------------------------------------------------

  /** The dict that the walk of `_object_schema_nodes` meets after the steps: dict members and items of their lists. */
  function Reach(v: Json, steps: seq<string>): (r: Option<Json>)
    ensures r.Some? ==> r.value.Obj?
    decreases |steps|
  {
    if !v.Obj? then None
    else if steps == [] then Some(v)
    else match Find(v.fields, steps[0])
      case Some(Obj(fields)) => Reach(Obj(fields), steps[1..])
      case Some(Arr(items)) =>
        if |steps| == 1 then None else
          var position := ArrayIndex(steps[1], |items|);
          if position.None? then None else Reach(items[position.value], steps[2..])
      case _ => None
  }

  lemma {:induction false} ReachIsLocate(v: Json, steps: seq<string>)
    requires Reach(v, steps).Some?
    ensures Locate(v, steps) == Reach(v, steps)
    decreases |steps|
  {
    if steps != [] {
      var next := Find(v.fields, steps[0]).value;
      if next.Obj? {
        ReachIsLocate(next, steps[1..]);
      } else {
        var item := next.items[ArrayIndex(steps[1], |next.items|).value];
        ReachIsLocate(item, steps[2..]);
        assert steps[1..][1..] == steps[2..];
        assert Enter(next, steps[1..][0]) == Some(item);
        assert Locate(next, steps[1..]) == Locate(item, steps[2..]);
      }
    }
  }

  /** Member names are distinct, and an empty name never leads to more schemas. */
  ghost predicate CleanDict(fields: seq<Field>) {
    DistinctKeys(fields) && forall i :: 0 <= i < |fields| && fields[i].key == "" ==> !IsContainer(fields[i].value)
  }

  /** Every dict on the way, the last one included, is clean. */
  ghost predicate CleanRoute(v: Json, steps: seq<string>)
    decreases |steps|
  {
    v.Obj? ==>
      && CleanDict(v.fields)
      && (steps != [] ==> steps[0] != "")
      && (steps != [] ==>
            match Find(v.fields, steps[0])
            case Some(Obj(fields)) => CleanRoute(Obj(fields), steps[1..])
            case Some(Arr(items)) =>
              |steps| >= 2 && ArrayIndex(steps[1], |items|).Some? ==>
                CleanRoute(items[ArrayIndex(steps[1], |items|).value], steps[2..])
            case _ => true)
  }

  /** `p` is `base` or a pointer below it. */
  predicate Under(p: string, base: string) {
    p == base || base + "/" <= p
  }

  lemma UnderChild(p: string, base: string, name: string)
    requires base != "" && Under(p, Child(base, name))
    ensures Under(p, base)
    ensures name != "" ==> p != base
  {
    ChildText(base, name);
    if name != "" {
      assert base + "/" <= base + "/" + Escape(name) <= p;
    }
  }

  lemma ChildNotBase(p: string, base: string, name: string)
    requires name != "" && Under(p, Child(base, name))
    ensures p != base
  {
    ChildText(base, name);
    if base != "" {
      UnderChild(p, base, name);
    }
  }

  lemma FirstSegment(segment: string, tail: string)
    requires '/' !in segment
    requires tail == "" || tail[0] == '/'
    ensures Split(segment + tail)[0] == segment
  {
    if tail == "" {
      assert segment + tail == segment;
      Separated.SplitWhole(segment, '/');
    } else {
      assert segment + tail == segment + "/" + tail[1..];
      Separated.SplitSegment(segment, tail[1..], '/');
    }
  }

  /** What follows the pointer of the parent, up to the name of the child. */
  lemma UnderTail(p: string, base: string, name: string) returns (tail: string)
    requires name != "" && Under(p, Child(base, name))
    ensures tail == "" || tail[0] == '/'
    ensures p == (if base == "" then "" else base + "/") + (Escape(name) + tail)
  {
    ChildText(base, name);
    var c := Child(base, name);
    tail := p[|c|..];
    assert p == c + tail;
    var lead := if base == "" then "" else base + "/";
    assert c == lead + Escape(name);
    assert p == lead + (Escape(name) + tail);
  }

  /** Subtrees of differently named children share no pointer. */
  lemma SiblingsDisjoint(p: string, base: string, a: string, b: string)
    requires a != "" && b != "" && Under(p, Child(base, a)) && Under(p, Child(base, b))
    ensures a == b
  {
    var ta := UnderTail(p, base, a);
    var tb := UnderTail(p, base, b);
    var lead := if base == "" then "" else base + "/";
    assert Escape(a) + ta == p[|lead|..] == Escape(b) + tb;
    EscapeShape(a);
    EscapeShape(b);
    FirstSegment(Escape(a), ta);
    FirstSegment(Escape(b), tb);
    EscapeInjective(a, b);
  }

  lemma {:induction false} NodesUnder(v: Json, path: string, p: string)
    requires path != "" && p in Nodes(v, path)
    ensures Under(p, path)
    decreases v, 1
  {
    if p in FieldNodes(v.fields, path) {
      FieldNodesUnder(v.fields, path, p);
    }
  }

  lemma {:induction false} FieldNodesUnder(fields: seq<Field>, path: string, p: string)
    requires path != "" && p in FieldNodes(fields, path)
    ensures Under(p, path)
    decreases fields, 0
  {
    var base := Child(path, fields[0].key);
    if p in FieldNodes(fields[1..], path) {
      FieldNodesUnder(fields[1..], path, p);
    } else {
      ChildText(path, fields[0].key);
      ValueNodesUnder(fields[0].value, base, p);
      UnderChild(p, path, fields[0].key);
    }
  }

  lemma {:induction false} ValueNodesUnder(value: Json, path: string, p: string)
    requires path != "" && p in ValueNodes(value, path)
    ensures Under(p, path)
    decreases value, 2
  {
    if value.Obj? {
      NodesUnder(value, path, p);
    } else {
      ItemNodesUnder(value.items, 0, path, p);
    }
  }

  lemma {:induction false} ItemNodesUnder(items: seq<Json>, start: nat, path: string, p: string)
    requires path != "" && p in ItemNodes(items, start, path)
    ensures Under(p, path)
    decreases items, 0
  {
    var base := Child(path, Decimal(start));
    if p in ItemNodes(items[1..], start + 1, path) {
      ItemNodesUnder(items[1..], start + 1, path, p);
    } else {
      ChildText(path, Decimal(start));
      NodesUnder(items[0], base, p);
      UnderChild(p, path, Decimal(start));
    }
  }

  /** The two indexes agree at `p`. */
  ghost predicate SameAt(a: map<string, Json>, b: map<string, Json>, p: string) {
    (p in a <==> p in b) && (p in a ==> a[p] == b[p])
  }

  /** Below the pointer of one member, the index of a clean dict is the index of that member. */
  lemma {:induction false} FieldNodesLookup(fields: seq<Field>, path: string, key: string, p: string)
    requires CleanDict(fields) && key != "" && Under(p, Child(path, key))
    ensures Find(fields, key).None? ==> p !in FieldNodes(fields, path)
    ensures Find(fields, key).Some? ==>
              SameAt(FieldNodes(fields, path), ValueNodes(Find(fields, key).value, Child(path, key)), p)
  {
    if fields != [] {
      var head := fields[0];
      FieldNodesLookup(fields[1..], path, key, p);
      if head.key == key {
        assert forall i :: 0 <= i < |fields[1..]| ==> fields[1..][i] == fields[i + 1];
        assert Find(fields[1..], key).None?;
      } else if p in ValueNodes(head.value, Child(path, head.key)) {
        assert IsContainer(head.value) && head.key != "";
        ChildText(path, head.key);
        ValueNodesUnder(head.value, Child(path, head.key), p);
        SiblingsDisjoint(p, path, key, head.key);
      }
    }
  }

  lemma {:induction false} ItemNodesLookup(items: seq<Json>, start: nat, path: string, index: nat, p: string)
    requires start <= index && Under(p, Child(path, Decimal(index)))
    ensures index - start >= |items| ==> p !in ItemNodes(items, start, path)
    ensures index - start < |items| ==>
              SameAt(ItemNodes(items, start, path), Nodes(items[index - start], Child(path, Decimal(index))), p)
  {
    hide Child, Decimal, Under;
    if items != [] {
      if index > start {
        ItemNodesLookup(items[1..], start + 1, path, index, p);
        if p in Nodes(items[0], Child(path, Decimal(start))) {
          ChildText(path, Decimal(start));
          NodesUnder(items[0], Child(path, Decimal(start)), p);
          SiblingsDisjoint(p, path, Decimal(index), Decimal(start));
          DecimalInjective(index, start);
        }
      } else {
        ItemNodesAbove(items[1..], start + 1, path, index, p);
      }
    }
  }

  lemma {:induction false} ItemNodesAbove(items: seq<Json>, start: nat, path: string, index: nat, p: string)
    requires index < start && Under(p, Child(path, Decimal(index)))
    ensures p !in ItemNodes(items, start, path)
  {
    if items != [] {
      ItemNodesAbove(items[1..], start + 1, path, index, p);
      if p in Nodes(items[0], Child(path, Decimal(start))) {
        ChildText(path, Decimal(start));
        NodesUnder(items[0], Child(path, Decimal(start)), p);
        SiblingsDisjoint(p, path, Decimal(index), Decimal(start));
        DecimalInjective(index, start);
      }
    }
  }

  /** A child of a clean dict never takes the pointer of the dict itself. */
  lemma {:induction false} FieldNodesNotBase(fields: seq<Field>, path: string)
    requires CleanDict(fields)
    ensures path !in FieldNodes(fields, path)
  {
    if fields != [] {
      FieldNodesNotBase(fields[1..], path);
      var base := Child(path, fields[0].key);
      if path in ValueNodes(fields[0].value, base) {
        ChildText(path, fields[0].key);
        ValueNodesUnder(fields[0].value, base, path);
        ChildNotBase(path, path, fields[0].key);
      }
    }
  }

  lemma {:induction false} PointerUnder(base: string, steps: seq<string>)
    requires base != "" && AllNonEmpty(steps)
    ensures Under(PointerFrom(base, steps), base)
    decreases steps
  {
    if steps != [] {
      ChildText(base, steps[0]);
      PointerUnder(Child(base, steps[0]), steps[1..]);
      UnderChild(PointerFrom(base, steps), base, steps[0]);
    }
  }

  /** Steps that reach a dict along a clean route have non-empty names. */
  lemma {:induction false} CleanStepsNonEmpty(v: Json, steps: seq<string>)
    requires Reach(v, steps).Some? && CleanRoute(v, steps)
    ensures AllNonEmpty(steps)
    decreases |steps|
  {
    if steps != [] {
      var next := Find(v.fields, steps[0]).value;
      if next.Obj? {
        CleanStepsNonEmpty(next, steps[1..]);
        assert forall i :: 1 <= i < |steps| ==> steps[i] == steps[1..][i - 1];
      } else {
        CleanStepsNonEmpty(next.items[ArrayIndex(steps[1], |next.items|).value], steps[2..]);
        assert forall i :: 2 <= i < |steps| ==> steps[i] == steps[2..][i - 2];
      }
    }
  }

  lemma StepIntoDict(v: Json, path: string, key: string, p: string)
    requires v.Obj? && CleanDict(v.fields) && key != "" && Under(p, Child(path, key))
    requires Find(v.fields, key).Some? && Find(v.fields, key).value.Obj?
    ensures SameAt(Nodes(v, path), Nodes(Find(v.fields, key).value, Child(path, key)), p)
  {
    ChildNotBase(p, path, key);
    FieldNodesLookup(v.fields, path, key, p);
  }

  lemma StepIntoItem(v: Json, path: string, key: string, index: nat, p: string)
    requires v.Obj? && CleanDict(v.fields) && key != ""
    requires Find(v.fields, key).Some? && Find(v.fields, key).value.Arr?
    requires index < |Find(v.fields, key).value.items|
    requires Under(p, Child(Child(path, key), Decimal(index)))
    ensures SameAt(Nodes(v, path),
                   Nodes(Find(v.fields, key).value.items[index], Child(Child(path, key), Decimal(index))), p)
  {
    hide Child, Decimal, Under, Find, CleanDict;
    ChildText(path, key);
    UnderChild(p, Child(path, key), Decimal(index));
    ChildNotBase(p, path, key);
    FieldNodesLookup(v.fields, path, key, p);
    ItemNodesLookup(Find(v.fields, key).value.items, 0, Child(path, key), index, p);
  }

  /** The index holds, at the pointer of the location, exactly the dict that is there. */
  ghost predicate IndexedAt(v: Json, path: string, steps: seq<string>)
    requires Reach(v, steps).Some?
  {
    var p := PointerFrom(path, steps);
    var w := Reach(v, steps).value;
    (p in Nodes(v, path) <==> HasObjectKeyword(w.fields)) && (p in Nodes(v, path) ==> Nodes(v, path)[p] == w)
  }

  lemma {:induction false} NodesAt(v: Json, path: string, steps: seq<string>)
    requires Reach(v, steps).Some? && CleanRoute(v, steps)
    ensures IndexedAt(v, path, steps)
    decreases |steps|
  {
    if steps == [] {
      FieldNodesNotBase(v.fields, path);
    } else if Find(v.fields, steps[0]).value.Obj? {
      NodesAtMember(v, path, steps);
    } else {
      NodesAtItem(v, path, steps);
    }
  }

  lemma {:induction false} NodesAtMember(v: Json, path: string, steps: seq<string>)
    requires Reach(v, steps).Some? && CleanRoute(v, steps)
    requires steps != [] && Find(v.fields, steps[0]).value.Obj?
    ensures IndexedAt(v, path, steps)
    decreases |steps|, 0
  {
    var key, rest := steps[0], steps[1..];
    CleanStepsNonEmpty(v, steps);
    ChildText(path, key);
    PointerUnder(Child(path, key), rest);
    NodesAt(Find(v.fields, key).value, Child(path, key), rest);
    StepIntoDict(v, path, key, PointerFrom(path, steps));
  }

  lemma {:induction false} NodesAtItem(v: Json, path: string, steps: seq<string>)
    requires Reach(v, steps).Some? && CleanRoute(v, steps)
    requires steps != [] && Find(v.fields, steps[0]).value.Arr?
    ensures IndexedAt(v, path, steps)
    decreases |steps|, 0
  {
    var key, rest := steps[0], steps[2..];
    var items := Find(v.fields, key).value.items;
    var index := ArrayIndex(steps[1], |items|).value;
    ArrayIndexCanonical(steps[1], |items|);
    CleanStepsNonEmpty(v, steps);
    var base := Child(Child(path, key), Decimal(index));
    ChildText(path, key);
    ChildText(Child(path, key), Decimal(index));
    PointerUnder(base, rest);
    assert steps[1..][1..] == rest;
    assert PointerFrom(path, steps) == PointerFrom(base, rest);
    NodesAt(items[index], base, rest);
    StepIntoItem(v, path, key, index, PointerFrom(path, steps));
  }

  lemma {:induction false} DecimalOfValue(token: string)
    requires IsArrayIndexToken(token)
    ensures Decimal(DecimalValue(token)) == token
    ensures |token| > 1 ==> DecimalValue(token) >= 10
    decreases |token|
  {
    hide Decimal;
    var init, last := token[..|token| - 1], token[|token| - 1];
    if |token| == 1 {
      OneDigit(token);
    } else {
      DecimalOfValue(init);
      if |init| == 1 {
        OneDigit(init);
      }
      LastDigit(DecimalValue(init), last);
      assert DecimalValue(token) == DecimalValue(init) * 10 + DigitValue(last);
      assert token == init + [last];
    }
  }

  lemma OneDigit(token: string)
    requires |token| == 1 && IsDigit(token[0])
    ensures DecimalValue(token) == DigitValue(token[0]) && Decimal(DigitValue(token[0])) == token
  {
    assert token[..0] == "" && DecimalValue("") == 0;
    assert DigitChar(DigitValue(token[0])) == token[0];
  }

  /** One more digit behind a positive number. */
  lemma LastDigit(n: nat, c: char)
    requires n > 0 && IsDigit(c)
    ensures Decimal(n * 10 + DigitValue(c)) == Decimal(n) + [c]
  {
    var m := n * 10 + DigitValue(c);
    assert m / 10 == n && m % 10 == DigitValue(c);
    assert DigitChar(DigitValue(c)) == c;
  }

  /** An index token is the decimal text of the position that it names. */
  lemma ArrayIndexCanonical(token: string, length: nat)
    requires ArrayIndex(token, length).Some?
    ensures token == Decimal(ArrayIndex(token, length).value)
  {
    DecimalOfValue(token);
  }

  // ---- The index is complete and injective --------------------------------------------------------------------

  lemma {:induction false} NonEmptyKeysRoute(v: Json, steps: seq<string>)
    requires WellFormed(v) && NonEmptyKeys(v) && Reach(v, steps).Some?
    ensures CleanRoute(v, steps)
    decreases |steps|
  {
    if steps != [] {
      var next := Find(v.fields, steps[0]).value;
      if next.Obj? {
        NonEmptyKeysRoute(next, steps[1..]);
      } else {
        NonEmptyKeysRoute(next.items[ArrayIndex(steps[1], |next.items|).value], steps[2..]);
      }
    }
  }

  lemma {:induction false} FieldNodesSource(fields: seq<Field>, path: string, p: string) returns (i: nat)
    requires p in FieldNodes(fields, path)
    ensures i < |fields| && IsContainer(fields[i].value)
    ensures p in ValueNodes(fields[i].value, Child(path, fields[i].key))
    ensures FieldNodes(fields, path)[p] == ValueNodes(fields[i].value, Child(path, fields[i].key))[p]
  {
    if p in FieldNodes(fields[1..], path) {
      i := FieldNodesSource(fields[1..], path, p);
      i := i + 1;
    } else {
      i := 0;
    }
  }

  lemma {:induction false} ItemNodesSource(items: seq<Json>, start: nat, path: string, p: string) returns (i: nat)
    requires p in ItemNodes(items, start, path)
    ensures i < |items| && p in Nodes(items[i], Child(path, Decimal(start + i)))
    ensures ItemNodes(items, start, path)[p] == Nodes(items[i], Child(path, Decimal(start + i)))[p]
  {
    hide Decimal, Child, HasObjectKeyword;
    if p in ItemNodes(items[1..], start + 1, path) {
      i := ItemNodesSource(items[1..], start + 1, path, p);
      i := i + 1;
    } else {
      i := 0;
    }
  }

  lemma NoSteps(v: Json, path: string)
    requires v.Obj?
    ensures Reach(v, []) == Some(v) && PointerFrom(path, []) == path
  {
  }

  /** Every entry of the index comes from a location of the document. */
  lemma {:induction false} NodesFrom(v: Json, path: string, p: string) returns (steps: seq<string>)
    requires WellFormed(v) && NonEmptyKeys(v) && p in Nodes(v, path)
    ensures AllNonEmpty(steps) && PointerFrom(path, steps) == p
    ensures Reach(v, steps) == Some(Nodes(v, path)[p])
    ensures HasObjectKeyword(Nodes(v, path)[p].fields)
    decreases v
  {
    hide HasObjectKeyword, IsObjectKeyword, ItemNodes, Child, Decimal, Find, Reach, PointerFrom;
    NoSteps(v, path);
    if p !in FieldNodes(v.fields, path) {
      return [];
    }
    var i := FieldNodesSource(v.fields, path, p);
    var key, value := v.fields[i].key, v.fields[i].value;
    FindAt(v.fields, i);
    if value.Obj? {
      var rest := NodesFrom(value, Child(path, key), p);
      steps := [key] + rest;
      ReachThroughMember(v, path, key, rest);
    } else {
      var j := ItemNodesSource(value.items, 0, Child(path, key), p);
      var rest := NodesFrom(value.items[j], Child(Child(path, key), Decimal(j)), p);
      steps := [key, Decimal(j)] + rest;
      ReachThroughItem(v, key, j, rest);
      PointerOfItem(path, key, j, rest);
    }
  }

  lemma ReachThroughMember(v: Json, path: string, key: string, rest: seq<string>)
    requires v.Obj? && Find(v.fields, key).Some? && Find(v.fields, key).value.Obj?
    ensures Reach(v, [key] + rest) == Reach(Find(v.fields, key).value, rest)
    ensures PointerFrom(path, [key] + rest) == PointerFrom(Child(path, key), rest)
  {
    assert ([key] + rest)[1..] == rest;
  }

  lemma ReachThroughItem(v: Json, key: string, j: nat, rest: seq<string>)
    requires v.Obj? && Find(v.fields, key).Some? && Find(v.fields, key).value.Arr?
    requires j < |Find(v.fields, key).value.items|
    ensures Reach(v, [key, Decimal(j)] + rest) == Reach(Find(v.fields, key).value.items[j], rest)
  {
    var steps := [key, Decimal(j)] + rest;
    ArrayIndexOfDecimal(j, |Find(v.fields, key).value.items|);
    assert steps[0] == key && steps[1] == Decimal(j) && steps[2..] == rest;
  }

  lemma PointerOfItem(path: string, key: string, j: nat, rest: seq<string>)
    ensures PointerFrom(path, [key, Decimal(j)] + rest) == PointerFrom(Child(Child(path, key), Decimal(j)), rest)
  {
    var steps := [key, Decimal(j)] + rest;
    assert steps[1..] == [Decimal(j)] + rest && steps[1..][1..] == rest;
  }

  /** The location of a dict that carries an object keyword. */
  ghost predicate IsNodeLocation(v: Json, steps: seq<string>) {
    Reach(v, steps).Some? && HasObjectKeyword(Reach(v, steps).value.fields)
  }

  /**
   In a document with non-empty names the index is in bijection with the object schemas: every schema has its own
   pointer, the entry at that pointer is that schema, and there are no other entries.
   */
  lemma IndexBijection(v: Json)
    requires WellFormed(v) && NonEmptyKeys(v)
    ensures forall steps :: IsNodeLocation(v, steps) ==>
              PointerOf(steps) in Nodes(v, "") && Nodes(v, "")[PointerOf(steps)] == Reach(v, steps).value
    ensures forall a, b :: IsNodeLocation(v, a) && IsNodeLocation(v, b) && PointerOf(a) == PointerOf(b) ==> a == b
    ensures forall p :: p in Nodes(v, "") ==> exists steps :: IsNodeLocation(v, steps) && PointerOf(steps) == p
  {
    forall steps | IsNodeLocation(v, steps)
      ensures PointerOf(steps) in Nodes(v, "") && Nodes(v, "")[PointerOf(steps)] == Reach(v, steps).value
    {
      NonEmptyKeysRoute(v, steps);
      NodesAt(v, "", steps);
    }
    forall a, b | IsNodeLocation(v, a) && IsNodeLocation(v, b) && PointerOf(a) == PointerOf(b) ensures a == b {
      NonEmptyKeysRoute(v, a);
      NonEmptyKeysRoute(v, b);
      CleanStepsNonEmpty(v, a);
      CleanStepsNonEmpty(v, b);
      PointerInjective(a, b);
    }
    forall p | p in Nodes(v, "") ensures exists steps :: IsNodeLocation(v, steps) && PointerOf(steps) == p {
      var steps := NodesFrom(v, "", p);
      assert IsNodeLocation(v, steps) && PointerOf(steps) == p;
    }
  }

  /** Every non-root pointer of the index, written after `#/`, resolves in the same document, to the indexed schema. */
  method ResolveIndexedPointer(v: Json, p: string) returns (found: bool, target: Json)
    requires WellFormed(v) && NonEmptyKeys(v)
    requires p in Nodes(v, "") && p != ""
    ensures found && target == Nodes(v, "")[p]
  {
    ghost var steps := NodesFrom(v, "", p);
    PointerDecodes(steps);
    ReachIsLocate(v, steps);
    assert ("#/" + p)[2..] == p;
    found, target := ResolveJsonPointer(v, "#/" + p);
  }
}
