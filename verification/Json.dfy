/**
 JSON documents as Python's decoder builds them: an object is a dict, which keeps its members in insertion order.
 Integers and floats are separate Python types; a float here is a finite one, as RFC 8259 has no NaN or infinity.
 */
module Json {
  import opened Options

  datatype Json =
    | Null
    | Bool(b: bool)
    | Int(n: int)
    | Float(r: real)
    | Str(s: string)
    | Arr(items: seq<Json>)
    | Obj(fields: seq<Field>)

  datatype Field = Field(key: string, value: Json)

  /** The position of the first member named `key`, or the number of members. */
  function Position(fields: seq<Field>, key: string): (i: nat)
    ensures i <= |fields|
    ensures i < |fields| ==> fields[i].key == key
  {
    if fields == [] || fields[0].key == key then 0 else 1 + Position(fields[1..], key)
  }

  /** `fields.get(key)`, with None for the absent key. */
  function Find(fields: seq<Field>, key: string): (r: Option<Json>)
    ensures r.Some? ==> r.value < Obj(fields)
  {
    var i := Position(fields, key);
    if i < |fields| then Some(fields[i].value) else None
  }

  lemma {:induction false} FindNone(fields: seq<Field>, key: string)
    ensures Find(fields, key).None? <==> forall i :: 0 <= i < |fields| ==> fields[i].key != key
  {
    if fields != [] && fields[0].key != key {
      FindNone(fields[1..], key);
      assert forall i :: 1 <= i < |fields| ==> fields[i] == fields[1..][i - 1];
      if Find(fields, key).None? {
        forall i | 0 <= i < |fields| ensures fields[i].key != key {
          assert i > 0 ==> fields[i] == fields[1..][i - 1];
        }
      }
    }
  }

  /** Looking a name up in a non-empty dict. */
  lemma FindStep(fields: seq<Field>, key: string)
    requires fields != []
    ensures Find(fields, key) == if fields[0].key == key then Some(fields[0].value) else Find(fields[1..], key)
  {
  }

  /** The member names of a dict. */
  function Keys(fields: seq<Field>): (names: set<string>)
    ensures forall name :: name in names <==> Find(fields, name).Some?
  {
    if fields == [] then {} else
      assert forall key :: Find(fields, key) == (if fields[0].key == key then Some(fields[0].value)
                                                 else Find(fields[1..], key));
      {fields[0].key} + Keys(fields[1..])
  }

  ghost predicate DistinctKeys(fields: seq<Field>) {
    forall i, j :: 0 <= i < j < |fields| ==> fields[i].key != fields[j].key
  }

  lemma {:induction false} FindAt(fields: seq<Field>, i: nat)
    requires i < |fields| && DistinctKeys(fields)
    ensures Find(fields, fields[i].key) == Some(fields[i].value)
  {
    if i > 0 {
      FindAt(fields[1..], i - 1);
    }
  }

  /** No dict in the document has two members with one name. Every decoded document is of this kind. */
  ghost predicate WellFormed(v: Json) {
    match v
    case Obj(fields) => DistinctKeys(fields) && forall i :: 0 <= i < |fields| ==> WellFormed(fields[i].value)
    case Arr(items) => forall i :: 0 <= i < |items| ==> WellFormed(items[i])
    case _ => true
  }

  /** No dict in the document has a member with the empty name. */
  ghost predicate NonEmptyKeys(v: Json) {
    match v
    case Obj(fields) => forall i :: 0 <= i < |fields| ==> fields[i].key != "" && NonEmptyKeys(fields[i].value)
    case Arr(items) => forall i :: 0 <= i < |items| ==> NonEmptyKeys(items[i])
    case _ => true
  }

  /**
   The three equalities that matter here, from fine to coarse.
   `Canonical`: one canonical JSON text (sorted keys), so 1, 1.0 and true all differ.
   `Schema`: JSON Schema instance equality (Core 2020-12 section 4.2.2), so 1 and 1.0 agree and true differs.
   `Python`: the `==` operator, under which 1, 1.0 and True agree.
   */
  datatype Equality = Canonical | Schema | Python

  datatype Value =
    | VNull
    | VBool(b: bool)
    | VInt(n: int)
    | VNumber(r: real)
    | VStr(s: string)
    | VArr(items: seq<Value>)
    | VObj(members: map<string, Value>)

  /** The normal form under an equality: two documents are equal exactly when their normal forms are. */
  function Norm(eq: Equality, v: Json): Value
    decreases v, 1
  {
    match v
    case Null => VNull
    case Bool(b) => if eq.Python? then VNumber(if b then 1.0 else 0.0) else VBool(b)
    case Int(n) => if eq.Canonical? then VInt(n) else VNumber(n as real)
    case Float(r) => VNumber(r)
    case Str(s) => VStr(s)
    case Arr(items) => VArr(NormItems(eq, items))
    case Obj(fields) => VObj(NormFields(eq, fields))
  }

  function NormItems(eq: Equality, items: seq<Json>): (r: seq<Value>)
    ensures |r| == |items|
    ensures forall i :: 0 <= i < |items| ==> r[i] == Norm(eq, items[i])
    decreases items, 0
  {
    if items == [] then [] else [Norm(eq, items[0])] + NormItems(eq, items[1..])
  }

  function NormFields(eq: Equality, fields: seq<Field>): (r: map<string, Value>)
    ensures r.Keys == Keys(fields)
    decreases fields, 0
  {
    if fields == [] then map[] else
      var rest := NormFields(eq, fields[1..]);
      rest[fields[0].key := Norm(eq, fields[0].value)]
  }

  predicate Equal(eq: Equality, a: Json, b: Json) {
    Norm(eq, a) == Norm(eq, b)
  }

  lemma {:induction false} NormFieldsAt(eq: Equality, fields: seq<Field>, key: string)
    ensures key in NormFields(eq, fields) <==> Find(fields, key).Some?
    ensures Find(fields, key).Some? ==> NormFields(eq, fields)[key] == Norm(eq, Find(fields, key).value)
  {
    if fields != [] {
      FindStep(fields, key);
      hide Norm, Find;
      if fields[0].key != key {
        NormFieldsAt(eq, fields[1..], key);
      }
      NormFieldsStep(eq, fields);
    } else {
      FindNone(fields, key);
    }
  }

  lemma NormFieldsStep(eq: Equality, fields: seq<Field>)
    requires fields != []
    ensures NormFields(eq, fields) == NormFields(eq, fields[1..])[fields[0].key := Norm(eq, fields[0].value)]
  {
  }

  /** Values with one canonical text are equal in every sense. */
  lemma {:induction false} CanonicalIsFiner(eq: Equality, a: Json, b: Json)
    requires Equal(Canonical, a, b)
    ensures Equal(eq, a, b)
    decreases a
  {
    hide Find;
    match (a, b) {
      case (Arr(xs), Arr(ys)) =>
        assert NormItems(Canonical, xs) == NormItems(Canonical, ys);
        assert |xs| == |NormItems(Canonical, xs)| == |ys|;
        forall i | 0 <= i < |xs| ensures Norm(eq, xs[i]) == Norm(eq, ys[i]) {
          assert NormItems(Canonical, xs)[i] == NormItems(Canonical, ys)[i];
          CanonicalIsFiner(eq, xs[i], ys[i]);
        }
        assert NormItems(eq, xs) == NormItems(eq, ys);
      case (Obj(fs), Obj(gs)) =>
        assert NormFields(Canonical, fs) == NormFields(Canonical, gs);
        forall key | key in NormFields(eq, fs)
          ensures key in NormFields(eq, gs) && NormFields(eq, fs)[key] == NormFields(eq, gs)[key]
        {
          NormFieldsAt(Canonical, fs, key);
          NormFieldsAt(Canonical, gs, key);
          NormFieldsAt(eq, fs, key);
          NormFieldsAt(eq, gs, key);
          CanonicalIsFiner(eq, Find(fs, key).value, Find(gs, key).value);
        }
        assert NormFields(eq, fs).Keys == Keys(fs) == NormFields(Canonical, fs).Keys;
        assert NormFields(eq, gs).Keys == Keys(gs) == NormFields(Canonical, gs).Keys;
        assert NormFields(eq, fs) == NormFields(eq, gs);
      case _ =>
    }
  }
}
