/** The walk over all objects of a document that keeps its own stack, against the positions of the objects. */
module ObjectWalk {
  import opened Options
  import opened Json

  // ---- Positions ----------------------------------------------------------------------------------------------

  /** The number of members of a dict or items of a list. */
  function ChildCount(v: Json): nat {
    match v
    case Obj(fields) => |fields|
    case Arr(items) => |items|
    case _ => 0
  }

  function Child(v: Json, i: nat): (c: Json)
    requires i < ChildCount(v)
    ensures c < v
  {
    match v
    case Obj(fields) => fields[i].value
    case Arr(items) => items[i]
  }

  /** What is at a position, given by child numbers from the root. */
  function At(v: Json, position: seq<nat>): Option<Json> {
    if position == [] then Some(v)
    else if position[0] < ChildCount(v) then At(Child(v, position[0]), position[1..])
    else None
  }

  /** Document order: the parent first, then the children one by one. */
  predicate Before(p: seq<nat>, q: seq<nat>) {
    q != [] && (p == [] || p[0] < q[0] || (p[0] == q[0] && Before(p[1..], q[1..])))
  }

  function Below(i: nat, positions: seq<seq<nat>>): (r: seq<seq<nat>>)
    ensures |r| == |positions| && forall k :: 0 <= k < |r| ==> r[k] == [i] + positions[k]
  {
    seq(|positions|, k requires 0 <= k < |positions| => [i] + positions[k])
  }

  /** The positions of the objects, parents first. */
  function Positions(v: Json): seq<seq<nat>>
    decreases v, ChildCount(v) + 1
  {
    (if v.Obj? then [[]] else []) + PositionsFrom(v, 0)
  }

  function PositionsFrom(v: Json, i: nat): seq<seq<nat>>
    requires i <= ChildCount(v)
    decreases v, ChildCount(v) - i
  {
    if i == ChildCount(v) then [] else Below(i, Positions(Child(v, i))) + PositionsFrom(v, i + 1)
  }

  predicate IsObjectAt(v: Json, position: seq<nat>) {
    At(v, position).Some? && At(v, position).value.Obj?
  }

  /** The list has the position of every object and no other. */
  lemma {:induction false} PositionsExact(v: Json, p: seq<nat>)
    ensures p in Positions(v) <==> IsObjectAt(v, p)
    decreases v, ChildCount(v) + 1
  {
    PositionsFromExact(v, 0, p);
  }

  lemma {:induction false} PositionsFromExact(v: Json, i: nat, p: seq<nat>)
    requires i <= ChildCount(v)
    ensures p in PositionsFrom(v, i) <==> p != [] && i <= p[0] && IsObjectAt(v, p)
    decreases v, ChildCount(v) - i
  {
    hide Positions, Below, IsObjectAt;
    FromPosition(v, i);
    if i == ChildCount(v) {
      if p != [] && i <= p[0] {
        NothingThere(v, p);
      }
    } else {
      PositionsFromExact(v, i + 1, p);
      BelowMember(i, Positions(Child(v, i)), p);
      if p != [] && p[0] == i {
        PositionsExact(Child(v, i), p[1..]);
        ObjectBelow(v, p);
      }
    }
  }

  lemma FromPosition(v: Json, i: nat)
    requires i <= ChildCount(v)
    ensures i == ChildCount(v) ==> PositionsFrom(v, i) == []
    ensures i < ChildCount(v) ==> PositionsFrom(v, i) == Below(i, Positions(Child(v, i))) + PositionsFrom(v, i + 1)
  {
  }

  lemma NothingThere(v: Json, p: seq<nat>)
    requires p != [] && ChildCount(v) <= p[0]
    ensures !IsObjectAt(v, p)
  {
  }

  lemma ObjectBelow(v: Json, p: seq<nat>)
    requires p != [] && p[0] < ChildCount(v)
    ensures IsObjectAt(v, p) <==> IsObjectAt(Child(v, p[0]), p[1..])
  {
  }

  lemma BelowMember(i: nat, positions: seq<seq<nat>>, p: seq<nat>)
    ensures p in Below(i, positions) <==> p != [] && p[0] == i && p[1..] in positions
  {
    var r := Below(i, positions);
    if p in r {
      var k :| 0 <= k < |r| && r[k] == p;
      assert p[0] == i && p[1..] == positions[k];
    }
    if p != [] && p[0] == i && p[1..] in positions {
      var k :| 0 <= k < |positions| && positions[k] == p[1..];
      assert p == [i] + p[1..];
      assert r[k] == p;
    }
  }

  ghost predicate InOrder(positions: seq<seq<nat>>) {
    forall j, k :: 0 <= j < k < |positions| ==> Before(positions[j], positions[k])
  }

  /** The positions are in document order, so no object is listed twice. */
  lemma {:induction false} PositionsInOrder(v: Json)
    ensures InOrder(Positions(v))
    ensures forall j, k :: 0 <= j < k < |Positions(v)| ==> Positions(v)[j] != Positions(v)[k]
    decreases v, ChildCount(v) + 1
  {
    PositionsFromInOrder(v, 0);
    forall k | 0 <= k < |PositionsFrom(v, 0)| ensures PositionsFrom(v, 0)[k] != [] {
      PositionsFromExact(v, 0, PositionsFrom(v, 0)[k]);
    }
    forall j, k | 0 <= j < k < |Positions(v)| ensures Positions(v)[j] != Positions(v)[k] {
      assert Before(Positions(v)[j], Positions(v)[k]);
      NotBeforeItself(Positions(v)[j]);
    }
  }

  lemma {:induction false} PositionsFromInOrder(v: Json, i: nat)
    requires i <= ChildCount(v)
    ensures InOrder(PositionsFrom(v, i))
    decreases v, ChildCount(v) - i
  {
    if i < ChildCount(v) {
      var first, rest := Below(i, Positions(Child(v, i))), PositionsFrom(v, i + 1);
      PositionsInOrder(Child(v, i));
      PositionsFromInOrder(v, i + 1);
      BelowInOrder(i, Positions(Child(v, i)));
      forall k | 0 <= k < |rest| ensures rest[k] != [] && i < rest[k][0] {
        PositionsFromExact(v, i + 1, rest[k]);
      }
      OrderJoin(i, first, rest);
    }
  }

  lemma BelowInOrder(i: nat, positions: seq<seq<nat>>)
    requires InOrder(positions)
    ensures InOrder(Below(i, positions))
  {
    var r := Below(i, positions);
    forall j, k | 0 <= j < k < |r| ensures Before(r[j], r[k]) {
      assert r[j][1..] == positions[j] && r[k][1..] == positions[k];
    }
  }

  lemma OrderJoin(i: nat, first: seq<seq<nat>>, rest: seq<seq<nat>>)
    requires InOrder(first) && InOrder(rest)
    requires forall j :: 0 <= j < |first| ==> first[j] != [] && first[j][0] == i
    requires forall k :: 0 <= k < |rest| ==> rest[k] != [] && i < rest[k][0]
    ensures InOrder(first + rest)
  {
  }

  lemma {:induction false} NotBeforeItself(p: seq<nat>)
    ensures !Before(p, p)
  {
    if p != [] {
      NotBeforeItself(p[1..]);
    }
  }

  // ---- The walk -----------------------------------------------------------------------------------------------

  /** The objects in preorder. */
  function Objects(v: Json): seq<Json>
    decreases v, ChildCount(v) + 1
  {
    (if v.Obj? then [v] else []) + ObjectsFrom(v, 0)
  }

  function ObjectsFrom(v: Json, i: nat): seq<Json>
    requires i <= ChildCount(v)
    decreases v, ChildCount(v) - i
  {
    if i == ChildCount(v) then [] else Objects(Child(v, i)) + ObjectsFrom(v, i + 1)
  }

  function Children(v: Json): seq<Json> {
    seq(ChildCount(v), i requires 0 <= i < ChildCount(v) => Child(v, i))
  }

  function Reversed(items: seq<Json>): seq<Json> {
    if items == [] then [] else Reversed(items[1..]) + [items[0]]
  }

  function Last(pending: seq<Json>): Json
    requires pending != []
  {
    pending[|pending| - 1]
  }

  function Rest(pending: seq<Json>): seq<Json>
    requires pending != []
  {
    pending[..|pending| - 1]
  }

  /** The objects that a stack still stands for, the top first. */
  function StackObjects(pending: seq<Json>): seq<Json>
    decreases |pending|
  {
    if pending == [] then [] else Objects(Last(pending)) + StackObjects(Rest(pending))
  }

  /** The number of values in a document. */
  function Size(v: Json): (n: nat)
    ensures n > 0
    decreases v, ChildCount(v) + 1
  {
    1 + SizeFrom(v, 0)
  }

  function SizeFrom(v: Json, i: nat): nat
    requires i <= ChildCount(v)
    decreases v, ChildCount(v) - i
  {
    if i == ChildCount(v) then 0 else Size(Child(v, i)) + SizeFrom(v, i + 1)
  }

  function Weight(pending: seq<Json>): nat {
    if pending == [] then 0 else Size(Last(pending)) + Weight(Rest(pending))
  }

  /** Pushing the children in reverse replaces a value by what is below it. */
  lemma {:induction false} PushChildren(pending: seq<Json>, v: Json, i: nat)
    requires i <= ChildCount(v)
    ensures var more := pending + Reversed(Children(v)[i..]);
            StackObjects(more) == ObjectsFrom(v, i) + StackObjects(pending) &&
            Weight(more) == SizeFrom(v, i) + Weight(pending)
    decreases ChildCount(v) - i
  {
    hide Objects, Size, StackObjects, Weight;
    var children := Children(v)[i..];
    var more := pending + Reversed(children);
    FromChild(v, i);
    if i == ChildCount(v) {
      assert more == pending;
    } else {
      PushChildren(pending, v, i + 1);
      assert children[1..] == Children(v)[i + 1..];
      assert Last(more) == Child(v, i) && Rest(more) == pending + Reversed(children[1..]);
      TopOfStack(more);
    }
  }

  /** What a value holds from one of its children on. */
  lemma FromChild(v: Json, i: nat)
    requires i <= ChildCount(v)
    ensures i == ChildCount(v) ==> ObjectsFrom(v, i) == [] && SizeFrom(v, i) == 0
    ensures i < ChildCount(v) ==>
              ObjectsFrom(v, i) == Objects(Child(v, i)) + ObjectsFrom(v, i + 1) &&
              SizeFrom(v, i) == Size(Child(v, i)) + SizeFrom(v, i + 1)
  {
  }

  lemma TopOfStack(pending: seq<Json>)
    requires pending != []
    ensures StackObjects(pending) == Objects(Last(pending)) + StackObjects(Rest(pending))
    ensures Weight(pending) == Size(Last(pending)) + Weight(Rest(pending))
  {
  }

  lemma OneOnStack(v: Json)
    ensures StackObjects([v]) == Objects(v)
  {
    hide Objects;
    assert Rest([v]) == [] && Last([v]) == v;
  }

  lemma EmptyStack()
    ensures StackObjects([]) == []
  {
  }

  /** `_iter_objects`: the generator's output as a list. */
  method IterObjects(value: Json) returns (objects: seq<Json>)
    ensures objects == Objects(value)
  {
    hide Objects, Size, StackObjects, Weight;
    var pending := [value];
    objects := [];
    OneOnStack(value);
    while pending != []
      invariant objects + StackObjects(pending) == Objects(value)
      decreases Weight(pending)
    {
      var current := Last(pending);
      ghost var before := pending;
      pending := Rest(pending);
      Unfolded(current);
      TopOfStack(before);
      if current.Obj? {
        objects := objects + [current];
        PushChildren(pending, current, 0);
        assert Children(current)[0..] == Children(current);
        pending := pending + Reversed(Children(current));
      } else if current.Arr? {
        PushChildren(pending, current, 0);
        assert Children(current)[0..] == Children(current);
        pending := pending + Reversed(Children(current));
      }
    }
    EmptyStack();
  }

  lemma Unfolded(v: Json)
    ensures Objects(v) == (if v.Obj? then [v] else []) + ObjectsFrom(v, 0)
    ensures Size(v) == 1 + SizeFrom(v, 0)
    ensures !v.Obj? && !v.Arr? ==> Objects(v) == []
  {
  }

  /** The walk yields the objects at their positions, one for one. */
  lemma {:induction false} ObjectsAtPositions(v: Json)
    ensures |Objects(v)| == |Positions(v)|
    ensures forall k :: 0 <= k < |Positions(v)| ==> At(v, Positions(v)[k]) == Some(Objects(v)[k])
    decreases v, ChildCount(v) + 1
  {
    ObjectsFromPositions(v, 0);
  }

  lemma {:induction false} ObjectsFromPositions(v: Json, i: nat)
    requires i <= ChildCount(v)
    ensures |ObjectsFrom(v, i)| == |PositionsFrom(v, i)|
    ensures forall k :: 0 <= k < |PositionsFrom(v, i)| ==> At(v, PositionsFrom(v, i)[k]) == Some(ObjectsFrom(v, i)[k])
    decreases v, ChildCount(v) - i
  {
    hide Objects, Positions, At, Below;
    FromChild(v, i);
    FromPosition(v, i);
    if i < ChildCount(v) {
      var child := Child(v, i);
      ObjectsAtPositions(child);
      ObjectsFromPositions(v, i + 1);
      var n := |Positions(child)|;
      forall k | 0 <= k < |PositionsFrom(v, i)|
        ensures At(v, PositionsFrom(v, i)[k]) == Some(ObjectsFrom(v, i)[k])
      {
        if k < n {
          assert PositionsFrom(v, i)[k] == [i] + Positions(child)[k];
          AtBelow(v, i, Positions(child)[k]);
        } else {
          assert PositionsFrom(v, i)[k] == PositionsFrom(v, i + 1)[k - n];
        }
      }
    }
  }

  lemma AtBelow(v: Json, i: nat, position: seq<nat>)
    requires i < ChildCount(v)
    ensures At(v, [i] + position) == At(Child(v, i), position)
  {
    assert ([i] + position)[1..] == position;
  }
}
