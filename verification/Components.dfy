/** The component view of an import graph: counted edges between components of a depth, and their rendering. */
module Components {
  import opened Options
  import opened Decimals
  import opened Ordering
  import Separated

  type Edge = (string, string)

  /** `component`: the first `depth` dotted parts of a module name. */
  function Component(name: string, depth: nat): string {
    var parts := Separated.Split(name, '.');
    Separated.Join(if depth < |parts| then parts[..depth] else parts, '.')
  }

  function EdgeAt(imported: Edge, depth: nat): Edge {
    (Component(imported.0, depth), Component(imported.1, depth))
  }

  /** How many of the imports go along an edge between distinct components. */
  function Count(imports: seq<Edge>, depth: nat, edge: Edge): (n: nat)
    ensures edge.0 == edge.1 ==> n == 0
  {
    if imports == [] then 0 else
      var k := |imports| - 1;
      Count(imports[..k], depth, edge) + if EdgeAt(imports[k], depth) == edge && edge.0 != edge.1 then 1 else 0
  }

  /** The counter holds the positive counts. */
  ghost predicate Counts(edges: map<Edge, nat>, imports: seq<Edge>, depth: nat) {
    forall edge :: (edge in edges <==> Count(imports, depth, edge) > 0) &&
                   (edge in edges ==> edges[edge] == Count(imports, depth, edge))
  }

  /** `component_edges`; no result stands for the error on a depth below one. */
  method ComponentEdges(imports: seq<Edge>, depth: int) returns (result: Option<map<Edge, nat>>)
    ensures result.None? <==> depth < 1
    ensures result.Some? ==> Counts(result.value, imports, depth)
    ensures result.Some? ==> forall edge :: edge in result.value ==> edge.0 != edge.1
  {
    hide Component;
    if depth < 1 {
      return None;
    }
    var edges: map<Edge, nat> := map[];
    for k := 0 to |imports|
      invariant Counts(edges, imports[..k], depth)
    {
      assert imports[..k + 1][..k] == imports[..k];
      var edge := EdgeAt(imports[k], depth);
      if edge.0 != edge.1 {
        edges := edges[edge := (if edge in edges then edges[edge] else 0) + 1];
      }
    }
    assert imports[..|imports|] == imports;
    return Some(edges);
  }

  // ---- Coarser components -------------------------------------------------------------------------------------

  /** The component of a component: only the smaller depth counts. */
  lemma ComponentTwice(name: string, d: nat, e: nat)
    requires 1 <= d <= e
    ensures Component(Component(name, e), d) == Component(name, d)
  {
    hide Separated.Split, Separated.Join;
    var parts := Separated.Split(name, '.');
    var some := if e < |parts| then parts[..e] else parts;
    forall i | 0 <= i < |some| ensures '.' !in some[i] {
      Separated.SplitHasNone(name, '.', i);
    }
    Separated.SplitJoin(some, '.');
    if d < |some| {
      assert some[..d] == parts[..d];
    } else if e < |parts| {
      assert some == parts[..d];
    }
  }

  /** The sum of a function over a finite set. */
  ghost function Sum(edges: set<Edge>, f: Edge -> nat): nat {
    if edges == {} then 0 else
      var x :| x in edges;
      f(x) + Sum(edges - {x}, f)
  }

  lemma {:induction false} SumTake(edges: set<Edge>, f: Edge -> nat, x: Edge)
    requires x in edges
    ensures Sum(edges, f) == f(x) + Sum(edges - {x}, f)
  {
    var y :| y in edges && Sum(edges, f) == f(y) + Sum(edges - {y}, f);
    if y != x {
      SumTake(edges - {y}, f, x);
      SumTake(edges - {x}, f, y);
      assert edges - {x} - {y} == edges - {y} - {x};
    }
  }

  lemma {:induction false} SumSame(edges: set<Edge>, f: Edge -> nat, g: Edge -> nat)
    requires forall x :: x in edges ==> f(x) == g(x)
    ensures Sum(edges, f) == Sum(edges, g)
  {
    if edges != {} {
      var x :| x in edges;
      SumTake(edges, f, x);
      SumTake(edges, g, x);
      SumSame(edges - {x}, f, g);
    }
  }

  lemma {:induction false} SumZero(edges: set<Edge>, f: Edge -> nat)
    requires forall x :: x in edges ==> f(x) == 0
    ensures Sum(edges, f) == 0
  {
    if edges != {} {
      var x :| x in edges;
      SumTake(edges, f, x);
      SumZero(edges - {x}, f);
    }
  }

  /** The counts of the finer edges that fall into a coarser one. */
  function Into(imports: seq<Edge>, e: nat, d: nat, coarse: Edge): Edge -> nat {
    (fine: Edge) => if EdgeAt(fine, d) == coarse then Count(imports, e, fine) else 0
  }

  function Along(edge: Edge, other: Edge): nat {
    if edge == other && edge.0 != edge.1 then 1 else 0
  }

  lemma CountMore(imports: seq<Edge>, depth: nat, edge: Edge)
    requires imports != []
    ensures var k := |imports| - 1;
            Count(imports, depth, edge) == Count(imports[..k], depth, edge) + Along(EdgeAt(imports[k], depth), edge)
  {
  }

  /** One more import raises the merged count by one when its finer edge falls into the coarser one. */
  lemma SumMore(edges: set<Edge>, imports: seq<Edge>, e: nat, d: nat, coarse: Edge)
    requires imports != []
    requires var last := EdgeAt(imports[|imports| - 1], e);
             last.0 != last.1 ==> last in edges
    ensures var k := |imports| - 1;
            var last := EdgeAt(imports[k], e);
            Sum(edges, Into(imports, e, d, coarse)) ==
              Sum(edges, Into(imports[..k], e, d, coarse)) +
              if last.0 != last.1 && EdgeAt(last, d) == coarse then 1 else 0
  {
    hide Component, Count, EdgeAt, Sum;
    var k := |imports| - 1;
    var last := EdgeAt(imports[k], e);
    forall fine: Edge ensures Count(imports, e, fine) == Count(imports[..k], e, fine) + Along(last, fine) {
      CountMore(imports, e, fine);
    }
    var f, g := Into(imports, e, d, coarse), Into(imports[..k], e, d, coarse);
    if last.0 != last.1 {
      SumTake(edges, f, last);
      SumTake(edges, g, last);
      SumSame(edges - {last}, f, g);
    } else {
      SumSame(edges, f, g);
    }
  }

  /** Coarsening commutes with counting, over any set that holds all finer edges. */
  lemma {:induction false} CountMerged(edges: set<Edge>, imports: seq<Edge>, e: nat, d: nat, coarse: Edge)
    requires 1 <= d <= e && coarse.0 != coarse.1
    requires forall i :: 0 <= i < |imports| ==>
               var fine := EdgeAt(imports[i], e);
               fine.0 != fine.1 ==> fine in edges
    ensures Count(imports, d, coarse) == Sum(edges, Into(imports, e, d, coarse))
  {
    hide Component;
    if imports == [] {
      SumZero(edges, Into(imports, e, d, coarse));
    } else {
      var k := |imports| - 1;
      CountMerged(edges, imports[..k], e, d, coarse);
      SumMore(edges, imports, e, d, coarse);
      ComponentTwice(imports[k].0, d, e);
      ComponentTwice(imports[k].1, d, e);
    }
  }

  /** The merged count of a counter's edges. */
  function Merged(edges: map<Edge, nat>, d: nat, coarse: Edge): Edge -> nat {
    (fine: Edge) => if fine in edges && EdgeAt(fine, d) == coarse then edges[fine] else 0
  }

  /** The counter at a smaller depth is the counter at the larger one merged by component, without self edges. */
  lemma CoarseningCommutes(imports: seq<Edge>, d: nat, e: nat, coarse: map<Edge, nat>, fine: map<Edge, nat>)
    requires 1 <= d <= e && Counts(coarse, imports, d) && Counts(fine, imports, e)
    ensures forall edge: Edge :: edge.0 != edge.1 ==>
              (if edge in coarse then coarse[edge] else 0) == Sum(fine.Keys, Merged(fine, d, edge))
    ensures forall edge :: edge in coarse ==> edge.0 != edge.1
  {
    hide Component;
    forall i | 0 <= i < |imports|
      ensures var edge := EdgeAt(imports[i], e);
              edge.0 != edge.1 ==> edge in fine.Keys
    {
      CountedEdge(imports, e, i);
    }
    forall edge: Edge | edge.0 != edge.1
      ensures (if edge in coarse then coarse[edge] else 0) == Sum(fine.Keys, Merged(fine, d, edge))
    {
      CountMerged(fine.Keys, imports, e, d, edge);
      SumSame(fine.Keys, Into(imports, e, d, edge), Merged(fine, d, edge));
    }
  }

  lemma {:induction false} CountedEdge(imports: seq<Edge>, depth: nat, i: nat)
    requires i < |imports|
    ensures var edge := EdgeAt(imports[i], depth);
            edge.0 != edge.1 ==> Count(imports, depth, edge) > 0
  {
    hide Component;
    var k := |imports| - 1;
    if i < k {
      CountedEdge(imports[..k], depth, i);
    }
  }

  // ---- Rendering ----------------------------------------------------------------------------------------------

  datatype Item = Item(edge: Edge, count: nat)

  function Endpoints(items: seq<Item>): set<string> {
    if items == [] then {} else
      var k := |items| - 1;
      Endpoints(items[..k]) + {items[k].edge.0, items[k].edge.1}
  }

  lemma {:induction false} EndpointsHold(items: seq<Item>, i: nat)
    requires i < |items|
    ensures items[i].edge.0 in Endpoints(items) && items[i].edge.1 in Endpoints(items)
  {
    var k := |items| - 1;
    if i < k {
      EndpointsHold(items[..k], i);
    }
  }

  /** The names of the nodes in order. */
  function Names(components: set<string>, items: seq<Item>): seq<string> {
    SortedSet(components + Endpoints(items))
  }

  function IndexOf(names: seq<string>, name: string): (i: nat)
    ensures i <= |names|
    ensures name in names ==> i < |names| && names[i] == name
  {
    if names == [] || names[0] == name then 0 else 1 + IndexOf(names[1..], name)
  }

  /** `node_ids[name]`. */
  function NodeId(names: seq<string>, name: string): string {
    "n" + Decimal(IndexOf(names, name))
  }

  function ItemLeq(): (Item, Item) -> bool {
    (a: Item, b: Item) =>
      StringLess(a.edge.0, b.edge.0) ||
      (a.edge.0 == b.edge.0 && (StringLess(a.edge.1, b.edge.1) || (a.edge.1 == b.edge.1 && a.count <= b.count)))
  }

  function NodeLine(names: seq<string>, name: string): string {
    "    " + NodeId(names, name) + "[\"" + name + "\"]"
  }

  function EdgeLine(names: seq<string>, item: Item): string {
    "    " + NodeId(names, item.edge.0) + " -->|" + Decimal(item.count) + "| " + NodeId(names, item.edge.1)
  }

  function NodeLines(names: seq<string>): seq<string> {
    seq(|names|, i requires 0 <= i < |names| => NodeLine(names, names[i]))
  }

  function EdgeLines(names: seq<string>, items: seq<Item>): seq<string> {
    seq(|items|, i requires 0 <= i < |items| => EdgeLine(names, items[i]))
  }

  function GraphLines(names: seq<string>, sorted: seq<Item>): seq<string> {
    ["graph TD"] + NodeLines(names) + EdgeLines(names, sorted)
  }

  /** `render_mermaid`: the counter as its items. */
  function RenderMermaid(components: set<string>, items: seq<Item>): string {
    Separated.Join(GraphLines(Names(components, items), SortBy(ItemLeq(), items)), '\n') + "\n"
  }

  /** Node ids tell names apart, and every component and every end of an edge has its node line. */
  lemma NodeIdsCover(components: set<string>, items: seq<Item>)
    ensures var names := Names(components, items);
            (forall a, b :: a in names && b in names && NodeId(names, a) == NodeId(names, b) ==> a == b) &&
            (forall name :: name in names <==> name in components || name in Endpoints(items)) &&
            (forall name :: name in names ==> NodeLine(names, name) in NodeLines(names)) &&
            StrictlySorted(names)
  {
    hide Decimal, SortedSet;
    var names := Names(components, items);
    forall a, b | a in names && b in names && NodeId(names, a) == NodeId(names, b) ensures a == b {
      var i, j := IndexOf(names, a), IndexOf(names, b);
      assert NodeId(names, a)[1..] == Decimal(i) && NodeId(names, b)[1..] == Decimal(j);
      DecimalInjective(i, j);
    }
    forall name | name in names ensures NodeLine(names, name) in NodeLines(names) {
      var i := IndexOf(names, name);
      assert NodeLines(names)[i] == NodeLine(names, name);
    }
  }

  /** Every counted edge has its line, between the nodes of its two components. */
  lemma EdgesCovered(components: set<string>, items: seq<Item>, item: Item)
    requires item in items
    ensures var names := Names(components, items);
            item.edge.0 in names && item.edge.1 in names &&
            EdgeLine(names, item) in EdgeLines(names, SortBy(ItemLeq(), items))
  {
    hide SortedSet, EdgeLine, SortBy;
    var sorted := SortBy(ItemLeq(), items);
    assert item in multiset(items);
    assert item in multiset(sorted);
    var i :| 0 <= i < |sorted| && sorted[i] == item;
    assert EdgeLines(Names(components, items), sorted)[i] == EdgeLine(Names(components, items), item);
    var k :| 0 <= k < |items| && items[k] == item;
    EndpointsHold(items, k);
  }

  // ---- The drawing as text ------------------------------------------------------------------------------------

  predicate OneLine(names: seq<string>) {
    forall i :: 0 <= i < |names| ==> '\n' !in names[i]
  }

  lemma NoLineFeed(line: string, n: nat)
    requires line == Decimal(n)
    ensures '\n' !in line
  {
    assert forall i :: 0 <= i < |line| ==> IsDigit(line[i]);
  }

  lemma NodeOneLine(names: seq<string>, name: string)
    requires '\n' !in name
    ensures '\n' !in NodeLine(names, name)
  {
    hide Decimal;
    NoLineFeed(Decimal(IndexOf(names, name)), IndexOf(names, name));
  }

  lemma EdgeOneLine(names: seq<string>, item: Item)
    ensures '\n' !in EdgeLine(names, item)
  {
    hide Decimal;
    NoLineFeed(Decimal(IndexOf(names, item.edge.0)), IndexOf(names, item.edge.0));
    NoLineFeed(Decimal(item.count), item.count);
    NoLineFeed(Decimal(IndexOf(names, item.edge.1)), IndexOf(names, item.edge.1));
  }

  /** Split at its line feeds, the drawing is the header, the node lines and the edge lines. */
  lemma RenderedLines(components: set<string>, items: seq<Item>)
    requires OneLine(Names(components, items))
    ensures Separated.Split(RenderMermaid(components, items), '\n') ==
            GraphLines(Names(components, items), SortBy(ItemLeq(), items)) + [""]
  {
    hide NodeLine, EdgeLine, Names, SortBy, Separated.Split;
    var names, sorted := Names(components, items), SortBy(ItemLeq(), items);
    var lines := GraphLines(names, sorted);
    forall i | 0 <= i < |lines| ensures '\n' !in lines[i] {
      if 1 <= i <= |names| {
        NodeOneLine(names, names[i - 1]);
      } else if i > |names| {
        EdgeOneLine(names, sorted[i - 1 - |names|]);
      }
    }
    JoinMore(lines, '\n');
    Separated.SplitJoin(lines + [""], '\n');
  }

  /** A separator behind the joined parts opens an empty last part. */
  lemma {:induction false} JoinMore(parts: seq<string>, sep: char)
    requires parts != []
    ensures Separated.Join(parts + [""], sep) == Separated.Join(parts, sep) + [sep]
  {
    if |parts| == 1 {
      assert (parts + [""])[1..] == [""];
    } else {
      assert (parts + [""])[1..] == parts[1..] + [""];
      JoinMore(parts[1..], sep);
    }
  }

  predicate AllDigits(s: string) {
    forall i :: 0 <= i < |s| ==> IsDigit(s[i])
  }

  /** The digits in front of another character can be read back. */
  lemma DigitsRead(s: string, c: char, x: string, t: string, d: char, y: string)
    requires AllDigits(s) && AllDigits(t) && !IsDigit(c) && !IsDigit(d)
    requires s + [c] + x == t + [d] + y
    ensures s == t && c == d && x == y
  {
    var whole := s + [c] + x;
    assert whole[|s|] == c && whole[|t|] == d;
    assert forall k :: 0 <= k < |s| ==> whole[k] == s[k];
    assert forall k :: 0 <= k < |t| ==> whole[k] == t[k];
    assert s == whole[..|s|] == t;
    assert x == whole[|s| + 1..] == y;
  }

  /** A line behind its indent and the letter of its first node id. */
  lemma NodeRest(names: seq<string>, name: string)
    ensures NodeLine(names, name) == "    n" + (Decimal(IndexOf(names, name)) + ['['] + ("\"" + name + "\"]"))
  {
    hide Decimal;
  }

  lemma EdgeRest(names: seq<string>, item: Item)
    ensures EdgeLine(names, item) ==
            "    n" + (Decimal(IndexOf(names, item.edge.0)) + [' '] +
                       ("-->|" + (Decimal(item.count) + ['|'] + (" n" + Decimal(IndexOf(names, item.edge.1))))))
  {
    hide Decimal;
  }

  lemma CutFront(front: string, a: string, b: string)
    requires front + a == front + b
    ensures a == b
  {
    assert a == (front + a)[|front|..] == (front + b)[|front|..] == b;
  }

  lemma CutBack(a: string, b: string, back: string)
    requires a + back == b + back
    ensures a == b
  {
    assert |a + back| == |b + back|;
    assert a == (a + back)[..|a|] == (b + back)[..|b|] == b;
  }

  lemma NodeNotEdge(names: seq<string>, name: string, others: seq<string>, item: Item)
    ensures NodeLine(names, name) != EdgeLine(others, item)
  {
    hide Decimal, NodeLine, EdgeLine, IndexOf;
    if NodeLine(names, name) == EdgeLine(others, item) {
      NodeRest(names, name);
      EdgeRest(others, item);
      var rest := "-->|" + (Decimal(item.count) + ['|'] + (" n" + Decimal(IndexOf(others, item.edge.1))));
      var a, b := Decimal(IndexOf(names, name)), Decimal(IndexOf(others, item.edge.0));
      CutFront("    n", a + ['['] + ("\"" + name + "\"]"), b + [' '] + rest);
      DigitsRead(a, '[', "\"" + name + "\"]", b, ' ', rest);
    }
  }

  lemma NodeRead(names: seq<string>, name: string, others: seq<string>, other: string)
    requires NodeLine(names, name) == NodeLine(others, other)
    ensures name == other
  {
    hide Decimal, NodeLine, IndexOf;
    NodeRest(names, name);
    NodeRest(others, other);
    var a, b := Decimal(IndexOf(names, name)), Decimal(IndexOf(others, other));
    CutFront("    n", a + ['['] + ("\"" + name + "\"]"), b + ['['] + ("\"" + other + "\"]"));
    DigitsRead(a, '[', "\"" + name + "\"]", b, '[', "\"" + other + "\"]");
    CutBack("\"" + name, "\"" + other, "\"]");
    CutFront("\"", name, other);
  }

  lemma SameIndex(names: seq<string>, a: string, b: string)
    requires a in names && b in names && Decimal(IndexOf(names, a)) == Decimal(IndexOf(names, b))
    ensures a == b
  {
    hide Decimal;
    DecimalInjective(IndexOf(names, a), IndexOf(names, b));
  }

  lemma EdgeRead(names: seq<string>, x: Item, y: Item)
    requires x.edge.0 in names && x.edge.1 in names && y.edge.0 in names && y.edge.1 in names
    requires EdgeLine(names, x) == EdgeLine(names, y)
    ensures x == y
  {
    hide Decimal, EdgeLine, IndexOf;
    EdgeRest(names, x);
    EdgeRest(names, y);
    var a, b := Decimal(IndexOf(names, x.edge.0)), Decimal(IndexOf(names, y.edge.0));
    var c, d := Decimal(x.count), Decimal(y.count);
    var e, f := Decimal(IndexOf(names, x.edge.1)), Decimal(IndexOf(names, y.edge.1));
    var s, t := c + ['|'] + (" n" + e), d + ['|'] + (" n" + f);
    CutFront("    n", a + [' '] + ("-->|" + s), b + [' '] + ("-->|" + t));
    DigitsRead(a, ' ', "-->|" + s, b, ' ', "-->|" + t);
    CutFront("-->|", s, t);
    DigitsRead(c, '|', " n" + e, d, '|', " n" + f);
    CutFront(" n", e, f);
    SameIndex(names, x.edge.0, y.edge.0);
    SameIndex(names, x.edge.1, y.edge.1);
    DecimalInjective(x.count, y.count);
  }

  /** Equal lines come from no fewer nodes. */
  lemma NodesCounted(names: seq<string>, xs: seq<Item>, others: seq<string>, ys: seq<Item>)
    requires GraphLines(names, xs) == GraphLines(others, ys)
    ensures |names| >= |others|
  {
    hide NodeLine, EdgeLine;
    if |names| < |others| {
      var k := |names|;
      assert GraphLines(names, xs)[k + 1] == EdgeLine(names, xs[0]);
      assert GraphLines(others, ys)[k + 1] == NodeLine(others, others[k]);
      NodeNotEdge(others, others[k], names, xs[0]);
    }
  }

  /** Equal drawings show the same components, edges and counts. */
  lemma RenderingDecides(components: set<string>, items: seq<Item>, others: set<string>, more: seq<Item>)
    requires OneLine(Names(components, items)) && OneLine(Names(others, more))
    requires RenderMermaid(components, items) == RenderMermaid(others, more)
    ensures Names(components, items) == Names(others, more) && multiset(items) == multiset(more)
  {
    hide NodeLine, EdgeLine, Names, SortBy, Separated.Split, RenderMermaid;
    RenderedLines(components, items);
    RenderedLines(others, more);
    var a, b := Names(components, items), Names(others, more);
    var xs, ys := SortBy(ItemLeq(), items), SortBy(ItemLeq(), more);
    assert GraphLines(a, xs) == (GraphLines(a, xs) + [""])[..|GraphLines(a, xs)|];
    assert GraphLines(b, ys) == (GraphLines(b, ys) + [""])[..|GraphLines(b, ys)|];
    assert GraphLines(a, xs) == GraphLines(b, ys);
    NodesCounted(a, xs, b, ys);
    NodesCounted(b, ys, a, xs);
    forall i | 0 <= i < |a| ensures a[i] == b[i] {
      assert GraphLines(a, xs)[i + 1] == NodeLine(a, a[i]) && GraphLines(b, ys)[i + 1] == NodeLine(b, b[i]);
      NodeRead(a, a[i], b, b[i]);
    }
    assert a == b;
    forall i | 0 <= i < |xs| ensures xs[i] == ys[i] {
      assert GraphLines(a, xs)[i + 1 + |a|] == EdgeLine(a, xs[i]);
      assert GraphLines(b, ys)[i + 1 + |a|] == EdgeLine(a, ys[i]);
      SortedEnds(components, items, i);
      SortedEnds(others, more, i);
      EdgeRead(a, xs[i], ys[i]);
    }
    assert xs == ys;
    assert multiset(xs) == multiset(items) && multiset(ys) == multiset(more);
  }

  lemma SortedEnds(components: set<string>, items: seq<Item>, i: nat)
    requires i < |SortBy(ItemLeq(), items)|
    ensures var item := SortBy(ItemLeq(), items)[i];
            item.edge.0 in Names(components, items) && item.edge.1 in Names(components, items)
  {
    hide SortedSet, SortBy;
    var item := SortBy(ItemLeq(), items)[i];
    assert item in multiset(SortBy(ItemLeq(), items));
    assert item in multiset(items);
    var k :| 0 <= k < |items| && items[k] == item;
    EndpointsHold(items, k);
  }
}
