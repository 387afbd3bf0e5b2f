/** Authority and non-normative roots: their shape, and the check that no path falls under both. */
module RootOverlap {
  import opened Options
  import opened JsonPointer
  import Separated

  // ---- Paths --------------------------------------------------------------------------------------------------

  /** The components that name something: neither empty nor a single dot. */
  function Named(parts: seq<string>): seq<string> {
    if parts == [] then [] else
      (if parts[0] == "" || parts[0] == "." then [] else [parts[0]]) + Named(parts[1..])
  }

  /** `Path(root).parts` of a relative path. */
  function Parts(root: string): seq<string> {
    Named(Split(root))
  }

  datatype Problem = Empty | Absolute | Traversal | NoSlash

  /** `_check_root_path_shape`. */
  function RootProblem(root: string): Option<Problem> {
    if root == "" then Some(Empty)
    else if root[0] == '/' then Some(Absolute)
    else if ".." in Parts(root) then Some(Traversal)
    else if root[|root| - 1] != '/' then Some(NoSlash)
    else None
  }

  // ---- Entries ------------------------------------------------------------------------------------------------

  /** An entry of a root list: malformed, or with its id and root as non-empty text. */
  datatype RawEntry = Malformed | Entry(id: string, root: string)

  datatype Root = Root(id: string, path: string)

  datatype EntryFailure =
    | Field(index: nat)
    | Shape(index: nat, problem: Problem)
    | DuplicateId(index: nat)
    | DuplicateRoot(index: nat)

  datatype RootState = RootState(roots: seq<Root>, failures: seq<EntryFailure>)

  function IdsOf(roots: seq<Root>): set<string> {
    set i | 0 <= i < |roots| :: roots[i].id
  }

  function PathsOf(roots: seq<Root>): set<string> {
    set i | 0 <= i < |roots| :: roots[i].path
  }

  /** What one entry adds: a root, or a failure. */
  function RootStep(s: RootState, index: nat, entry: RawEntry): RootState {
    if entry.Malformed? then s.(failures := s.failures + [Field(index)])
    else if RootProblem(entry.root).Some? then
      s.(failures := s.failures + [Shape(index, RootProblem(entry.root).value)])
    else if entry.id in IdsOf(s.roots) then s.(failures := s.failures + [DuplicateId(index)])
    else if entry.root in PathsOf(s.roots) then s.(failures := s.failures + [DuplicateRoot(index)])
    else s.(roots := s.roots + [Root(entry.id, entry.root)])
  }

  function RootScan(entries: seq<RawEntry>): RootState {
    if entries == [] then RootState([], []) else
      RootStep(RootScan(entries[..|entries| - 1]), |entries| - 1, entries[|entries| - 1])
  }

  /** The entry loop of `_check_authority_roots` and of `_check_non_normative_roots`. */
  method CheckRoots(entries: seq<RawEntry>) returns (validated: seq<Root>, failures: seq<EntryFailure>)
    ensures RootScan(entries) == RootState(validated, failures)
  {
    hide RootProblem, IdsOf, PathsOf;
    validated, failures := [], [];
    var seenIds: set<string>, seenRoots: set<string> := {}, {};
    NothingSeen();
    for index := 0 to |entries|
      invariant RootScan(entries[..index]) == RootState(validated, failures)
      invariant seenIds == IdsOf(validated) && seenRoots == PathsOf(validated)
    {
      assert entries[..index + 1][..index] == entries[..index];
      var entry := entries[index];
      if entry.Malformed? {
        failures := failures + [Field(index)];
      } else {
        var problem := RootProblem(entry.root);
        if problem.Some? {
          failures := failures + [Shape(index, problem.value)];
        } else if entry.id in seenIds {
          failures := failures + [DuplicateId(index)];
        } else if entry.root in seenRoots {
          failures := failures + [DuplicateRoot(index)];
        } else {
          SeenMore(validated, Root(entry.id, entry.root));
          seenIds, seenRoots := seenIds + {entry.id}, seenRoots + {entry.root};
          validated := validated + [Root(entry.id, entry.root)];
        }
      }
    }
    assert entries[..|entries|] == entries;
  }

  lemma NothingSeen()
    ensures IdsOf([]) == {} && PathsOf([]) == {}
  {
  }

  lemma SeenMore(roots: seq<Root>, root: Root)
    ensures IdsOf(roots + [root]) == IdsOf(roots) + {root.id}
    ensures PathsOf(roots + [root]) == PathsOf(roots) + {root.path}
  {
    var more := roots + [root];
    assert more[|roots|] == root;
    forall id | id in IdsOf(roots) ensures id in IdsOf(more) {
      var i :| 0 <= i < |roots| && roots[i].id == id;
      assert more[i].id == id;
    }
    forall path | path in PathsOf(roots) ensures path in PathsOf(more) {
      var i :| 0 <= i < |roots| && roots[i].path == path;
      assert more[i].path == path;
    }
  }

  ghost predicate Valid(roots: seq<Root>) {
    && (forall i :: 0 <= i < |roots| ==> RootProblem(roots[i].path).None?)
    && (forall i, j :: 0 <= i < j < |roots| ==> roots[i].id != roots[j].id && roots[i].path != roots[j].path)
  }

  function AsRoots(entries: seq<RawEntry>): seq<Root>
    requires forall i :: 0 <= i < |entries| ==> entries[i].Entry?
  {
    seq(|entries|, i requires 0 <= i < |entries| => Root(entries[i].id, entries[i].root))
  }

  /** Validated roots are well shaped and distinct in id and path, whatever the entries are. */
  lemma {:induction false} ScanValid(entries: seq<RawEntry>)
    ensures Valid(RootScan(entries).roots)
  {
    hide RootProblem;
    if entries != [] {
      var k := |entries| - 1;
      ScanValid(entries[..k]);
      var s := RootScan(entries[..k]);
      var entry := entries[k];
      if entry.Entry? && entry.id !in IdsOf(s.roots) && entry.root !in PathsOf(s.roots) {
        forall i | 0 <= i < |s.roots| ensures s.roots[i].id != entry.id && s.roots[i].path != entry.root {
          assert s.roots[i].id in IdsOf(s.roots) && s.roots[i].path in PathsOf(s.roots);
        }
      }
    }
  }

  /** A list passes exactly when all its entries are well formed and make valid roots; then it is that list. */
  lemma {:induction false} ScanExact(entries: seq<RawEntry>)
    ensures RootScan(entries).failures == [] <==>
              (forall i :: 0 <= i < |entries| ==> entries[i].Entry?) && Valid(AsRoots(entries))
    ensures RootScan(entries).failures == [] ==> RootScan(entries).roots == AsRoots(entries)
  {
    hide RootProblem;
    if entries != [] {
      var k := |entries| - 1;
      var rest := entries[..k];
      ScanExact(rest);
      assert forall i :: 0 <= i < k ==> rest[i] == entries[i];
      if forall i :: 0 <= i < |entries| ==> entries[i].Entry? {
        var roots := AsRoots(entries);
        assert roots == AsRoots(rest) + [Root(entries[k].id, entries[k].root)];
        LastDistinct(AsRoots(rest), roots[k]);
      }
    }
  }

  lemma LastDistinct(roots: seq<Root>, root: Root)
    ensures Valid(roots + [root]) <==>
              Valid(roots) && RootProblem(root.path).None? && root.id !in IdsOf(roots) && root.path !in PathsOf(roots)
  {
    hide RootProblem;
    var more := roots + [root];
    assert more[|roots|] == root;
    assert forall i :: 0 <= i < |roots| ==> more[i] == roots[i];
    if Valid(roots) && RootProblem(root.path).None? && root.id !in IdsOf(roots) && root.path !in PathsOf(roots) {
      forall i | 0 <= i < |roots| ensures roots[i].id != root.id && roots[i].path != root.path {
        assert roots[i].id in IdsOf(roots) && roots[i].path in PathsOf(roots);
      }
    }
    if Valid(more) {
      assert root.id !in IdsOf(roots);
      assert root.path !in PathsOf(roots);
      assert RootProblem(more[|roots|].path).None?;
    }
  }

  // ---- Overlap ------------------------------------------------------------------------------------------------

  datatype Overlap = Collision(path: string) | Legacy(path: string) | Ancestor(outer: string, inner: string)

  function Collisions(authority: seq<Root>, other: seq<Root>): seq<Overlap> {
    if authority == [] then [] else
      var k := |authority| - 1;
      Collisions(authority[..k], other) +
      if authority[k].path in PathsOf(other) then [Collision(authority[k].path)] else []
  }

  function LegacyHits(roots: seq<Root>, legacy: set<string>): seq<Overlap> {
    if roots == [] then [] else
      var k := |roots| - 1;
      var parts := Parts(roots[k].path);
      LegacyHits(roots[..k], legacy) + if parts != [] && parts[0] in legacy then [Legacy(roots[k].path)] else []
  }

  /** `_is_strict_ancestor`. */
  predicate StrictAncestor(parent: string, child: string) {
    child != parent && parent <= child
  }

  function PairHit(a: Root, b: Root): seq<Overlap> {
    if StrictAncestor(a.path, b.path) then [Ancestor(a.path, b.path)]
    else if StrictAncestor(b.path, a.path) then [Ancestor(b.path, a.path)]
    else []
  }

  function RowHits(a: Root, other: seq<Root>): seq<Overlap> {
    if other == [] then [] else RowHits(a, other[..|other| - 1]) + PairHit(a, other[|other| - 1])
  }

  function CrossHits(authority: seq<Root>, other: seq<Root>): seq<Overlap> {
    if authority == [] then [] else
      CrossHits(authority[..|authority| - 1], other) + RowHits(authority[|authority| - 1], other)
  }

  method FindCollisions(authority: seq<Root>, other: seq<Root>) returns (failures: seq<Overlap>)
    ensures failures == Collisions(authority, other)
  {
    hide PathsOf;
    failures := [];
    for k := 0 to |authority|
      invariant failures == Collisions(authority[..k], other)
    {
      assert authority[..k + 1][..k] == authority[..k];
      if authority[k].path in PathsOf(other) {
        failures := failures + [Collision(authority[k].path)];
      }
    }
    assert authority[..|authority|] == authority;
  }

  method FindLegacy(roots: seq<Root>, legacy: set<string>) returns (failures: seq<Overlap>)
    ensures failures == LegacyHits(roots, legacy)
  {
    hide Parts;
    failures := [];
    for k := 0 to |roots|
      invariant failures == LegacyHits(roots[..k], legacy)
    {
      assert roots[..k + 1][..k] == roots[..k];
      var parts := Parts(roots[k].path);
      if parts != [] && parts[0] in legacy {
        failures := failures + [Legacy(roots[k].path)];
      }
    }
    assert roots[..|roots|] == roots;
  }

  method FindAncestors(authority: seq<Root>, other: seq<Root>) returns (failures: seq<Overlap>)
    ensures failures == CrossHits(authority, other)
  {
    hide PairHit;
    failures := [];
    for k := 0 to |authority|
      invariant failures == CrossHits(authority[..k], other)
    {
      assert authority[..k + 1][..k] == authority[..k];
      for m := 0 to |other|
        invariant failures == CrossHits(authority[..k], other) + RowHits(authority[k], other[..m])
      {
        assert other[..m + 1][..m] == other[..m];
        failures := failures + PairHit(authority[k], other[m]);
      }
      assert other[..|other|] == other;
    }
    assert authority[..|authority|] == authority;
  }

  /** `_check_root_categorisation_overlap`, over validated roots. */
  method CheckOverlap(authority: seq<Root>, other: seq<Root>, legacy: set<string>) returns (failures: seq<Overlap>)
    ensures failures ==
              Collisions(authority, other) + LegacyHits(authority + other, legacy) + CrossHits(authority, other)
  {
    failures := FindCollisions(authority, other);
    var more := FindLegacy(authority + other, legacy);
    failures := failures + more;
    more := FindAncestors(authority, other);
    failures := failures + more;
  }

  /** Two roots that one of the cross-category checks reports. */
  predicate Clash(a: Root, b: Root) {
    a.path <= b.path || b.path <= a.path
  }

  ghost predicate NoClash(authority: seq<Root>, other: seq<Root>) {
    forall i, j :: 0 <= i < |authority| && 0 <= j < |other| ==> !Clash(authority[i], other[j])
  }

  lemma {:induction false} CollisionsExact(authority: seq<Root>, other: seq<Root>)
    ensures Collisions(authority, other) == [] <==>
            forall i, j :: 0 <= i < |authority| && 0 <= j < |other| ==> authority[i].path != other[j].path
  {
    if authority != [] {
      var k := |authority| - 1;
      CollisionsExact(authority[..k], other);
      assert forall i :: 0 <= i < k ==> authority[..k][i] == authority[i];
      if authority[k].path in PathsOf(other) {
        var j :| 0 <= j < |other| && other[j].path == authority[k].path;
      } else {
        forall j | 0 <= j < |other| ensures authority[k].path != other[j].path {
          assert other[j].path in PathsOf(other);
        }
      }
    }
  }

  /** A legacy hit is reported exactly when the first component of a root is a legacy directory. */
  lemma {:induction false} LegacyExact(roots: seq<Root>, legacy: set<string>)
    ensures LegacyHits(roots, legacy) == [] <==>
            forall i :: 0 <= i < |roots| && Parts(roots[i].path) != [] ==> Parts(roots[i].path)[0] !in legacy
  {
    hide Parts;
    if roots != [] {
      var k := |roots| - 1;
      LegacyExact(roots[..k], legacy);
      assert forall i :: 0 <= i < k ==> roots[..k][i] == roots[i];
    }
  }

  lemma {:induction false} RowExact(a: Root, other: seq<Root>)
    ensures RowHits(a, other) == [] <==> forall j :: 0 <= j < |other| ==> PairHit(a, other[j]) == []
  {
    hide PairHit;
    if other != [] {
      var k := |other| - 1;
      RowExact(a, other[..k]);
      assert forall j :: 0 <= j < k ==> other[..k][j] == other[j];
    }
  }

  lemma {:induction false} CrossExact(authority: seq<Root>, other: seq<Root>)
    ensures CrossHits(authority, other) == [] <==>
            forall i, j :: 0 <= i < |authority| && 0 <= j < |other| ==> PairHit(authority[i], other[j]) == []
  {
    hide PairHit;
    if authority != [] {
      var k := |authority| - 1;
      CrossExact(authority[..k], other);
      RowExact(authority[k], other);
      assert forall i :: 0 <= i < k ==> authority[..k][i] == authority[i];
    }
  }

  lemma ClashExact(a: Root, b: Root)
    ensures Clash(a, b) <==> a.path == b.path || PairHit(a, b) != []
  {
  }

  /** Some root is in both classes or below a root of the other. */
  predicate Reported(authority: seq<Root>, other: seq<Root>) {
    Collisions(authority, other) + CrossHits(authority, other) != []
  }

  lemma ReportedExact(authority: seq<Root>, other: seq<Root>)
    ensures !Reported(authority, other) <==> NoClash(authority, other)
  {
    hide Collisions, CrossHits, Clash, PairHit;
    CollisionsExact(authority, other);
    CrossExact(authority, other);
    assert Collisions(authority, other) + CrossHits(authority, other) == [] <==>
           Collisions(authority, other) == [] && CrossHits(authority, other) == [];
    forall i, j | 0 <= i < |authority| && 0 <= j < |other|
      ensures Clash(authority[i], other[j]) <==>
              authority[i].path == other[j].path || PairHit(authority[i], other[j]) != []
    {
      ClashExact(authority[i], other[j]);
    }
  }

  // ---- Paths under roots --------------------------------------------------------------------------------------

  /** The path text lies under one of the roots. */
  predicate UnderSome(path: string, roots: seq<Root>) {
    exists i :: 0 <= i < |roots| && roots[i].path <= path
  }

  /** A cross-category overlap is reported exactly when some path text lies under a root of either class. */
  lemma OverlapIsCommonPath(authority: seq<Root>, other: seq<Root>)
    ensures Reported(authority, other) <==>
            exists path :: UnderSome(path, authority) && UnderSome(path, other)
  {
    ReportedExact(authority, other);
    if !NoClash(authority, other) {
      var i, j :| 0 <= i < |authority| && 0 <= j < |other| && Clash(authority[i], other[j]);
      var path := if authority[i].path <= other[j].path then other[j].path else authority[i].path;
      assert UnderSome(path, authority) && UnderSome(path, other);
    }
    if NoClash(authority, other) {
      forall path | UnderSome(path, authority) ensures !UnderSome(path, other) {
        if UnderSome(path, other) {
          CommonIsClash(path, authority, other);
        }
      }
    }
  }

  lemma CommonIsClash(path: string, authority: seq<Root>, other: seq<Root>)
    requires UnderSome(path, authority) && UnderSome(path, other)
    ensures !NoClash(authority, other)
  {
    var i :| 0 <= i < |authority| && authority[i].path <= path;
    var j :| 0 <= j < |other| && other[j].path <= path;
    var a, b := authority[i].path, other[j].path;
    if |a| <= |b| {
      assert a == path[..|a|] == b[..|a|];
    } else {
      assert b == path[..|b|] == a[..|b|];
    }
    assert Clash(authority[i], other[j]);
  }

  // ---- Directories --------------------------------------------------------------------------------------------

  predicate EndsWithSlash(root: string) {
    root != "" && root[|root| - 1] == '/'
  }

  lemma SplitStep(s: string)
    requires s != ""
    ensures var rest := Split(s[1..]);
            Split(s) == if s[0] == '/' then [""] + rest else [[s[0]] + rest[0]] + rest[1..]
  {
  }

  /** Changing the last component behind a first one. */
  lemma GlueAt(tail: seq<string>, last: seq<string>, c: char)
    requires |tail| > 1
    ensures var k := |tail| - 1;
            var more := tail[..k] + last;
            more != [] &&
            [""] + more == ([""] + tail)[..|tail|] + last &&
            [[c] + more[0]] + more[1..] == ([[c] + tail[0]] + tail[1..])[..k] + last
  {
    var k := |tail| - 1;
    var more := tail[..k] + last;
    assert more[0] == tail[0] && more[1..] == tail[1..k] + last;
  }

  lemma {:induction false} SplitAtSlash(root: string, rest: string)
    requires EndsWithSlash(root)
    ensures |Split(root)| > 1 && Split(root)[|Split(root)| - 1] == ""
    ensures Split(root + rest) == Split(root)[..|Split(root)| - 1] + Split(rest)
  {
    hide Split;
    var t := root + rest;
    SplitStep(root);
    SplitStep(t);
    assert t[1..] == root[1..] + rest;
    if |root| == 1 {
      SplitNothing();
      assert root[1..] == "" && t[1..] == rest && ["", ""][..1] == [""];
    } else {
      SplitAtSlash(root[1..], rest);
      GlueAt(Split(root[1..]), Split(rest), root[0]);
    }
  }

  lemma SplitNothing()
    ensures Split("") == [""]
  {
  }

  lemma {:induction false} NamedJoin(a: seq<string>, b: seq<string>)
    ensures Named(a + b) == Named(a) + Named(b)
  {
    if a == [] {
      assert a + b == b;
    } else {
      assert (a + b)[1..] == a[1..] + b;
      NamedJoin(a[1..], b);
    }
  }

  /** Below a root the path text continues its components. */
  lemma PartsBelow(root: string, rest: string)
    requires EndsWithSlash(root)
    ensures Parts(root + rest) == Parts(root) + Parts(rest)
  {
    hide Split;
    SplitAtSlash(root, rest);
    var parts := Split(root);
    var k := |parts| - 1;
    NamedJoin(parts[..k], Split(rest));
    NamedJoin(parts[..k], [""]);
    assert parts == parts[..k] + [""];
    assert Named([""]) == Named([""][1..]) == [];
  }

  lemma NamedLast()
    ensures Named([""]) == []
  {
    assert [""][1..] == [];
  }

  /** The components as written in front of the final slash, empty and dot ones included. */
  function Written(root: string): seq<string>
    requires EndsWithSlash(root)
  {
    Split(root)[..|Split(root)| - 1]
  }

  lemma WrittenSplit(root: string)
    requires EndsWithSlash(root)
    ensures Split(root) == Written(root) + [""] && Parts(root) == Named(Written(root))
  {
    hide Separated.Split;
    SplitAtSlash(root, "");
    var parts := Split(root);
    assert parts == parts[..|parts| - 1] + [""];
    NamedJoin(Written(root), [""]);
    NamedLast();
  }

  /** One root continues the other's text exactly when it continues its written components. */
  lemma WrittenPrefix(a: string, b: string)
    requires EndsWithSlash(a) && EndsWithSlash(b)
    ensures a <= b <==> Written(a) <= Written(b)
  {
    hide Separated.Split, Separated.Join, Written;
    WrittenSplit(a);
    WrittenSplit(b);
    if a <= b {
      SplitAtSlash(a, b[|a|..]);
      assert a + b[|a|..] == b;
      WrittenFront(a, b, Split(b[|a|..]));
    }
    if Written(a) <= Written(b) {
      WrittenBelow(a, b);
    }
  }

  lemma WrittenFront(a: string, b: string, more: seq<string>)
    requires EndsWithSlash(a) && EndsWithSlash(b) && more != []
    requires Split(a) == Written(a) + [""] && Split(b) == Written(b) + [""]
    requires Split(b) == Split(a)[..|Split(a)| - 1] + more
    ensures Written(a) <= Written(b)
  {
    hide Separated.Split, Written;
    assert Written(a) + more == Written(b) + [""];
    assert Written(b) == (Written(a) + more)[..|Written(b)|] == Written(a) + more[..|more| - 1];
  }

  lemma WrittenBelow(a: string, b: string)
    requires EndsWithSlash(a) && EndsWithSlash(b) && Written(a) <= Written(b)
    ensures a <= b
  {
    hide Separated.Split, Separated.Join, Written;
    WrittenSplit(a);
    WrittenSplit(b);
    var more := Written(b)[|Written(a)|..] + [""];
    forall i | 0 <= i < |more| ensures '/' !in more[i] {
      var k := |Written(a)| + i;
      assert more[i] == Split(b)[k];
      Separated.SplitHasNone(b, '/', k);
    }
    var rest := Join(more);
    Separated.SplitJoin(more, '/');
    SplitAtSlash(a, rest);
    assert Split(a)[..|Split(a)| - 1] == Written(a);
    assert Split(a + rest) == Written(a) + more == Split(b);
    Separated.JoinSplit(a + rest, '/');
    Separated.JoinSplit(b, '/');
    assert (a + rest)[..|a|] == a;
  }

  /** The directory, given by its components, lies under one of the roots. */
  predicate DirectoryUnder(directory: seq<string>, roots: seq<Root>) {
    exists i :: 0 <= i < |roots| && Parts(roots[i].path) <= directory
  }

  /** Some directory lies under roots of both classes. */
  ghost predicate DirectoryShared(authority: seq<Root>, other: seq<Root>) {
    exists directory :: DirectoryUnder(directory, authority) && DirectoryUnder(directory, other)
  }

  ghost predicate AllSlashed(roots: seq<Root>) {
    forall i :: 0 <= i < |roots| ==> EndsWithSlash(roots[i].path)
  }

  /** Whatever is reported is a directory of both classes. */
  lemma ReportedIsShared(authority: seq<Root>, other: seq<Root>)
    requires AllSlashed(authority) && AllSlashed(other) && Reported(authority, other)
    ensures DirectoryShared(authority, other)
  {
    hide Parts, Collisions, CrossHits;
    ReportedExact(authority, other);
    var i, j :| 0 <= i < |authority| && 0 <= j < |other| && Clash(authority[i], other[j]);
    var a, b := authority[i].path, other[j].path;
    assert EndsWithSlash(a) && EndsWithSlash(b);
    if a <= b {
      PartsBelow(a, b[|a|..]);
      assert b == a + b[|a|..];
      assert DirectoryUnder(Parts(b), authority) && DirectoryUnder(Parts(b), other);
    } else {
      PartsBelow(b, a[|b|..]);
      assert a == b + a[|b|..];
      assert DirectoryUnder(Parts(a), authority) && DirectoryUnder(Parts(a), other);
    }
  }

  /** One list continues the other. */
  predicate Comparable(a: seq<string>, b: seq<string>) {
    a <= b || b <= a
  }

  /** The lists agree up to a place where both go on, and go on differently. */
  predicate Parted(a: seq<string>, b: seq<string>, k: nat) {
    k < |a| && k < |b| && a[..k] == b[..k] && a[k] != b[k]
  }

  /**
   The spellings of nested directories part: behind equal written components one of them goes on with an empty or
   a dot component where the other does not, and what they name from there on is still nested.
   */
  ghost predicate SpeltApart(a: string, b: string)
    requires EndsWithSlash(a) && EndsWithSlash(b)
  {
    exists k: nat :: Parted(Written(a), Written(b), k) &&
                     (Skipped(Written(a)[k]) || Skipped(Written(b)[k])) &&
                     Comparable(Named(Written(a)[k..]), Named(Written(b)[k..]))
  }

  predicate Skipped(part: string) {
    part == "" || part == "."
  }

  /** Lists that are not comparable part at some place. */
  lemma {:induction false} PartedSomewhere(a: seq<string>, b: seq<string>) returns (k: nat)
    requires !Comparable(a, b)
    ensures Parted(a, b, k)
  {
    if a[0] != b[0] {
      k := 0;
    } else {
      assert a == [a[0]] + a[1..] && b == [b[0]] + b[1..];
      k := PartedSomewhere(a[1..], b[1..]);
      assert a[..k + 1] == [a[0]] + a[1..][..k] && b[..k + 1] == [b[0]] + b[1..][..k];
      k := k + 1;
    }
  }

  lemma PartedApart(a: seq<string>, b: seq<string>, k: nat)
    requires Parted(a, b, k)
    ensures !Comparable(a, b)
  {
  }

  /** Equal fronts do not matter for what is named behind them. */
  lemma NamedBehind(a: seq<string>, b: seq<string>, k: nat)
    requires k <= |a| && k <= |b| && a[..k] == b[..k]
    ensures Comparable(Named(a), Named(b)) <==> Comparable(Named(a[k..]), Named(b[k..]))
  {
    hide Named;
    NamedJoin(a[..k], a[k..]);
    NamedJoin(b[..k], b[k..]);
    assert a == a[..k] + a[k..] && b == b[..k] + b[k..];
    FrontsDrop(Named(a[..k]), Named(a[k..]), Named(b[k..]));
  }

  lemma FrontsDrop(front: seq<string>, a: seq<string>, b: seq<string>)
    ensures Comparable(front + a, front + b) <==> Comparable(a, b)
  {
    assert a == (front + a)[|front|..] && b == (front + b)[|front|..];
    if front + a <= front + b {
      assert a == (front + b)[..|front + a|][|front|..] == b[..|a|];
    }
    if front + b <= front + a {
      assert b == (front + a)[..|front + b|][|front|..] == a[..|b|];
    }
  }

  /** Two different first components that are both named keep the named lists apart. */
  lemma NamedPart(a: seq<string>, b: seq<string>)
    requires a != [] && b != [] && a[0] != b[0] && !Skipped(a[0]) && !Skipped(b[0])
    ensures !Comparable(Named(a), Named(b))
  {
    assert Named(a)[0] == a[0] && Named(b)[0] == b[0];
  }

  /** Two roots with a directory in common go unreported exactly when their spellings part. */
  lemma SpeltApartExact(a: Root, b: Root)
    requires EndsWithSlash(a.path) && EndsWithSlash(b.path)
    ensures SpeltApart(a.path, b.path) <==> Comparable(Parts(a.path), Parts(b.path)) && !Clash(a, b)
  {
    hide Parts, Written, Named, Skipped;
    var v, w := Written(a.path), Written(b.path);
    WrittenSplit(a.path);
    WrittenSplit(b.path);
    WrittenPrefix(a.path, b.path);
    WrittenPrefix(b.path, a.path);
    assert Clash(a, b) <==> Comparable(v, w);
    if SpeltApart(a.path, b.path) {
      var k: nat :| Parted(v, w, k) && Comparable(Named(v[k..]), Named(w[k..]));
      PartedApart(v, w, k);
      NamedBehind(v, w, k);
    }
    if Comparable(Parts(a.path), Parts(b.path)) && !Clash(a, b) {
      var k := PartedSomewhere(v, w);
      NamedBehind(v, w, k);
      if !Skipped(v[k]) && !Skipped(w[k]) {
        NamedPart(v[k..], w[k..]);
      }
    }
  }

  /** No root of one class parts from a root of the other. */
  ghost predicate SpeltTogether(authority: seq<Root>, other: seq<Root>)
    requires Valid(authority) && Valid(other)
  {
    forall i, j :: 0 <= i < |authority| && 0 <= j < |other| ==> !SpeltApart(authority[i].path, other[j].path)
  }

  lemma SharedExact(authority: seq<Root>, other: seq<Root>)
    ensures DirectoryShared(authority, other) <==>
            exists i, j :: 0 <= i < |authority| && 0 <= j < |other| &&
                           Comparable(Parts(authority[i].path), Parts(other[j].path))
  {
    hide Parts;
    if DirectoryShared(authority, other) {
      var directory :| DirectoryUnder(directory, authority) && DirectoryUnder(directory, other);
      var i :| 0 <= i < |authority| && Parts(authority[i].path) <= directory;
      var j :| 0 <= j < |other| && Parts(other[j].path) <= directory;
      FrontsCompare(Parts(authority[i].path), Parts(other[j].path), directory);
    }
    if i, j :| 0 <= i < |authority| && 0 <= j < |other| &&
               Comparable(Parts(authority[i].path), Parts(other[j].path)) {
      var a, b := Parts(authority[i].path), Parts(other[j].path);
      var directory := if a <= b then b else a;
      assert DirectoryUnder(directory, authority) && DirectoryUnder(directory, other);
    }
  }

  lemma FrontsCompare(a: seq<string>, b: seq<string>, whole: seq<string>)
    requires a <= whole && b <= whole
    ensures Comparable(a, b)
  {
    if |a| <= |b| {
      assert a == whole[..|a|] == b[..|a|];
    } else {
      assert b == whole[..|b|] == a[..|b|];
    }
  }

  /** Without roots that part, an overlap is reported exactly when some directory has both classes. */
  lemma OverlapIsSharedDirectory(authority: seq<Root>, other: seq<Root>)
    requires Valid(authority) && Valid(other) && SpeltTogether(authority, other)
    ensures Reported(authority, other) <==> DirectoryShared(authority, other)
  {
    hide Parts, Collisions, CrossHits, Clash, Comparable;
    ReportedExact(authority, other);
    SharedExact(authority, other);
    if Reported(authority, other) {
      ReportedIsShared(authority, other);
    }
    if i, j :| 0 <= i < |authority| && 0 <= j < |other| &&
               Comparable(Parts(authority[i].path), Parts(other[j].path)) {
      SpeltApartExact(authority[i], other[j]);
      assert !SpeltApart(authority[i].path, other[j].path);
      assert Clash(authority[i], other[j]);
    }
  }

  /** One root of each list, each of them a list of its own. */
  ghost predicate PairsExact(authority: seq<Root>, other: seq<Root>) {
    forall i, j :: 0 <= i < |authority| && 0 <= j < |other| ==>
      (Reported([authority[i]], [other[j]]) <==> DirectoryShared([authority[i]], [other[j]]))
  }

  /** The sets of spellings for which the check is exact, root by root: those in which no two roots part. */
  lemma SpellingExact(authority: seq<Root>, other: seq<Root>)
    requires Valid(authority) && Valid(other)
    ensures PairsExact(authority, other) <==> SpeltTogether(authority, other)
  {
    hide Reported, DirectoryShared, SpeltApart;
    forall i, j | 0 <= i < |authority| && 0 <= j < |other|
      ensures (Reported([authority[i]], [other[j]]) <==> DirectoryShared([authority[i]], [other[j]])) <==>
              !SpeltApart(authority[i].path, other[j].path)
    {
      PairExact(authority[i], other[j]);
    }
  }

  lemma PairExact(a: Root, b: Root)
    requires EndsWithSlash(a.path) && EndsWithSlash(b.path)
    ensures (Reported([a], [b]) <==> DirectoryShared([a], [b])) <==> !SpeltApart(a.path, b.path)
  {
    hide Parts, Collisions, CrossHits, Clash, SpeltApart, DirectoryShared;
    ReportedExact([a], [b]);
    SharedExact([a], [b]);
    SpeltApartExact(a, b);
    assert NoClash([a], [b]) <==> !Clash([a][0], [b][0]);
    assert DirectoryShared([a], [b]) <==> Comparable(Parts([a][0].path), Parts([b][0].path));
    if Reported([a], [b]) {
      ReportedIsShared([a], [b]);
    }
  }

  /** Roots without empty and dot components never part. */
  lemma PlainTogether(a: string, b: string)
    requires EndsWithSlash(a) && EndsWithSlash(b)
    requires forall k :: 0 <= k < |Written(a)| ==> !Skipped(Written(a)[k])
    requires forall k :: 0 <= k < |Written(b)| ==> !Skipped(Written(b)[k])
    ensures !SpeltApart(a, b)
  {
    hide Written, Named, Skipped;
  }

  /** A leading dot component is well shaped, names the same directory, and is not reported. */
  lemma DotRootUnseen(name: string)
    requires name != "" && '/' !in name && name[0] != '.'
    ensures var plain, dotted := name + "/", "./" + name + "/";
            RootProblem(plain).None? && RootProblem(dotted).None? && Parts(plain) == Parts(dotted) == [name] &&
            !Reported([Root("a", plain)], [Root("b", dotted)])
  {
    hide Parts, Collisions, CrossHits, RootProblem;
    var plain, dotted := name + "/", "./" + name + "/";
    DotParts(name);
    assert plain[0] == name[0] && dotted[0] == '.';
    WellShaped(plain, name);
    WellShaped(dotted, name);
    ReportedExact([Root("a", plain)], [Root("b", dotted)]);
  }

  lemma DotParts(name: string)
    requires name != "" && '/' !in name && name[0] != '.'
    ensures Parts(name + "/") == Parts("./" + name + "/") == [name]
  {
    hide Separated.Split, Named;
    Separated.SplitSegment(name, "", '/');
    assert name + "/" == name + "/" + "" && "./" + name + "/" == "." + "/" + (name + "/");
    Separated.SplitSegment(".", name + "/", '/');
    SplitNothing();
    assert [name] + [""] == [name, ""] && ["."] + [name, ""] == [".", name, ""];
    NamedTwo(name);
  }

  lemma WellShaped(root: string, name: string)
    requires root != "" && root[0] != '/' && root[|root| - 1] == '/' && Parts(root) == [name] && name != ".."
    ensures RootProblem(root).None?
  {
    hide Parts;
  }

  lemma NamedTwo(name: string)
    requires name != "" && name != "."
    ensures Named([name, ""]) == [name] && Named([".", name, ""]) == [name]
  {
    NamedLast();
    assert [name, ""][1..] == [""] && [".", name, ""][1..] == [name, ""];
  }
}
