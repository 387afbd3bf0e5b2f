/**
 The publication manifest: its entries, its tombstones for removed schemas, and the comparison with a base revision.
 A revision is the loaded catalog (records of the entry and tombstone directories) and the files of the tree; the base
 is read through git in the source, and both readings of one revision agree here.
 */
module SchemaPublication {
  import opened Json
  import opened Options
  import opened JsonPointer
  import opened Ordering
  import opened SchemaGate
  import opened SchemaSpelling

  const SCHEMAS_PREFIX := "contracts/schemas/"

  /** The files map holds each file's decoded content, or None for text that is not JSON. */
  datatype Revision = Revision(payload: seq<Field>, files: map<string, Option<Json>>)

  datatype ManifestEntry = ManifestEntry(contractId: string, schemaPath: string, stability: string, schema: Json)

  datatype Failure =
    | BadSchemaVersion
    | RetiredManifestKey
    | NoEntries
    | NotAnObject(index: nat)
    | BadContractId(index: nat)
    | BadSchemaPath(id: string)
    | BadStability(id: string)
    | RetiredEntryKey(id: string, key: string)
    | NotSorted
    | DuplicateId(id: string)
    | DuplicatePath(path: string)
    | NotNormalized(path: string)
    | NotUnderSchemas(path: string)
    | NotAJsonFile(path: string)
    | ResolvesOutside(path: string)
    | DoesNotExist(path: string)
    | StemMismatch(id: string, stem: string)
    | NotValidJson(path: string)
    | NotListed(path: string)
    | NotPublished(path: string)
    | TombstonesNotAList
    | BadTombstone(index: nat)
    | StillPublished(path: string)
    | BaseUnreadable
    | PathChanged(id: string)
    | BaseSchemaMissing(id: string)
    | BaseSchemaInvalid(id: string)
    | ChangedIncompatibly(id: string, changes: seq<Change>)
    | UnrecordedRemoval(path: string)

  // ---- Paths --------------------------------------------------------------------------------------------------

  /** `path == Path(path).as_posix()` for a non-empty relative path other than ".". */
  predicate IsNormalized(path: string) {
    var parts := Split(path);
    forall i :: 0 <= i < |parts| ==> parts[i] != "" && parts[i] != "."
  }

  predicate EndsWith(s: string, suffix: string) {
    |suffix| <= |s| && s[|s| - |suffix|..] == suffix
  }

  /** The parts with each `..` taken back, or None above the repository root. */
  function Collapse(parts: seq<string>, stack: seq<string>): Option<seq<string>> {
    if parts == [] then Some(stack)
    else if parts[0] == ".." then
      if stack == [] then None else Collapse(parts[1..], stack[..|stack| - 1])
    else Collapse(parts[1..], stack + [parts[0]])
  }

  /** `_safe_schema_path` in a tree without symbolic links: the file that the path names, inside contracts/schemas. */
  function Resolve(path: string): Option<string> {
    match Collapse(Split(path), [])
    case Some(parts) =>
      if |parts| >= 2 && parts[0] == "contracts" && parts[1] == "schemas" then Some(Join(parts)) else None
    case None => None
  }

  /** The name up to its last dot, when a character other than a dot is left; else the whole name. */
  function StemOf(name: string, at: nat): string
    requires at <= |name|
  {
    if at == 0 then name
    else if name[at - 1] == '.' then
      if exists i :: 0 <= i < at - 1 && name[i] != '.' then name[..at - 1] else name
    else StemOf(name, at - 1)
  }

  /** `Path(path).stem`. */
  function Stem(path: string): string {
    var parts := Split(path);
    var name := parts[|parts| - 1];
    StemOf(name, |name|)
  }

  // ---- Records ------------------------------------------------------------------------------------------------

  function TextField(record: seq<Field>, key: string): Option<string> {
    match Find(record, key)
    case Some(Str(s)) => Some(s)
    case _ => None
  }

  /** `isinstance(value, str) and value`. */
  predicate HasText(record: seq<Field>, key: string) {
    TextField(record, key).Some? && TextField(record, key).value != ""
  }

  /** `Find(record, key)` with JSON null read as absence, as `dict.get` callers do. */
  function Present(record: seq<Field>, key: string): Option<Json> {
    match Find(record, key)
    case Some(Null) => None
    case other => other
  }

  predicate IsStability(s: string) {
    s == "draft" || s == "stable"
  }

  function EntryId(item: Json): string {
    if item.Obj? && TextField(item.fields, "contract_id").Some? then TextField(item.fields, "contract_id").value else ""
  }

  function EntryPath(item: Json): string {
    if item.Obj? && TextField(item.fields, "schema_path").Some? then TextField(item.fields, "schema_path").value else ""
  }

  function EntryStability(item: Json): string {
    if item.Obj? && TextField(item.fields, "stability").Some? then TextField(item.fields, "stability").value else ""
  }

  /** The path names a schema file of the tree, by a normalized path under contracts/schemas. */
  predicate PathSound(path: string, files: map<string, Option<Json>>) {
    && IsNormalized(path) && !("/" <= path) && !("../" <= path)
    && SCHEMAS_PREFIX <= path && EndsWith(path, ".json")
    && Resolve(path).Some? && Resolve(path).value in files
  }

  /** One entry on its own is in order. */
  predicate EntrySound(item: Json, files: map<string, Option<Json>>) {
    && EntryId(item) != "" && EntryPath(item) != "" && IsStability(EntryStability(item))
    && Find(item.fields, "content_hash").None? && Find(item.fields, "last_change").None?
    && PathSound(EntryPath(item), files)
    && Stem(Resolve(EntryPath(item)).value) == EntryId(item)
    && files[Resolve(EntryPath(item)).value].Some?
  }

  /** The content that the path of an entry leads to; null when there is none. */
  function SchemaAt(path: string, files: map<string, Option<Json>>): Json {
    match Resolve(path)
    case Some(file) => if file in files && files[file].Some? then files[file].value else Null
    case None => Null
  }

  /** An entry as the loop sees it: whether it is sound, and the record that it then contributes. */
  datatype View = View(sound: bool, entry: ManifestEntry) {
    function Id(): string { entry.contractId }
    function Path(): string { entry.schemaPath }
  }

  function ViewOf(item: Json, files: map<string, Option<Json>>): View {
    View(EntrySound(item, files),
         ManifestEntry(EntryId(item), EntryPath(item), EntryStability(item), SchemaAt(EntryPath(item), files)))
  }

  /** The checks of one entry up to the point where its id and path are recorded. */
  method CheckIdentity(index: nat, item: Json, previous: string, ids: set<string>, seen: set<string>)
    returns (failures: seq<Failure>, identified: bool)
    ensures identified <==> EntryId(item) != "" && EntryPath(item) != ""
    ensures failures == [] <==>
            && identified && IsStability(EntryStability(item))
            && Find(item.fields, "content_hash").None? && Find(item.fields, "last_change").None?
            && StringLess(previous, EntryId(item)) && EntryId(item) !in ids && EntryPath(item) !in seen
  {
    failures, identified := [], false;
    if !item.Obj? {
      return [NotAnObject(index)], false;
    }
    if !HasText(item.fields, "contract_id") {
      return [BadContractId(index)], false;
    }
    var id := TextField(item.fields, "contract_id").value;
    if !HasText(item.fields, "schema_path") {
      return [BadSchemaPath(id)], false;
    }
    var path := TextField(item.fields, "schema_path").value;
    identified := true;
    if !IsStability(EntryStability(item)) {
      failures := failures + [BadStability(id)];
    }
    if Find(item.fields, "content_hash").Some? {
      failures := failures + [RetiredEntryKey(id, "content_hash")];
    }
    if Find(item.fields, "last_change").Some? {
      failures := failures + [RetiredEntryKey(id, "last_change")];
    }
    StringLeqTotal(id, previous);
    StringLeqReflexive(id);
    if StringLeq(id, previous) {
      failures := failures + [NotSorted];
      if StringLess(previous, id) {
        StringLeqAntisymmetric(previous, id);
      }
    }
    if id in ids {
      failures := failures + [DuplicateId(id)];
    }
    if path in seen {
      failures := failures + [DuplicatePath(path)];
    }
  }

  /** The checks of the path and the file of one entry. */
  method CheckFile(item: Json, files: map<string, Option<Json>>)
    returns (failures: seq<Failure>, listed: bool, schema: Option<Json>)
    ensures failures == [] <==>
            && PathSound(EntryPath(item), files)
            && Stem(Resolve(EntryPath(item)).value) == EntryId(item)
            && files[Resolve(EntryPath(item)).value].Some?
    ensures failures == [] ==> listed && schema == Some(SchemaAt(EntryPath(item), files))
    ensures listed ==> SCHEMAS_PREFIX <= EntryPath(item)
  {
    var path := EntryPath(item);
    if !IsNormalized(path) || "/" <= path || "../" <= path {
      return [NotNormalized(path)], false, None;
    }
    if !(SCHEMAS_PREFIX <= path) {
      return [NotUnderSchemas(path)], false, None;
    }
    if !EndsWith(path, ".json") {
      return [NotAJsonFile(path)], false, None;
    }
    var resolved := Resolve(path);
    if resolved.None? {
      return [ResolvesOutside(path)], false, None;
    }
    if resolved.value !in files {
      return [DoesNotExist(path)], true, None;
    }
    failures := [];
    if Stem(resolved.value) != EntryId(item) {
      failures := failures + [StemMismatch(EntryId(item), Stem(resolved.value))];
    }
    if files[resolved.value].None? {
      return failures + [NotValidJson(path)], true, None;
    }
    return failures, true, files[resolved.value];
  }

  /** The variables of the entry loop. */
  datatype Loop = Loop(previous: string, ids: set<string>, seen: set<string>, paths: set<string>,
                       validated: seq<ManifestEntry>)

  /** A pass adds no failure exactly on a sound entry that sorts after, and repeats nothing of, what came before. */
  predicate Accepts(before: Loop, view: View) {
    view.sound && StringLess(before.previous, view.Id()) && view.Id() !in before.ids && view.Path() !in before.seen
  }

  function Accepted(before: Loop, view: View): Loop {
    Loop(view.Id(), before.ids + {view.Id()}, before.seen + {view.Path()}, before.paths + {view.Path()},
         before.validated + [view.entry])
  }

  predicate UnderSchemas(paths: set<string>) {
    forall p :: p in paths ==> SCHEMAS_PREFIX <= p
  }

  /** One pass of the entry loop. */
  method CheckEntry(entries: seq<Json>, index: nat, files: map<string, Option<Json>>, before: Loop)
    returns (failures: seq<Failure>, after: Loop)
    requires index < |entries|
    ensures var view := ViewAll(entries, files)[index];
            && (view.sound ==> view.Id() != "")
            && (failures == [] <==> Accepts(before, view))
            && (failures == [] ==> after == Accepted(before, view))
    ensures UnderSchemas(before.paths) ==> UnderSchemas(after.paths)
  {
    var item := entries[index];
    ViewAllAt(entries, files, index);
    after := before;
    var found, identified := CheckIdentity(index, item, before.previous, before.ids, before.seen);
    failures := found;
    if identified {
      var id, path := EntryId(item), EntryPath(item);
      after := after.(previous := id, ids := before.ids + {id}, seen := before.seen + {path});
      var wrong, listed, schema := CheckFile(item, files);
      failures := failures + wrong;
      if listed {
        after := after.(paths := before.paths + {path});
      }
      if schema.Some? && IsStability(EntryStability(item)) {
        var entry := ManifestEntry(id, path, EntryStability(item), schema.value);
        after := after.(validated := before.validated + [entry]);
      }
    }
  }

  // ---- All entries --------------------------------------------------------------------------------------------

  function ViewAll(entries: seq<Json>, files: map<string, Option<Json>>): (r: seq<View>)
    ensures |r| == |entries|
  {
    if entries == [] then [] else [ViewOf(entries[0], files)] + ViewAll(entries[1..], files)
  }

  lemma {:induction false} ViewAllAt(entries: seq<Json>, files: map<string, Option<Json>>, i: nat)
    requires i < |entries|
    ensures ViewAll(entries, files)[i] == ViewOf(entries[i], files)
    ensures ViewAll(entries, files)[i].sound ==> ViewAll(entries, files)[i].Id() != ""
  {
    if i > 0 {
      ViewAllAt(entries[1..], files, i - 1);
    }
  }

  /** The entries are in order: each one sound, ids strictly ascending, no path twice. */
  ghost predicate InOrder(views: seq<View>) {
    && (forall i :: 0 <= i < |views| ==> views[i].sound)
    && (forall i, j :: 0 <= i < j < |views| ==> StringLess(views[i].Id(), views[j].Id()))
    && (forall i, j :: 0 <= i < j < |views| ==> views[i].Path() != views[j].Path())
  }

  function PathsOf(views: seq<View>): set<string> {
    set i | 0 <= i < |views| :: views[i].Path()
  }

  function IdsOf(views: seq<View>): set<string> {
    set i | 0 <= i < |views| :: views[i].Id()
  }

  function EntriesOf(views: seq<View>): (r: seq<ManifestEntry>)
    ensures |r| == |views| && forall i :: 0 <= i < |r| ==> r[i] == views[i].entry
  {
    if views == [] then [] else EntriesOf(views[..|views| - 1]) + [views[|views| - 1].entry]
  }

  /** The next entry keeps the order exactly when its own checks against the state of the loop pass. */
  lemma NextEntry(views: seq<View>, next: View, previous: string)
    requires InOrder(views)
    requires previous == if views == [] then "" else views[|views| - 1].Id()
    requires next.sound ==> next.Id() != ""
    ensures InOrder(views + [next]) <==>
            next.sound && StringLess(previous, next.Id()) && next.Id() !in IdsOf(views) &&
            next.Path() !in PathsOf(views)
  {
    var all := views + [next];
    var n := |views|;
    if InOrder(all) {
      assert all[n] == next && forall i :: 0 <= i < n ==> all[i] == views[i];
      assert StringLess(previous, next.Id()) by {
        if n == 0 {
          assert next.sound;
        } else {
          assert StringLess(all[n - 1].Id(), all[n].Id());
        }
      }
      forall i | 0 <= i < n ensures views[i].Id() != next.Id() && views[i].Path() != next.Path() {
        assert StringLess(all[i].Id(), all[n].Id()) && all[i].Path() != all[n].Path();
      }
    } else if next.sound && StringLess(previous, next.Id()) && next.Path() !in PathsOf(views) {
      forall i | 0 <= i < n ensures StringLess(views[i].Id(), next.Id()) && views[i].Path() != next.Path() {
        assert views[i].Path() in PathsOf(views);
        if i < n - 1 {
          StringLessTransitive(views[i].Id(), previous, next.Id());
        }
      }
      assert InOrder(all);
    }
  }

  lemma UnsoundPrefix(views: seq<View>, next: View)
    requires !InOrder(views)
    ensures !InOrder(views + [next])
  {
    var all := views + [next];
    assert forall i :: 0 <= i < |views| ==> all[i] == views[i];
  }

  lemma GrowSets(views: seq<View>, next: View)
    ensures PathsOf(views + [next]) == PathsOf(views) + {next.Path()}
    ensures IdsOf(views + [next]) == IdsOf(views) + {next.Id()}
    ensures EntriesOf(views + [next]) == EntriesOf(views) + [next.entry]
  {
    var all := views + [next];
    assert all[|views|] == next && all[..|views|] == views;
    assert forall i :: 0 <= i < |views| ==> all[i] == views[i];
  }

  /** The loop state after a prefix of the entries; `ok` says that no failure was added so far. */
  ghost predicate Tracks(views: seq<View>, ok: bool, s: Loop) {
    && (ok <==> InOrder(views))
    && (ok ==>
          && s.previous == (if views == [] then "" else views[|views| - 1].Id())
          && s.ids == IdsOf(views) && s.seen == PathsOf(views) && s.paths == PathsOf(views)
          && s.validated == EntriesOf(views))
  }

  lemma Advance(views: seq<View>, next: View, ok: bool, s: Loop, s': Loop)
    requires Tracks(views, ok, s) && (next.sound ==> next.Id() != "")
    requires Accepts(s, next) ==> s' == Accepted(s, next)
    ensures Tracks(views + [next], ok && Accepts(s, next), s')
  {
    GrowSets(views, next);
    if ok {
      NextEntry(views, next, s.previous);
    } else {
      UnsoundPrefix(views, next);
    }
  }

  lemma TracksNothing()
    ensures Tracks([], true, Loop("", {}, {}, {}, [])) && UnderSchemas({})
  {
    assert IdsOf([]) == {} && PathsOf([]) == {};
  }

  /** The entry loop of `validate_schema_publication_manifest`: it is silent exactly on entries in order. */
  method CheckEntries(entries: seq<Json>, files: map<string, Option<Json>>)
    returns (failures: seq<Failure>, state: Loop)
    ensures Tracks(ViewAll(entries, files), failures == [], state)
    ensures UnderSchemas(state.paths)
  {
    hide ViewAll, Tracks, Accepts, Accepted, UnderSchemas;
    TracksNothing();
    failures, state := [], Loop("", {}, {}, {}, []);
    ghost var views := ViewAll(entries, files);
    for k := 0 to |entries|
      invariant Tracks(views[..k], failures == [], state)
      invariant UnderSchemas(state.paths)
    {
      var found, next := CheckEntry(entries, k, files, state);
      Advance(views[..k], views[k], failures == [], state, next);
      assert views[..k + 1] == views[..k] + [views[k]];
      failures := failures + found;
      state := next;
    }
    assert views[..|entries|] == views;
  }

  // ---- Tombstones ---------------------------------------------------------------------------------------------

  predicate IsBlank(s: string) {
    forall i :: 0 <= i < |s| ==> s[i] == ' ' || '\t' <= s[i] <= '\r'
  }

  predicate TombstoneSound(item: Json) {
    && item.Obj? && HasText(item.fields, "schema_path")
    && TextField(item.fields, "summary").Some? && !IsBlank(TextField(item.fields, "summary").value)
  }

  /** A tombstone record as the loop sees it. */
  datatype Tombstone = Tombstone(sound: bool, path: string)

  function TombstonesOf(items: seq<Json>): (r: seq<Tombstone>)
    ensures |r| == |items|
  {
    if items == [] then [] else [Tombstone(TombstoneSound(items[0]), EntryPath(items[0]))] + TombstonesOf(items[1..])
  }

  lemma {:induction false} TombstonesAt(items: seq<Json>, i: nat)
    requires i < |items|
    ensures TombstonesOf(items)[i] == Tombstone(TombstoneSound(items[i]), EntryPath(items[i]))
  {
    if i > 0 {
      TombstonesAt(items[1..], i - 1);
    }
  }

  /** The paths of the sound tombstones. */
  function TombstonePaths(marks: seq<Tombstone>): set<string> {
    set i | 0 <= i < |marks| && marks[i].sound :: marks[i].path
  }

  predicate TombstonesSound(marks: seq<Tombstone>) {
    forall i :: 0 <= i < |marks| ==> marks[i].sound
  }

  /** `removed_schemas` as a list: absent counts as empty. */
  function TombstoneList(payload: seq<Field>): Option<seq<Json>> {
    match Present(payload, "removed_schemas")
    case None => Some([])
    case Some(Arr(items)) => Some(items)
    case _ => None
  }

  method CheckTombstone(items: seq<Json>, index: nat) returns (mark: Tombstone)
    requires index < |items|
    ensures mark == TombstonesOf(items)[index]
  {
    TombstonesAt(items, index);
    mark := Tombstone(TombstoneSound(items[index]), EntryPath(items[index]));
  }

  /** The loop of `_removal_ledger`; its dict is represented by its keys. */
  method ReadTombstones(items: seq<Json>) returns (tombstones: set<string>, failures: seq<Failure>)
    ensures tombstones == TombstonePaths(TombstonesOf(items))
    ensures failures == [] <==> TombstonesSound(TombstonesOf(items))
  {
    hide TombstonesOf;
    tombstones, failures := {}, [];
    ghost var marks := TombstonesOf(items);
    for k := 0 to |items|
      invariant tombstones == TombstonePaths(marks[..k])
      invariant failures == [] <==> TombstonesSound(marks[..k])
    {
      var mark := CheckTombstone(items, k);
      assert marks[..k + 1][k] == mark && forall i :: 0 <= i < k ==> marks[..k + 1][i] == marks[..k][i];
      assert TombstonePaths(marks[..k + 1]) == TombstonePaths(marks[..k]) + if mark.sound then {mark.path} else {};
      if mark.sound {
        tombstones := tombstones + {mark.path};
      } else {
        failures := failures + [BadTombstone(k)];
      }
    }
    assert marks[..|items|] == marks;
  }

  // ---- Against the base revision ------------------------------------------------------------------------------

  /** `_manifest_entries`: the records by id, a later record replacing an earlier one. */
  function ManifestEntries(records: seq<Json>): map<string, Json> {
    if records == [] then map[] else
      var k := |records| - 1;
      var earlier := ManifestEntries(records[..k]);
      if records[k].Obj? && TextField(records[k].fields, "contract_id").Some? then
        earlier[EntryId(records[k]) := records[k]]
      else earlier
  }

  function Records(payload: seq<Field>): seq<Json> {
    match Find(payload, "schemas")
    case Some(Arr(items)) => items
    case _ => []
  }

  /** The base manifest: None when it could not be read. */
  type Base = Option<map<string, Json>>

  /** `base_entry.get("schema_path")` of the base record of the id, when that record is stable and the path is text. */
  function StableBasePath(base: map<string, Json>, id: string): Option<string> {
    if id in base && base[id].Obj? && EntryStability(base[id]) == "stable" then
      TextField(base[id].fields, "schema_path")
    else None
  }

  /** What the loop of `_check_stable_schema_changes` asks of one stable entry. */
  predicate StableKept(entry: ManifestEntry, base: map<string, Json>, blobs: map<string, Option<Json>>) {
    var path := StableBasePath(base, entry.contractId);
    path.Some? ==>
      && path.value == entry.schemaPath
      && path.value in blobs && blobs[path.value].Some?
      && StepPasses(blobs[path.value].value, entry.schema)
  }

  predicate AllStableKept(entries: seq<ManifestEntry>, base: map<string, Json>, blobs: map<string, Option<Json>>) {
    forall i :: 0 <= i < |entries| && entries[i].stability == "stable" ==> StableKept(entries[i], base, blobs)
  }

  predicate AnyStable(entries: seq<ManifestEntry>) {
    exists i :: 0 <= i < |entries| && entries[i].stability == "stable"
  }

  method CheckStable(entry: ManifestEntry, base: map<string, Json>, blobs: map<string, Option<Json>>)
    returns (failures: seq<Failure>)
    ensures failures == [] <==> StableKept(entry, base, blobs)
  {
    var path := StableBasePath(base, entry.contractId);
    if path.None? {
      return [];
    }
    if path.value != entry.schemaPath {
      return [PathChanged(entry.contractId)];
    }
    if path.value !in blobs {
      return [BaseSchemaMissing(entry.contractId)];
    }
    if blobs[path.value].None? {
      return [BaseSchemaInvalid(entry.contractId)];
    }
    var before := blobs[path.value].value;
    if Equal(Python, before, entry.schema) {
      return [];
    }
    var changes := CheckSchemas(before, entry.schema);
    return if changes == [] then [] else [ChangedIncompatibly(entry.contractId, changes)];
  }

  /** `_check_stable_schema_changes`. */
  method CheckStableSchemaChanges(entries: seq<ManifestEntry>, base: Base, blobs: map<string, Option<Json>>)
    returns (failures: seq<Failure>)
    ensures failures == [] <==> (AnyStable(entries) ==> base.Some? && AllStableKept(entries, base.value, blobs))
  {
    hide StableKept;
    failures := [];
    if !AnyStable(entries) {
      return;
    }
    if base.None? {
      return [BaseUnreadable];
    }
    for k := 0 to |entries|
      invariant failures == [] <==> AllStableKept(entries[..k], base.value, blobs)
    {
      assert AllStableKept(entries[..k + 1], base.value, blobs) <==>
             && AllStableKept(entries[..k], base.value, blobs)
             && (entries[k].stability == "stable" ==> StableKept(entries[k], base.value, blobs)) by {
        assert forall i :: 0 <= i < k ==> entries[..k + 1][i] == entries[..k][i];
        assert entries[..k + 1][k] == entries[k];
      }
      if entries[k].stability == "stable" {
        var found := CheckStable(entries[k], base.value, blobs);
        failures := failures + found;
      }
    }
    assert entries[..|entries|] == entries;
  }

  /** The schema paths that the base manifest published. */
  function BasePaths(base: map<string, Json>): set<string> {
    set id | id in base && SCHEMAS_PREFIX <= EntryPath(base[id]) :: EntryPath(base[id])
  }

  function CurrentPaths(entries: seq<ManifestEntry>): set<string> {
    set i | 0 <= i < |entries| :: entries[i].schemaPath
  }

  /** Every schema that the base published is still listed or has a tombstone. */
  predicate RemovalsRecorded(entries: seq<ManifestEntry>, base: Base, tombstones: set<string>) {
    base.Some? ==> BasePaths(base.value) <= CurrentPaths(entries) + tombstones
  }

  /** `_check_removal_ledger`. */
  method CheckRemovalLedger(entries: seq<ManifestEntry>, base: Base, tombstones: set<string>)
    returns (failures: seq<Failure>)
    ensures failures == [] <==> RemovalsRecorded(entries, base, tombstones)
  {
    hide BasePaths, CurrentPaths, SortedSet, StrictlySorted;
    failures := [];
    if base.None? || base.value == map[] {
      NothingPublished();
      return;
    }
    var gone := BasePaths(base.value) - CurrentPaths(entries);
    var removed := SortedSet(gone);
    for k := 0 to |removed|
      invariant failures == [] <==> forall i :: 0 <= i < k ==> removed[i] in tombstones
    {
      if removed[k] !in tombstones {
        failures := failures + [UnrecordedRemoval(removed[k])];
      }
    }
    AllListed(removed, gone, tombstones);
  }

  lemma NothingPublished()
    ensures BasePaths(map[]) == {}
  {
  }

  lemma AllListed(removed: seq<string>, gone: set<string>, tombstones: set<string>)
    requires forall p :: p in removed <==> p in gone
    ensures (forall i :: 0 <= i < |removed| ==> removed[i] in tombstones) <==> gone <= tombstones
  {
    if forall i :: 0 <= i < |removed| ==> removed[i] in tombstones {
      forall p | p in gone ensures p in tombstones {
        assert p in removed;
      }
    } else {
      var i :| 0 <= i < |removed| && removed[i] !in tombstones;
      assert removed[i] in gone;
    }
  }
}
