/**
 What a passing manifest check means: for one revision, a bijection between entries and published files; against a
 base, that nothing vanishes unrecorded; along a run of passing revisions, that a stable contract keeps its path and
 stays compatible from the first revision to the last.
 */
module SchemaHistory {
  import opened Json
  import opened Options
  import opened JsonPointer
  import Separated
  import opened Ordering
  import opened SchemaGate
  import opened SchemaSpelling
  import opened SchemaPublication

  /** What the check reads of a base revision: its manifest, if it can be read, and its files. */
  datatype BaseView = BaseView(manifest: Base, blobs: map<string, Option<Json>>)

  /** `_published_schema_paths`. */
  function Published(files: map<string, Option<Json>>): set<string> {
    set p | p in files && SCHEMAS_PREFIX <= p && EndsWith(p, ".json")
  }

  function ViewsOf(rev: Revision): seq<View> {
    ViewAll(Records(rev.payload), rev.files)
  }

  /** The sound tombstones of a revision; none when the list is malformed. */
  function Ledger(rev: Revision): seq<Tombstone> {
    match TombstoneList(rev.payload)
    case Some(items) => TombstonesOf(items)
    case None => []
  }

  predicate HeaderSound(payload: seq<Field>) {
    && TextField(payload, "schema_version").Some?
    && (|| TextField(payload, "schema_version").value == "schema-publication-manifest/v2"
        || TextField(payload, "schema_version").value == "schema-publication-manifest/v1")
    && Find(payload, "hash_algorithm").None?
    && Records(payload) != []
  }

  /** One revision on its own is in order. */
  ghost predicate CatalogSound(rev: Revision) {
    && HeaderSound(rev.payload)
    && InOrder(ViewsOf(rev))
    && Published(rev.files) == PathsOf(ViewsOf(rev))
    && TombstoneList(rev.payload).Some? && TombstonesSound(Ledger(rev))
    && TombstonePaths(Ledger(rev)) !! PathsOf(ViewsOf(rev))
  }

  ghost predicate RevisionPasses(rev: Revision, base: Option<BaseView>) {
    && CatalogSound(rev)
    && (base.Some? ==>
          var entries := EntriesOf(ViewsOf(rev));
          && (AnyStable(entries) ==>
                base.value.manifest.Some? && AllStableKept(entries, base.value.manifest.value, base.value.blobs))
          && RemovalsRecorded(entries, base.value.manifest, TombstonePaths(Ledger(rev))))
  }

  /** The three loops that compare the listed paths with the published files and with the tombstones. */
  method CompareSets(published: set<string>, paths: set<string>, tombstones: set<string>)
    returns (failures: seq<Failure>)
    requires UnderSchemas(paths)
    ensures failures == [] <==> published == paths && tombstones !! paths
  {
    hide StrictlySorted, SortedSet, EndsWith;
    failures := [];
    var unlisted := SortedSet(published - paths);
    for k := 0 to |unlisted|
      invariant |failures| == k
    {
      failures := failures + [NotListed(unlisted[k])];
    }
    ghost var first := |unlisted|;
    assert first == |published - paths|;
    var unpublished := SortedSet(paths - published);
    for k := 0 to |unpublished|
      invariant |failures| == first + k
    {
      assert unpublished[k] in paths - published;
      if SCHEMAS_PREFIX <= unpublished[k] {
        failures := failures + [NotPublished(unpublished[k])];
      }
    }
    ghost var second := first + |unpublished|;
    assert second == 0 <==> published == paths by {
      if second == 0 {
        assert published - paths == {} && paths - published == {};
      }
    }
    var marked := SortedSet(tombstones);
    for k := 0 to |marked|
      invariant failures == [] <==> second == 0 && forall i :: 0 <= i < k ==> marked[i] !in paths
    {
      if marked[k] in paths {
        failures := failures + [StillPublished(marked[k])];
      }
    }
    assert (forall i :: 0 <= i < |marked| ==> marked[i] !in paths) <==> tombstones !! paths;
  }

  method CheckHeader(payload: seq<Field>) returns (failures: seq<Failure>)
    ensures failures == [] <==> HeaderSound(payload)
  {
    failures := [];
    var version := TextField(payload, "schema_version");
    if version.None? ||
       (version.value != "schema-publication-manifest/v2" && version.value != "schema-publication-manifest/v1") {
      failures := failures + [BadSchemaVersion];
    }
    if Find(payload, "hash_algorithm").Some? {
      failures := failures + [RetiredManifestKey];
    }
    if Records(payload) == [] {
      failures := failures + [NoEntries];
    }
  }

  /** `validate_schema_publication_manifest`, for a catalog that could be loaded. */
  method ValidateManifest(rev: Revision, base: Option<BaseView>) returns (failures: seq<Failure>)
    ensures failures == [] <==> RevisionPasses(rev, base)
  {
    hide InOrder, AllStableKept, RemovalsRecorded;
    failures := CheckHeader(rev.payload);
    if Records(rev.payload) == [] {
      return;
    }
    var found, state := CheckEntries(Records(rev.payload), rev.files);
    failures := failures + found;
    var tombstones: set<string> := {};
    var bad := [TombstonesNotAList];
    if TombstoneList(rev.payload).Some? {
      tombstones, bad := ReadTombstones(TombstoneList(rev.payload).value);
    }
    var apart := CompareSets(Published(rev.files), state.paths, tombstones);
    failures := failures + apart + bad;
    if failures == [] && base.Some? {
      var changed := CheckStableSchemaChanges(state.validated, base.value.manifest, base.value.blobs);
      var removed := CheckRemovalLedger(state.validated, base.value.manifest, tombstones);
      failures := changed + removed;
    }
  }

  // ---- One revision -------------------------------------------------------------------------------------------

  /** No file name goes up a directory: file names of a tree never do. */
  ghost predicate CleanTree(files: map<string, Option<Json>>) {
    forall p :: p in files ==> ".." !in Split(p)
  }

  lemma {:induction false} CollapseClean(parts: seq<string>, stack: seq<string>)
    requires ".." !in parts
    ensures Collapse(parts, stack) == Some(stack + parts)
  {
    if parts == [] {
      assert stack + parts == stack;
    } else {
      CollapseClean(parts[1..], stack + [parts[0]]);
      assert stack + [parts[0]] + parts[1..] == stack + parts;
    }
  }

  lemma PrefixParts(rest: string)
    ensures Split(SCHEMAS_PREFIX + rest) == ["contracts", "schemas"] + Split(rest)
  {
    assert SCHEMAS_PREFIX + rest == "contracts" + "/" + ("schemas" + "/" + rest);
    Separated.SplitSegment("contracts", "schemas" + "/" + rest, '/');
    Separated.SplitSegment("schemas", rest, '/');
  }

  /** A path below contracts/schemas that never goes up names itself. */
  lemma ResolveClean(path: string)
    requires SCHEMAS_PREFIX <= path && ".." !in Split(path)
    ensures Resolve(path) == Some(path)
  {
    assert path == SCHEMAS_PREFIX + path[|SCHEMAS_PREFIX|..];
    PrefixParts(path[|SCHEMAS_PREFIX|..]);
    CollapseClean(Split(path), []);
    assert [] + Split(path) == Split(path);
    Separated.JoinSplit(path, '/');
  }

  /** What holds of entry `i` of a passing revision, in terms of the tree alone. */
  ghost predicate Publishes(rev: Revision, i: nat)
    requires i < |ViewsOf(rev)|
  {
    var entry := ViewsOf(rev)[i].entry;
    && entry.schemaPath in Published(rev.files)
    && entry.contractId == Stem(entry.schemaPath)
    && rev.files[entry.schemaPath] == Some(entry.schema)
    && (entry.stability == "draft" || entry.stability == "stable")
  }

  lemma EntryPublishes(rev: Revision, i: nat)
    requires CatalogSound(rev) && CleanTree(rev.files) && i < |ViewsOf(rev)|
    ensures Publishes(rev, i)
  {
    ViewAllAt(Records(rev.payload), rev.files, i);
    var path := ViewsOf(rev)[i].Path();
    assert path in PathsOf(ViewsOf(rev));
    ResolveClean(path);
  }

  /**
   Zero failures on one revision: ids strictly ascend, and the entries are in bijection with the published files, each
   id being the stem of its file and each record carrying that file's content; no tombstone names a published file.
   */
  lemma ManifestBijection(rev: Revision)
    requires RevisionPasses(rev, None) && CleanTree(rev.files)
    ensures var views := ViewsOf(rev);
            && (forall i, j :: 0 <= i < j < |views| ==> StringLess(views[i].Id(), views[j].Id()))
            && (forall i :: 0 <= i < |views| ==> Publishes(rev, i))
            && (forall p :: p in Published(rev.files) ==> exists i :: 0 <= i < |views| && views[i].Path() == p)
            && (forall i, j :: 0 <= i < j < |views| ==> views[i].Path() != views[j].Path())
    ensures TombstonePaths(Ledger(rev)) !! Published(rev.files)
  {
    forall i | 0 <= i < |ViewsOf(rev)| ensures Publishes(rev, i) {
      EntryPublishes(rev, i);
    }
    forall p | p in Published(rev.files) ensures exists i :: 0 <= i < |ViewsOf(rev)| && ViewsOf(rev)[i].Path() == p {
      assert p in PathsOf(ViewsOf(rev));
    }
  }

  /** Zero failures against a base: every schema path that the base listed and the tree lost has a tombstone. */
  lemma RemovalsHaveTombstones(rev: Revision, base: BaseView, id: string)
    requires RevisionPasses(rev, Some(base)) && base.manifest.Some? && id in base.manifest.value
    requires var path := EntryPath(base.manifest.value[id]);
             SCHEMAS_PREFIX <= path && path !in Published(rev.files)
    ensures EntryPath(base.manifest.value[id]) in TombstonePaths(Ledger(rev))
  {
    var path := EntryPath(base.manifest.value[id]);
    assert path in BasePaths(base.manifest.value);
    CurrentIsListed(ViewsOf(rev));
  }

  lemma CurrentIsListed(views: seq<View>)
    ensures CurrentPaths(EntriesOf(views)) == PathsOf(views)
  {
    assert forall i :: 0 <= i < |views| ==> EntriesOf(views)[i].schemaPath == views[i].Path();
  }

  // ---- Runs of revisions --------------------------------------------------------------------------------------

  /** A revision as the base of the next one. */
  function AsBase(rev: Revision): BaseView {
    BaseView(Some(ManifestEntries(Records(rev.payload))), rev.files)
  }

  lemma {:induction false} ManifestEntriesAt(records: seq<Json>, i: nat)
    requires i < |records| && records[i].Obj? && TextField(records[i].fields, "contract_id").Some?
    requires forall j :: i < j < |records| ==> EntryId(records[j]) != EntryId(records[i])
    requires EntryId(records[i]) != ""
    ensures EntryId(records[i]) in ManifestEntries(records)
    ensures ManifestEntries(records)[EntryId(records[i])] == records[i]
  {
    hide TextField;
    var k := |records| - 1;
    if i < k {
      assert forall j :: i < j < k ==> records[..k][j] == records[j];
      ManifestEntriesAt(records[..k], i);
      assert EntryId(records[k]) != EntryId(records[i]);
    }
  }

  /** Entry `i` of a revision records the contract as stable. */
  ghost predicate StableAt(rev: Revision, i: nat, id: string) {
    i < |ViewsOf(rev)| && ViewsOf(rev)[i].Id() == id && ViewsOf(rev)[i].entry.stability == "stable"
  }

  lemma BaseLookup(rev: Revision, i: nat, id: string)
    requires CatalogSound(rev) && StableAt(rev, i, id)
    ensures StableBasePath(ManifestEntries(Records(rev.payload)), id) == Some(ViewsOf(rev)[i].Path())
  {
    var records := Records(rev.payload);
    ViewAllAt(records, rev.files, i);
    forall j | i < j < |records| ensures EntryId(records[j]) != EntryId(records[i]) {
      ViewAllAt(records, rev.files, j);
      assert StringLess(ViewsOf(rev)[i].Id(), ViewsOf(rev)[j].Id());
    }
    ManifestEntriesAt(records, i);
  }

  /** The base of revision `t` of a run: the one before it, and none for the first. */
  function BaseAt(revs: seq<Revision>, t: nat): Option<BaseView>
    requires t < |revs|
  {
    if t == 0 then None else Some(AsBase(revs[t - 1]))
  }

  /** A run: every revision passes against the one before it. */
  ghost predicate IsRun(revs: seq<Revision>) {
    revs != [] && forall t :: 0 <= t < |revs| ==> RevisionPasses(revs[t], BaseAt(revs, t)) && CleanTree(revs[t].files)
  }

  /** The contract is stable in every revision; `at` says which entry it is. */
  ghost predicate StableThroughout(revs: seq<Revision>, at: seq<nat>, id: string) {
    |at| == |revs| && forall t :: 0 <= t < |revs| ==> StableAt(revs[t], at[t], id)
  }

  function EntryOf(rev: Revision, i: nat): ManifestEntry
    requires i < |ViewsOf(rev)|
  {
    ViewsOf(rev)[i].entry
  }

  /** The records of the contract, revision by revision. */
  function EntriesAlong(revs: seq<Revision>, at: seq<nat>): (r: seq<ManifestEntry>)
    requires |at| == |revs| && forall t :: 0 <= t < |revs| ==> at[t] < |ViewsOf(revs[t])|
    ensures |r| == |revs| && forall t :: 0 <= t < |revs| ==> r[t] == EntryOf(revs[t], at[t])
  {
    seq(|revs|, t requires 0 <= t < |revs| => EntryOf(revs[t], at[t]))
  }

  /** What one step of a run does to the record of a stable contract. */
  ghost predicate EntryStep(before: ManifestEntry, after: ManifestEntry) {
    before.schemaPath == after.schemaPath && StepPasses(before.schema, after.schema)
  }

  /** One passing step of a stable contract: same path, and the schema passes against its predecessor. */
  lemma StableStep(before: Revision, after: Revision, base: Option<BaseView>, i: nat, j: nat, id: string)
    requires RevisionPasses(before, base) && CleanTree(before.files)
    requires RevisionPasses(after, Some(AsBase(before)))
    requires StableAt(before, i, id) && StableAt(after, j, id)
    ensures EntryStep(EntryOf(before, i), EntryOf(after, j))
  {
    BaseLookup(before, i, id);
    EntryPublishes(before, i);
    var entries := EntriesOf(ViewsOf(after));
    assert entries[j].stability == "stable" && AnyStable(entries);
    assert StableKept(entries[j], AsBase(before).manifest.value, before.files);
  }

  lemma RunStep(revs: seq<Revision>, at: seq<nat>, id: string, t: nat)
    requires IsRun(revs) && StableThroughout(revs, at, id) && t + 1 < |revs|
    ensures EntryStep(EntryOf(revs[t], at[t]), EntryOf(revs[t + 1], at[t + 1]))
  {
    var before, after := revs[t], revs[t + 1];
    assert RevisionPasses(before, BaseAt(revs, t)) && CleanTree(before.files);
    assert RevisionPasses(after, BaseAt(revs, t + 1));
    StableStep(before, after, BaseAt(revs, t), at[t], at[t + 1], id);
  }

  lemma {:induction false} PathNeverChanges(entries: seq<ManifestEntry>, t: nat)
    requires t < |entries|
    requires forall i :: 0 <= i < |entries| - 1 ==> EntryStep(entries[i], entries[i + 1])
    ensures entries[t].schemaPath == entries[0].schemaPath
  {
    if t > 0 {
      PathNeverChanges(entries, t - 1);
      assert EntryStep(entries[t - 1], entries[t - 1 + 1]);
    }
  }

  function SchemasOf(entries: seq<ManifestEntry>): (r: seq<Json>)
    ensures |r| == |entries| && forall t :: 0 <= t < |r| ==> r[t] == entries[t].schema
  {
    seq(|entries|, t requires 0 <= t < |entries| => entries[t].schema)
  }

  lemma RunSteps(revs: seq<Revision>, at: seq<nat>, id: string)
    requires IsRun(revs) && StableThroughout(revs, at, id)
    ensures var entries := EntriesAlong(revs, at);
            forall t :: 0 <= t < |entries| - 1 ==> EntryStep(entries[t], entries[t + 1])
  {
    var entries := EntriesAlong(revs, at);
    forall t | 0 <= t < |entries| - 1 ensures EntryStep(entries[t], entries[t + 1]) {
      RunStep(revs, at, id, t);
    }
  }

  /** Along any run of passing revisions a contract that stays stable keeps its path. */
  lemma StablePath(revs: seq<Revision>, at: seq<nat>, id: string)
    requires IsRun(revs) && StableThroughout(revs, at, id)
    ensures var entries := EntriesAlong(revs, at);
            forall t :: 0 <= t < |entries| ==> entries[t].schemaPath == entries[0].schemaPath
  {
    var entries := EntriesAlong(revs, at);
    RunSteps(revs, at, id);
    forall t | 0 <= t < |entries| ensures entries[t].schemaPath == entries[0].schemaPath {
      PathNeverChanges(entries, t);
    }
  }

  /**
   Along any run of passing revisions, every earlier schema of a contract that stays stable is compatible with every
   later one if and only if the Python equality shortcut skipped nothing at any step.
   */
  lemma StableRun(revs: seq<Revision>, at: seq<nat>, id: string)
    requires IsRun(revs) && StableThroughout(revs, at, id)
    ensures var schemas := SchemasOf(EntriesAlong(revs, at));
            (forall t, u :: 0 <= t <= u < |schemas| ==> SchemaBreakingChanges(schemas[t], schemas[u]) == []) <==>
            forall t :: 0 <= t < |schemas| - 1 ==> ShortcutHonest(schemas[t], schemas[t + 1])
  {
    hide ShortcutHonest, SchemaBreakingChanges, IsRun, StepPasses;
    var entries := EntriesAlong(revs, at);
    RunSteps(revs, at, id);
    forall t | 0 <= t < |entries| - 1 ensures StepPasses(entries[t].schema, entries[t + 1].schema) {
      assert EntryStep(entries[t], entries[t + 1]);
    }
    RunExact(SchemasOf(entries));
  }
}
