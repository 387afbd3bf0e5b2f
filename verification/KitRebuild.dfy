/**
 The rebuild of the bootstrap kit: verify or copy the cached archives into a staging directory, fetch what is missing,
 install the clients, and swap the staging directory in by two renames. Any step may be refused by the host or cut
 short by an interrupt, and the process may die between any two effects on the disk.
 */
module KitRebuild {
  import opened Options
  import opened Ordering

  type Bytes = seq<bv8>

  /** A path inside a kit directory, by parts. Parent directories are implied. */
  type Path = seq<string>

  datatype File = Regular(bytes: Bytes) | Link(target: string) | Dir

  /** What one name in the parent directory of the kit holds; a link is read through to the files behind it. */
  datatype Node =
    | Absent
    | Directory(files: map<Path, File>)
    | SymbolicLink(behind: map<Path, File>)
    | Other

  function FilesOf(n: Node): map<Path, File> {
    match n
    case Directory(files) => files
    case SymbolicLink(behind) => behind
    case _ => map[]
  }

  /** One locked archive: its artifact id, its file name, and the size and digest that the lock records. */
  datatype Lock = Lock(id: string, name: string, size: nat, sha256: string)

  /** The digest is any function of the bytes. */
  type Digest = Bytes -> string

  function ArchivePath(lock: Lock): Path {
    ["archives", lock.id, lock.name]
  }

  predicate Matches(file: File, lock: Lock, sha: Digest) {
    file.Regular? && |file.bytes| == lock.size && sha(file.bytes) == lock.sha256
  }

  predicate Holds(files: map<Path, File>, lock: Lock, sha: Digest) {
    ArchivePath(lock) in files && Matches(files[ArchivePath(lock)], lock, sha)
  }

  /** The locked CPython and uv payloads and the CPython version. */
  datatype Selection = Selection(python: Lock, uv: Lock, version: string)

  function PythonName(sel: Selection): (name: string)
    ensures name != "current"
  {
    assert ("cpython-" + sel.version)[1] == 'p' && "current"[1] == 'u';
    "cpython-" + sel.version
  }

  predicate HasClient(files: map<Path, File>, name: string) {
    ["bin", name] in files && files[["bin", name]].Regular?
  }

  /** A kit that may be used: both archives match the lock, both clients and the interpreter are in place. */
  predicate Complete(n: Node, sel: Selection, sha: Digest) {
    && n.Directory?
    && Holds(n.files, sel.python, sha) && Holds(n.files, sel.uv, sha)
    && HasClient(n.files, "uv") && HasClient(n.files, "uvx")
    && ["python", PythonName(sel)] in n.files && n.files[["python", PythonName(sel)]] == Dir
    && ["python", "current"] in n.files && n.files[["python", "current"]] == Link(PythonName(sel))
  }

  /** How a step ended: done, refused (an error that the caller reports), or interrupted. */
  datatype Signal = Done | Refused | Interrupted

  /** One state of the disk. */
  datatype Snapshot = Snapshot(kit: Node, staging: Node, previous: Node)

  /** The new part of a history left the published and the previous path alone. */
  ghost predicate Quiet(before: seq<Snapshot>, after: seq<Snapshot>, kit: Node, previous: Node) {
    && before <= after
    && forall k :: |before| <= k < |after| ==> after[k].kit == kit && after[k].previous == previous
  }

  /** `rename` may replace an empty directory by a directory and a plain entry by a plain entry, nothing else. */
  predicate RenameAllowed(source: Node, target: Node) {
    match target
    case Absent => !source.Absent?
    case Directory(files) => source.Directory? && files == map[]
    case _ => source.SymbolicLink? || source.Other?
  }

  /** What a stopped `rmtree` can leave of an entry: it unlinks files one by one and refuses a symbolic link. */
  ghost predicate Eroded(before: Node, after: Node) {
    || after == before
    || (before.Directory? && after.Absent?)
    || (before.Directory? && after.Directory? && after.files.Keys <= before.files.Keys)
  }

  /** The two file maps agree on every path whose first part is not one of the heads. */
  ghost predicate SameOutside(before: map<Path, File>, after: map<Path, File>, heads: set<string>) {
    forall p: Path :: p == [] || p[0] !in heads ==>
      (p in before <==> p in after) && (p in before ==> before[p] == after[p])
  }

  /** Everything a run may leave at the published path: what was there, nothing, or a complete kit. */
  ghost predicate PublishedOk(original: Node, now: Node, sel: Selection, sha: Digest) {
    now == original || now.Absent? || Complete(now, sel, sha)
  }

  /** A kit that was there is still there, published or set aside, unless a complete new one is published. */
  ghost predicate KitKept(original: Node, now: Snapshot, sel: Selection, sha: Digest) {
    original.Absent? || now.kit == original || now.previous == original || Complete(now.kit, sel, sha)
  }

  ghost predicate SafeFrom(history: seq<Snapshot>, start: nat, original: Node, sel: Selection, sha: Digest) {
    forall k :: start <= k < |history| ==>
      PublishedOk(original, history[k].kit, sel, sha) && KitKept(original, history[k], sel, sha)
  }

  // ---- Single effects -----------------------------------------------------------------------------------------

  /** `rmtree` took one file, or the empty directory itself. */
  predicate ErodedOnce(before: Node, after: Node) {
    before.Directory? &&
    if before.files == map[] then after.Absent?
    else exists p :: p in before.files && after == Directory(before.files - {p})
  }

  predicate ErodesPrevious(a: Snapshot, b: Snapshot) {
    b.kit == a.kit && b.staging == a.staging && ErodedOnce(a.previous, b.previous)
  }

  /** The first rename: the kit goes to the previous path. */
  predicate SetsAside(a: Snapshot, b: Snapshot) {
    !a.kit.Absent? && RenameAllowed(a.kit, a.previous) && b == Snapshot(Absent, a.staging, a.kit)
  }

  /** The second rename: the staging directory goes to the free published path. */
  predicate Publishes(a: Snapshot, b: Snapshot) {
    a.kit.Absent? && b == Snapshot(a.staging, Absent, a.previous)
  }

  /**
   One effect of a run that started with the kit `original`: on the staging directory alone, on the previous path while
   the kit waits for its complete successor or is that successor, or one of the two renames of a complete successor.
   */
  predicate Step(a: Snapshot, b: Snapshot, original: Node, sel: Selection, sha: Digest) {
    || (b.kit == a.kit && b.previous == a.previous)
    || (ErodesPrevious(a, b) && ((a.kit == original && Complete(a.staging, sel, sha)) || Complete(a.kit, sel, sha)))
    || (Complete(a.staging, sel, sha) && (SetsAside(a, b) || Publishes(a, b)))
  }

  /** From the state at `from` on, every state comes from the one before by one effect. */
  predicate Chain(history: seq<Snapshot>, from: nat, original: Node, sel: Selection, sha: Digest) {
    |history| <= from + 1 ||
    (var k := |history| - 1;
     Chain(history[..k], from, original, sel, sha) && Step(history[k - 1], history[k], original, sel, sha))
  }

  /** The new part of a history took files from the previous path, one at a time. */
  predicate Erosion(before: seq<Snapshot>, after: seq<Snapshot>)
    decreases |after|
  {
    after == before ||
    (var k := |after| - 1;
     |before| <= k && 1 <= k && Erosion(before, after[..k]) && ErodesPrevious(after[k - 1], after[k]))
  }

  lemma {:induction false} QuietChain(before: seq<Snapshot>, after: seq<Snapshot>, from: nat, original: Node,
                                      sel: Selection, sha: Digest)
    requires from < |before| && Chain(before, from, original, sel, sha)
    requires Quiet(before, after, before[|before| - 1].kit, before[|before| - 1].previous)
    ensures Chain(after, from, original, sel, sha)
    decreases |after|
  {
    hide Complete, RenameAllowed;
    var k := |after| - 1;
    if |after| > |before| {
      QuietChain(before, after[..k], from, original, sel, sha);
      assert after[k - 1].kit == after[k].kit && after[k - 1].previous == after[k].previous;
    } else {
      assert after == before;
    }
  }

  lemma {:induction false} ErosionChain(before: seq<Snapshot>, after: seq<Snapshot>, from: nat, original: Node,
                                        sel: Selection, sha: Digest)
    requires from < |before| && Chain(before, from, original, sel, sha) && Erosion(before, after)
    requires var last := before[|before| - 1];
             (last.kit == original && Complete(last.staging, sel, sha)) || Complete(last.kit, sel, sha)
    ensures Chain(after, from, original, sel, sha) && |before| <= |after|
    ensures var (last, now) := (before[|before| - 1], after[|after| - 1]);
            now.kit == last.kit && now.staging == last.staging
    decreases |after|
  {
    hide Complete, RenameAllowed, ErodedOnce;
    if after != before {
      ErosionChain(before, after[..|after| - 1], from, original, sel, sha);
    }
  }

  /** A chain up to a state and a chain from there on. */
  lemma {:induction false} ChainJoin(before: seq<Snapshot>, after: seq<Snapshot>, from: nat, original: Node,
                                     sel: Selection, sha: Digest)
    requires from < |before| && before <= after
    requires Chain(before, from, original, sel, sha) && Chain(after, |before| - 1, original, sel, sha)
    ensures Chain(after, from, original, sel, sha)
    decreases |after|
  {
    hide Step;
    if |after| == |before| {
      assert after == before;
    } else {
      var k := |after| - 1;
      assert before <= after[..k];
      ChainJoin(before, after[..k], from, original, sel, sha);
    }
  }

  lemma CompleteIsDirectory(n: Node, sel: Selection, sha: Digest)
    requires Complete(n, sel, sha)
    ensures n.Directory?
  {
  }

  lemma ChainStart(history: seq<Snapshot>, original: Node, sel: Selection, sha: Digest)
    requires history != []
    ensures Chain(history, |history| - 1, original, sel, sha)
  {
  }

  /** One more effect. */
  lemma ChainMore(history: seq<Snapshot>, next: Snapshot, from: nat, original: Node, sel: Selection, sha: Digest)
    requires from < |history| && Chain(history, from, original, sel, sha)
    requires Step(history[|history| - 1], next, original, sel, sha)
    ensures Chain(history + [next], from, original, sel, sha)
  {
    hide Step;
    assert (history + [next])[..|history|] == history;
  }

  lemma SameFiles(files: map<Path, File>, heads: set<string>)
    ensures SameOutside(files, files, heads)
  {
  }

  lemma SameHistory(history: seq<Snapshot>, kit: Node, previous: Node)
    ensures Quiet(history, history, kit, previous)
  {
  }

  lemma OneMoreQuiet(history: seq<Snapshot>, next: Snapshot)
    ensures Quiet(history, history + [next], next.kit, next.previous)
  {
  }

  predicate IdLeq(a: Lock, b: Lock) {
    StringLeq(a.id, b.id)
  }

  function Ids(locks: seq<Lock>): (r: seq<string>)
    ensures |r| == |locks| && forall i :: 0 <= i < |r| ==> r[i] == locks[i].id
  {
    if locks == [] then [] else [locks[0].id] + Ids(locks[1..])
  }

  /** The archives of the kit that do not verify, CPython first; `unreadable` names the ids that fail to read. */
  function Unverified(files: map<Path, File>, locks: seq<Lock>, unreadable: set<string>, sha: Digest): seq<Lock> {
    if locks == [] then [] else
      var k := |locks| - 1;
      Unverified(files, locks[..k], unreadable, sha)
      + if locks[k].id !in unreadable && Holds(files, locks[k], sha) then [] else [locks[k]]
  }

  /** The path is the target of one of the first `k` requested payloads. */
  ghost predicate Arrived(requested: seq<Lock>, k: nat, p: Path) {
    exists i :: 0 <= i < k && i < |requested| && p == ArchivePath(requested[i])
  }

  /** The first `k` requested payloads verify in the files, and what was there before is untouched. */
  ghost predicate Fetched(before: map<Path, File>, files: map<Path, File>, requested: seq<Lock>, k: nat, sha: Digest) {
    && (forall i :: 0 <= i < k && i < |requested| ==> Holds(files, requested[i], sha))
    && (forall p :: p in before ==> p in files && files[p] == before[p])
  }

  /** A change at a new target leaves the fetched payloads alone. */
  lemma FetchedElsewhere(before: map<Path, File>, was: map<Path, File>, now: map<Path, File>, requested: seq<Lock>,
                         k: nat, sha: Digest, target: Path)
    requires Fetched(before, was, requested, k, sha) && target !in was
    requires forall p :: p != target ==> (p in was <==> p in now) && (p in was ==> was[p] == now[p])
    ensures Fetched(before, now, requested, k, sha)
  {
    forall i | 0 <= i < k && i < |requested| ensures Holds(now, requested[i], sha) {
      assert Holds(was, requested[i], sha);
    }
  }

  lemma FetchedNone(files: map<Path, File>, requested: seq<Lock>, sha: Digest)
    ensures Fetched(files, files, requested, 0, sha)
  {
  }

  lemma FetchedMore(before: map<Path, File>, files: map<Path, File>, requested: seq<Lock>, k: nat, sha: Digest)
    requires k < |requested| && Fetched(before, files, requested, k, sha) && Holds(files, requested[k], sha)
    ensures Fetched(before, files, requested, k + 1, sha)
    ensures Arrived(requested, k + 1, ArchivePath(requested[k]))
    ensures forall p :: Arrived(requested, k, p) ==> Arrived(requested, k + 1, p)
  {
    hide Holds;
  }

  class Host {
    var kit: Node
    var staging: Node
    var previous: Node
    /** Every state that the disk was in, the current one last. A crash is an end of the run at one of them. */
    ghost var history: seq<Snapshot>

    ghost predicate Valid()
      reads this
    {
      history != [] && history[|history| - 1] == Snapshot(kit, staging, previous)
    }

    constructor (kit: Node, previous: Node)
      ensures Valid() && this.kit == kit && this.previous == previous && staging == Absent
    {
      this.kit, this.staging, this.previous := kit, Absent, previous;
      history := [Snapshot(kit, Absent, previous)];
    }

    ghost method Record()
      modifies this`history
      ensures history == old(history) + [Snapshot(kit, staging, previous)] && Valid()
    {
      history := history + [Snapshot(kit, staging, previous)];
    }

    /** Write one file of the staging directory. */
    method Write(path: Path, file: File)
      requires Valid() && staging.Directory?
      modifies this
      ensures Valid() && kit == old(kit) && previous == old(previous)
      ensures staging == Directory(old(staging).files[path := file])
      ensures Quiet(old(history), history, kit, previous)
    {
      staging := Directory(staging.files[path := file]);
      Record();
    }

    // ---- Checking an archive ----------------------------------------------------------------------------------

    /** The digest loop of `_verified_archive`: chunks of one mebibyte, fed in order. */
    method FeedDigest(bytes: Bytes, chunk: nat, sha: Digest) returns (digest: string)
      requires chunk > 0
      ensures digest == sha(bytes)
    {
      var fed, at := [], 0;
      while at < |bytes|
        invariant at <= |bytes| && fed == bytes[..at]
      {
        var next := if at + chunk <= |bytes| then at + chunk else |bytes|;
        fed := fed + bytes[at..next];
        at := next;
      }
      assert bytes[..|bytes|] == bytes;
      digest := sha(fed);
    }

    /** `_verified_archive` and `_archive_matches`: the size first, then the digest; a read error counts as no match. */
    method VerifiedArchive(files: map<Path, File>, lock: Lock, readable: bool, sha: Digest) returns (verified: bool)
      ensures verified <==> readable && Holds(files, lock, sha)
    {
      var path := ArchivePath(lock);
      if path !in files || !files[path].Regular? || |files[path].bytes| != lock.size || !readable {
        return false;
      }
      var digest := FeedDigest(files[path].bytes, 1024 * 1024, sha);
      return digest == lock.sha256;
    }

    // ---- Steps that touch the staging directory only ----------------------------------------------------------

    /** `mkdtemp`: a new name, so nothing is there before. */
    method MakeStaging() returns (s: Signal)
      requires Valid() && staging.Absent?
      modifies this
      ensures Valid() && kit == old(kit) && previous == old(previous)
      ensures Quiet(old(history), history, kit, previous)
      ensures s.Done? ==> staging == Directory(map[])
    {
      s := *;
      if s.Refused? {
        return;
      }
      staging := Directory(map[]);
      Record();
    }

    /**
     Copy a verified archive. The cache is not trusted: it may have changed since the check, so any bytes may arrive,
     and a copy that stops leaves some bytes behind.
     */
    method CopyArchive(lock: Lock) returns (s: Signal)
      requires Valid() && staging.Directory?
      modifies this
      ensures Valid() && kit == old(kit) && previous == old(previous) && staging.Directory?
      ensures Quiet(old(history), history, kit, previous)
    {
      s := *;
      var arrived: Option<Bytes> := *;
      if arrived.Some? {
        Write(ArchivePath(lock), Regular(arrived.value));
      }
    }

    /** The loop over the two payloads: copy what verifies, note what does not. */
    method CollectArchives(locks: seq<Lock>, unreadable: set<string>, sha: Digest)
      returns (s: Signal, missing: seq<Lock>)
      requires Valid() && staging.Directory?
      modifies this
      ensures Valid() && kit == old(kit) && previous == old(previous) && staging.Directory?
      ensures Quiet(old(history), history, kit, previous)
      ensures s.Done? ==> missing == Unverified(FilesOf(old(kit)), locks, unreadable, sha)
    {
      s, missing := Done, [];
      for k := 0 to |locks|
        invariant Valid() && kit == old(kit) && previous == old(previous) && staging.Directory?
        invariant Quiet(old(history), history, kit, previous)
        invariant s.Done? && missing == Unverified(FilesOf(old(kit)), locks[..k], unreadable, sha)
      {
        assert locks[..k + 1][..k] == locks[..k];
        var verified := VerifiedArchive(FilesOf(kit), locks[k], locks[k].id !in unreadable, sha);
        if verified {
          s := CopyArchive(locks[k]);
          if !s.Done? {
            return;
          }
        } else {
          missing := missing + [locks[k]];
        }
      }
      assert locks[..|locks|] == locks;
    }

    /**
     `fetch_bootstrap_payloads`: each payload into a new target, kept only when it verifies exactly. Files that were
     there stay as they are. When the fetch stops, the payload at which it stopped is the only one that may be left
     unverified.
     */
    method Fetch(requested: seq<Lock>, sha: Digest) returns (s: Signal, results: seq<string>)
      requires Valid() && staging.Directory?
      modifies this
      ensures Valid() && kit == old(kit) && previous == old(previous) && staging.Directory?
      ensures Quiet(old(history), history, kit, previous)
      ensures |results| <= |requested| && results == Ids(requested)[..|results|]
      ensures s.Done? ==> results == Ids(requested)
      ensures Fetched(old(staging).files, staging.files, requested, |results|, sha)
      ensures forall p :: p in staging.files && p !in old(staging).files ==>
                Arrived(requested, |results|, p) ||
                (!s.Done? && |results| < |requested| && p == ArchivePath(requested[|results|]))
    {
      hide Holds, Ids, ArchivePath, Fetched, Arrived;
      s, results := Done, [];
      ghost var before := staging.files;
      FetchedNone(before, requested, sha);
      for k := 0 to |requested|
        invariant Valid() && kit == old(kit) && previous == old(previous) && staging.Directory?
        invariant Quiet(old(history), history, kit, previous)
        invariant s.Done? && |results| == k && results == Ids(requested)[..k]
        invariant Fetched(before, staging.files, requested, k, sha)
        invariant forall p :: p in staging.files && p !in before ==> Arrived(requested, k, p)
      {
        var lock := requested[k];
        var target := ArchivePath(lock);
        if target in staging.files {
          return Refused, results;
        }
        ghost var was := staging.files;
        var arrived: Option<File> := *;
        if arrived.Some? {
          Write(target, arrived.value);
        }
        FetchedElsewhere(before, was, staging.files, requested, k, sha, target);
        s := *;
        if !s.Done? {
          return;
        }
        var passed: bool, readable: bool := *, *;
        var verified := VerifiedArchive(staging.files, lock, readable, sha);
        if !passed || !verified {
          var removed: bool := *;
          if removed {
            staging := Directory(staging.files - {target});
            Record();
            FetchedElsewhere(before, was, staging.files, requested, k, sha, target);
          }
          return Refused, results;
        }
        FetchedMore(before, staging.files, requested, k, sha);
        results := results + [lock.id];
      }
      assert Ids(requested)[..|requested|] == Ids(requested);
    }

    /** Unpack an archive below a private directory: any files may appear there, and nowhere else. */
    method Unpack(stage: string) returns (s: Signal)
      requires Valid() && staging.Directory?
      modifies this
      ensures Valid() && kit == old(kit) && previous == old(previous) && staging.Directory?
      ensures Quiet(old(history), history, kit, previous)
      ensures SameOutside(old(staging).files, staging.files, {stage})
    {
      var unpacked: map<Path, File> := *;
      var inside := map p | p in unpacked && p != [] && p[0] == stage :: unpacked[p];
      staging := Directory(staging.files + inside);
      Record();
      s := *;
    }

    /** Remove the private directory. */
    method Cleanup(stage: string) returns (s: Signal)
      requires Valid() && staging.Directory?
      modifies this
      ensures Valid() && kit == old(kit) && previous == old(previous) && staging.Directory?
      ensures Quiet(old(history), history, kit, previous)
      ensures SameOutside(old(staging).files, staging.files, {stage})
      ensures s.Done? ==> forall p :: p in staging.files ==> p == [] || p[0] != stage
    {
      s := *;
      if s.Done? {
        staging := Directory(map p | p in staging.files && (p == [] || p[0] != stage) :: staging.files[p]);
        Record();
      }
    }

    /** Move one client out of the private directory: a plain file, to a new name under bin. */
    method MoveClient(source: Path, name: string) returns (s: Signal)
      requires Valid() && staging.Directory?
      requires |source| == 3 && source[0] == ".uv-extract"
      modifies this
      ensures Valid() && kit == old(kit) && previous == old(previous) && staging.Directory?
      ensures Quiet(old(history), history, kit, previous)
      ensures SameOutside(old(staging).files, staging.files, {".uv-extract", "bin"})
      ensures forall other :: HasClient(old(staging).files, other) ==> HasClient(staging.files, other)
      ensures s.Done? ==> HasClient(staging.files, name)
    {
      var target := ["bin", name];
      if source !in staging.files || !staging.files[source].Regular? || target in staging.files {
        return Refused;
      }
      s := *;
      if s.Done? {
        staging := Directory((staging.files - {source})[target := staging.files[source]]);
        Record();
      }
    }

    /** `install_uv_payload`: verify in staging, unpack, move both clients. */
    method InstallUv(lock: Lock, root: string, sha: Digest) returns (s: Signal)
      requires Valid() && staging.Directory?
      modifies this
      ensures Valid() && kit == old(kit) && previous == old(previous) && staging.Directory?
      ensures Quiet(old(history), history, kit, previous)
      ensures s.Done? ==> SameOutside(old(staging).files, staging.files, {".uv-extract", "bin"})
      ensures s.Done? ==> Holds(staging.files, lock, sha)
      ensures s.Done? ==> HasClient(staging.files, "uv") && HasClient(staging.files, "uvx")
    {
      var readable: bool := *;
      var verified := VerifiedArchive(staging.files, lock, readable, sha);
      if !verified {
        return Refused;
      }
      s := Unpack(".uv-extract");
      if !s.Done? {
        return;
      }
      var names := ["uv", "uvx"];
      for k := 0 to |names|
        invariant Valid() && kit == old(kit) && previous == old(previous) && staging.Directory?
        invariant Quiet(old(history), history, kit, previous)
        invariant SameOutside(old(staging).files, staging.files, {".uv-extract", "bin"})
        invariant s.Done? && forall i :: 0 <= i < k ==> HasClient(staging.files, names[i])
      {
        s := MoveClient([".uv-extract", root, names[k]], names[k]);
        if !s.Done? {
          return;
        }
      }
      assert HasClient(staging.files, names[0]) && HasClient(staging.files, names[1]);
      s := Cleanup(".uv-extract");
    }

    /** Move the unpacked interpreter directory, with everything below it, to its destination. */
    method MoveTree(source: Path, target: Path) returns (s: Signal)
      requires Valid() && staging.Directory?
      requires |source| == 2 && |target| == 2 && source[0] == ".python-extract" && target[0] == "python"
      modifies this
      ensures Valid() && kit == old(kit) && previous == old(previous) && staging.Directory?
      ensures Quiet(old(history), history, kit, previous)
      ensures SameOutside(old(staging).files, staging.files, {".python-extract", "python"})
      ensures s.Done? ==> target in staging.files && staging.files[target] == Dir
    {
      hide SameOutside, Quiet;
      SameFiles(staging.files, {".python-extract", "python"});
      SameHistory(history, kit, previous);
      if source !in staging.files || staging.files[source] != Dir {
        return Refused;
      }
      s := *;
      if s.Done? {
        var below := set p | p in staging.files && |p| >= 2 && p[..2] == source;
        var arrivals := Relocated(staging.files, below, target);
        RelocationOutside(staging.files, below, source, target);
        staging := Directory((staging.files - below) + arrivals);
        ghost var was := history;
        Record();
        OneMoreQuiet(was, Snapshot(kit, staging, previous));
      }
    }

    /** `install_python_payload`: verify in staging, unpack, move the interpreter directory. */
    method InstallPython(lock: Lock, name: string, sha: Digest) returns (s: Signal)
      requires Valid() && staging.Directory?
      modifies this
      ensures Valid() && kit == old(kit) && previous == old(previous) && staging.Directory?
      ensures Quiet(old(history), history, kit, previous)
      ensures s.Done? ==> SameOutside(old(staging).files, staging.files, {".python-extract", "python"})
      ensures s.Done? ==> Holds(staging.files, lock, sha)
      ensures s.Done? ==> ["python", name] in staging.files && staging.files[["python", name]] == Dir
    {
      var readable: bool := *;
      var verified := VerifiedArchive(staging.files, lock, readable, sha);
      if !verified || ["python", name] in staging.files {
        return Refused;
      }
      s := Unpack(".python-extract");
      if !s.Done? {
        return;
      }
      s := MoveTree([".python-extract", "python"], ["python", name]);
      if !s.Done? {
        return;
      }
      s := Cleanup(".python-extract");
    }

    /** The link `python/current`. */
    method LinkPython(name: string) returns (s: Signal)
      requires Valid() && staging.Directory?
      modifies this
      ensures Valid() && kit == old(kit) && previous == old(previous) && staging.Directory?
      ensures Quiet(old(history), history, kit, previous)
      ensures s.Done? ==> staging.files == old(staging).files[["python", "current"] := Link(name)]
      ensures s.Done? ==> ["python", "current"] !in old(staging).files
    {
      if ["python", "current"] in staging.files {
        return Refused;
      }
      s := *;
      if s.Done? {
        Write(["python", "current"], Link(name));
      }
    }

    /** Everything up to the swap. */
    method BuildStaging(sel: Selection, root: string, unreadable: set<string>, sha: Digest)
      returns (s: Signal, missing: seq<Lock>, results: seq<string>)
      requires Valid() && staging.Directory?
      requires sel.python.id != sel.uv.id
      modifies this
      ensures Valid() && kit == old(kit) && previous == old(previous) && staging.Directory?
      ensures Quiet(old(history), history, kit, previous)
      ensures s.Done? ==> Complete(staging, sel, sha)
      ensures s.Done? ==> missing == Unverified(FilesOf(old(kit)), [sel.python, sel.uv], unreadable, sha)
      ensures s.Done? ==> results == Ids(SortBy(IdLeq, missing))
    {
      hide Complete, Unverified, Ids, SortBy, Fetched, Arrived;
      results := [];
      s, missing := CollectArchives([sel.python, sel.uv], unreadable, sha);
      if !s.Done? {
        return;
      }
      if missing != [] {
        s, results := Fetch(SortBy(IdLeq, missing), sha);
        if !s.Done? {
          return;
        }
      }
      s := InstallAll(sel, root, sha);
    }

    /** The three installation steps of `prepare_kit`. */
    method InstallAll(sel: Selection, root: string, sha: Digest) returns (s: Signal)
      requires Valid() && staging.Directory?
      modifies this
      ensures Valid() && kit == old(kit) && previous == old(previous) && staging.Directory?
      ensures Quiet(old(history), history, kit, previous)
      ensures s.Done? ==> Complete(staging, sel, sha)
    {
      s := InstallUv(sel.uv, root, sha);
      if !s.Done? {
        return;
      }
      ghost var withUv := staging.files;
      s := InstallPython(sel.python, PythonName(sel), sha);
      if !s.Done? {
        return;
      }
      ghost var installed := staging.files;
      s := LinkPython(PythonName(sel));
      if s.Done? {
        Assembled(withUv, installed, sel, sha);
      }
    }

    // ---- The swap ---------------------------------------------------------------------------------------------

    /** `rmtree(staging, ignore_errors=True)`: stops anywhere, never raises. */
    method RemoveStaging()
      requires Valid()
      modifies this
      ensures Valid() && kit == old(kit) && previous == old(previous)
      ensures Quiet(old(history), history, kit, previous)
      ensures Eroded(old(staging), staging)
    {
      var steps :| 0 <= steps;
      for k := 0 to steps
        invariant Valid() && kit == old(kit) && previous == old(previous)
        invariant Quiet(old(history), history, kit, previous)
        invariant Eroded(old(staging), staging)
      {
        if staging.Directory? {
          if staging.files == map[] {
            staging := Absent;
          } else {
            var p :| p in staging.files;
            staging := Directory(staging.files - {p});
          }
          Record();
        }
      }
    }

    /** `rmtree(previous, ignore_errors=True)`: stops anywhere; only an interrupt ends the run here. */
    method RemovePrevious() returns (s: Signal)
      requires Valid()
      modifies this
      ensures Valid() && kit == old(kit) && staging == old(staging) && !s.Refused?
      ensures old(history) <= history && Erosion(old(history), history)
      ensures forall k :: |old(history)| <= k < |history| ==> history[k].kit == kit
      ensures Eroded(old(previous), previous)
    {
      var steps :| 0 <= steps;
      for k := 0 to steps
        invariant Valid() && kit == old(kit) && staging == old(staging)
        invariant old(history) <= history && Erosion(old(history), history)
        invariant forall k :: |old(history)| <= k < |history| ==> history[k].kit == kit
        invariant Eroded(old(previous), previous)
      {
        if previous.Directory? {
          if previous.files == map[] {
            previous := Absent;
          } else {
            var p :| p in previous.files;
            previous := Directory(previous.files - {p});
          }
          ghost var was := history;
          Record();
          assert history[..|was|] == was;
        }
      }
      var interrupted: bool := *;
      s := if interrupted then Interrupted else Done;
    }

    /** The first rename: set the old kit aside, if there is one. One effect or none. */
    method SetAside() returns (s: Signal)
      requires Valid()
      modifies this
      ensures Valid() && staging == old(staging) && old(history) <= history
      ensures forall k :: |old(history)| <= k < |history| ==> history[k] == Snapshot(kit, staging, previous)
      ensures (kit == old(kit) && previous == old(previous)) || (kit.Absent? && previous == old(kit))
      ensures s.Done? ==> kit.Absent?
      ensures history == old(history) ||
              (history == old(history) + [Snapshot(kit, staging, previous)] &&
               SetsAside(old(Snapshot(kit, staging, previous)), Snapshot(kit, staging, previous)))
    {
      if kit.Absent? {
        return Done;
      }
      s := *;
      if s.Done? {
        if !RenameAllowed(kit, previous) {
          return Refused;
        }
        kit, previous := Absent, kit;
        Record();
      }
    }

    /** The second rename: publish the staging directory. One effect or none. */
    method Publish() returns (s: Signal)
      requires Valid() && staging.Directory? && kit.Absent?
      modifies this
      ensures Valid() && previous == old(previous) && old(history) <= history
      ensures forall k :: |old(history)| <= k < |history| ==> history[k] == Snapshot(kit, staging, previous)
      ensures s.Done? ==> kit == old(staging) && staging.Absent?
      ensures !s.Done? ==> kit == old(kit) && staging == old(staging)
      ensures history == old(history) ||
              (history == old(history) + [Snapshot(kit, staging, previous)] &&
               Publishes(old(Snapshot(kit, staging, previous)), Snapshot(kit, staging, previous)))
    {
      s := *;
      if s.Done? {
        kit, staging := staging, Absent;
        Record();
      }
    }

    /** The first half of the swap: clear the previous path and set the old kit aside. */
    method ClearPath(sel: Selection, sha: Digest) returns (s: Signal)
      requires Valid() && Complete(staging, sel, sha)
      modifies this
      ensures Valid() && staging == old(staging) && old(history) <= history
      ensures SafeFrom(history, |old(history)|, old(kit), sel, sha)
      ensures Chain(history, |old(history)| - 1, old(kit), sel, sha)
      ensures s.Done? ==> kit.Absent? && (old(kit).Absent? || previous == old(kit))
      ensures s.Refused? ==> kit == old(kit) || (kit.Absent? && previous == old(kit))
    {
      hide Complete, RenameAllowed, Chain, Erosion, Eroded, ErodesPrevious;
      ghost var from, original, was := |history| - 1, kit, history;
      ChainStart(was, original, sel, sha);
      s := RemovePrevious();
      ErosionChain(was, history, from, original, sel, sha);
      if !s.Done? {
        return;
      }
      was := history;
      s := SetAside();
      if history != was {
        ChainMore(was, Snapshot(kit, staging, previous), from, original, sel, sha);
      }
    }

    /** From the complete staging directory to the published kit. */
    method Swap(sel: Selection, sha: Digest) returns (s: Signal)
      requires Valid() && Complete(staging, sel, sha)
      modifies this
      ensures Valid() && old(history) <= history
      ensures SafeFrom(history, |old(history)|, old(kit), sel, sha)
      ensures Chain(history, |old(history)| - 1, old(kit), sel, sha)
      ensures s.Done? ==> kit == old(staging)
      ensures s.Refused? ==> kit == old(kit) || (kit.Absent? && previous == old(kit))
    {
      hide Complete, RenameAllowed, Chain, Erosion, Eroded, ErodesPrevious;
      ghost var from, original := |history| - 1, kit;
      CompleteIsDirectory(staging, sel, sha);
      s := ClearPath(sel, sha);
      if !s.Done? {
        return;
      }
      ghost var was := history;
      s := Publish();
      if history != was {
        ChainMore(was, Snapshot(kit, staging, previous), from, original, sel, sha);
      }
      if !s.Done? {
        return;
      }
      was := history;
      s := RemovePrevious();
      ErosionChain(was, history, from, original, sel, sha);
    }

    /**
     `prepare_kit`. Whatever fails and wherever the run stops, every state of the disk is safe: the published path holds
     the untouched old kit, nothing, or a complete kit, and an old kit is at the published or the previous path until a
     complete one is published.
     */
    method PrepareKit(sel: Selection, root: string, unreadable: set<string>, sha: Digest)
      returns (s: Signal, missing: seq<Lock>, results: seq<string>)
      requires Valid() && staging.Absent?
      requires sel.python.id != sel.uv.id
      modifies this
      ensures Valid() && old(history) <= history
      ensures SafeFrom(history, |old(history)|, old(kit), sel, sha)
      ensures Chain(history, |old(history)| - 1, old(kit), sel, sha)
      ensures s.Done? ==> Complete(kit, sel, sha)
      ensures s.Done? ==> missing == Unverified(FilesOf(old(kit)), [sel.python, sel.uv], unreadable, sha)
      ensures s.Done? ==> results == Ids(SortBy(IdLeq, missing))
      ensures s.Refused? ==> kit == old(kit) || (kit.Absent? && previous == old(kit))
    {
      hide Complete, RenameAllowed, Chain, Unverified, Ids, SortBy;
      ghost var from, original := |history| - 1, kit;
      ghost var was := history;
      ChainStart(was, original, sel, sha);
      missing, results := [], [];
      s := MakeStaging();
      QuietChain(was, history, from, original, sel, sha);
      if !s.Done? {
        return;
      }
      was := history;
      s, missing, results := BuildStaging(sel, root, unreadable, sha);
      QuietChain(was, history, from, original, sel, sha);
      was := history;
      if s.Done? {
        s := Swap(sel, sha);
        ChainJoin(was, history, from, original, sel, sha);
      }
      if !s.Done? {
        was := history;
        RemoveStaging();
        QuietChain(was, history, from, original, sel, sha);
      }
    }
  }

  /** The files at and below the paths, with the first two parts replaced by the target. */
  function Relocated(files: map<Path, File>, below: set<Path>, target: Path): (r: map<Path, File>)
    requires forall p :: p in below ==> p in files && |p| >= 2
    requires forall p, q :: p in below && q in below ==> p[..2] == q[..2]
    ensures forall p :: p in below ==> target + p[2..] in r && r[target + p[2..]] == files[p]
    ensures forall p :: p in r ==> |target| <= |p| && p[..|target|] == target
  {
    assert forall p, q :: p in below && q in below && target + p[2..] == target + q[2..] ==> p == q by {
      forall p, q | p in below && q in below && target + p[2..] == target + q[2..] ensures p == q {
        assert (target + p[2..])[|target|..] == p[2..];
        assert (target + q[2..])[|target|..] == q[2..];
        assert p == p[..2] + p[2..] && q == q[..2] + q[2..];
      }
    }
    map p | p in below :: target + p[2..] := files[p]
  }

  /** Moving a tree changes nothing outside the two heads, and the tree's root arrives at the target. */
  lemma RelocationOutside(files: map<Path, File>, below: set<Path>, source: Path, target: Path)
    requires |source| == 2 && |target| == 2
    requires forall p :: p in below ==> p in files && |p| >= 2 && p[..2] == source
    requires source in below
    ensures SameOutside(files, (files - below) + Relocated(files, below, target), {source[0], target[0]})
    ensures target in Relocated(files, below, target) && Relocated(files, below, target)[target] == files[source]
  {
    var arrivals := Relocated(files, below, target);
    forall p | p in below ensures p[0] == source[0] {
      assert p[0] == p[..2][0];
    }
    forall p | p in arrivals ensures p != [] && p[0] == target[0] {
      assert p[0] == p[..2][0];
    }
    assert source[2..] == [] && target + source[2..] == target;
  }

  /** What the three installation steps together leave is a complete kit. */
  lemma Assembled(withUv: map<Path, File>, installed: map<Path, File>, sel: Selection, sha: Digest)
    requires Holds(withUv, sel.uv, sha) && HasClient(withUv, "uv") && HasClient(withUv, "uvx")
    requires SameOutside(withUv, installed, {".python-extract", "python"})
    requires Holds(installed, sel.python, sha)
    requires ["python", PythonName(sel)] in installed && installed[["python", PythonName(sel)]] == Dir
    ensures Complete(Directory(installed[["python", "current"] := Link(PythonName(sel))]), sel, sha)
  {
    var link := ["python", "current"];
    assert ArchivePath(sel.uv)[0] != "python" && ArchivePath(sel.python)[0] != "python";
    assert ["bin", "uv"][0] == "bin" && ["bin", "uvx"][0] == "bin";
    assert ["python", PythonName(sel)][1] != link[1];
  }

  // ---- What a run fetches, and sequences of runs --------------------------------------------------------------

  /** Exactly the archives that cannot be read or do not match the lock are fetched. */
  lemma {:induction false} UnverifiedExact(files: map<Path, File>, locks: seq<Lock>, unreadable: set<string>,
                                           sha: Digest, lock: Lock)
    ensures lock in Unverified(files, locks, unreadable, sha) <==>
            lock in locks && (lock.id in unreadable || !Holds(files, lock, sha))
  {
    if locks != [] {
      var k := |locks| - 1;
      UnverifiedExact(files, locks[..k], unreadable, sha, lock);
      assert lock in locks <==> lock in locks[..k] || lock == locks[k];
    }
  }

  /** A run that finds a readable complete kit of the same lock fetches nothing. */
  lemma CompleteKitReused(kit: Node, sel: Selection, sha: Digest)
    requires Complete(kit, sel, sha)
    ensures Unverified(FilesOf(kit), [sel.python, sel.uv], {}, sha) == []
  {
    var locks := [sel.python, sel.uv];
    var all := Unverified(FilesOf(kit), locks, {}, sha);
    if all != [] {
      UnverifiedExact(FilesOf(kit), locks, {}, sha, all[0]);
    }
  }

  /** One run as far as it came: the states of the disk up to its end or its crash, and the lock that it used. */
  datatype Run = Run(history: seq<Snapshot>, sel: Selection)

  ghost predicate IsRun(run: Run, sha: Digest) {
    && run.history != [] && run.history[0].staging.Absent?
    && SafeFrom(run.history, 0, run.history[0].kit, run.sel, sha)
    && Chain(run.history, 0, run.history[0].kit, run.sel, sha)
  }

  function Last(run: Run): Snapshot
    requires run.history != []
  {
    run.history[|run.history| - 1]
  }

  /** The disk that the next run finds: it makes a staging directory of its own. */
  function Found(left: Snapshot): Snapshot {
    left.(staging := Absent)
  }

  /** Runs one after another; each starts from the disk that the one before left, the lock may differ. */
  ghost predicate IsCampaign(runs: seq<Run>, sha: Digest) {
    && (forall i :: 0 <= i < |runs| ==> IsRun(runs[i], sha))
    && (forall i :: 0 < i < |runs| ==> runs[i].history[0] == Found(Last(runs[i - 1])))
  }

  /** What every state of every run may publish: the kit of the beginning, nothing, or a kit complete for a lock. */
  ghost predicate EverPublished(original: Node, now: Node, runs: seq<Run>, i: nat, sha: Digest)
    requires i < |runs|
  {
    now == original || now.Absent? || exists j :: 0 <= j <= i && Complete(now, runs[j].sel, sha)
  }

  lemma {:induction false} ChainFront(history: seq<Snapshot>, from: nat, stop: nat, original: Node,
                                      sel: Selection, sha: Digest)
    requires from < stop <= |history| && Chain(history, from, original, sel, sha)
    ensures Chain(history[..stop], from, original, sel, sha)
    decreases |history|
  {
    hide Step;
    var k := |history| - 1;
    if stop == |history| {
      assert history[..stop] == history;
    } else {
      ChainFront(history[..k], from, stop, original, sel, sha);
      assert history[..k][..stop] == history[..stop];
    }
  }

  lemma {:induction false} ChainBack(history: seq<Snapshot>, from: nat, original: Node, sel: Selection, sha: Digest)
    requires from < |history| && Chain(history, from, original, sel, sha)
    ensures Chain(history[from..], 0, original, sel, sha)
    decreases |history|
  {
    hide Step;
    var k := |history| - 1;
    if from < k {
      ChainBack(history[..k], from, original, sel, sha);
      assert history[from..][..k - from] == history[..k][from..];
    }
  }

  /** A crash of `PrepareKit` at any point of its history is a run. */
  lemma CrashIsRun(history: seq<Snapshot>, start: nat, stop: nat, sel: Selection, sha: Digest)
    requires start < stop <= |history| && history[start].staging.Absent?
    requires SafeFrom(history, start + 1, history[start].kit, sel, sha)
    requires Chain(history, start, history[start].kit, sel, sha)
    ensures IsRun(Run(history[start..stop], sel), sha)
  {
    hide Complete, Chain;
    ChainFront(history, start, stop, history[start].kit, sel, sha);
    ChainBack(history[..stop], start, history[start].kit, sel, sha);
    assert history[..stop][start..] == history[start..stop];
    forall k | 0 <= k < stop - start
      ensures PublishedOk(history[start].kit, history[start..stop][k].kit, sel, sha)
      ensures KitKept(history[start].kit, history[start..stop][k], sel, sha)
    {
      assert history[start..stop][k] == history[start + k];
    }
  }

  /** Over any sequence of runs, each stopped anywhere, no partial kit is ever published. */
  lemma {:induction false} CampaignSafe(runs: seq<Run>, sha: Digest, i: nat, k: nat)
    requires IsCampaign(runs, sha) && i < |runs| && k < |runs[i].history|
    ensures EverPublished(runs[0].history[0].kit, runs[i].history[k].kit, runs, i, sha)
    decreases i
  {
    hide Complete, Chain;
    assert IsRun(runs[i], sha);
    var first := runs[i].history[0].kit;
    assert PublishedOk(first, runs[i].history[k].kit, runs[i].sel, sha);
    if i > 0 && runs[i].history[k].kit == first {
      assert IsRun(runs[i - 1], sha);
      CampaignSafe(runs, sha, i - 1, |runs[i - 1].history| - 1);
    }
  }

  // ---- Does a usable kit stay at hand? ------------------------------------------------------------------------

  /** A kit that is complete for one of the locks. */
  ghost predicate Usable(n: Node, locks: seq<Selection>, sha: Digest) {
    exists i :: 0 <= i < |locks| && Complete(n, locks[i], sha)
  }

  /** A usable kit is published or set aside. */
  ghost predicate AtHand(now: Snapshot, locks: seq<Selection>, sha: Digest) {
    Usable(now.kit, locks, sha) || Usable(now.previous, locks, sha)
  }

  /** A usable kit is published, or the published path is free and a usable kit is set aside. */
  ghost predicate Waiting(now: Snapshot, locks: seq<Selection>, sha: Digest) {
    Usable(now.kit, locks, sha) || (now.kit.Absent? && Usable(now.previous, locks, sha))
  }

  lemma UsableIsDirectory(n: Node, locks: seq<Selection>, sha: Digest)
    requires Usable(n, locks, sha)
    ensures n.Directory?
  {
    hide Complete;
    var i :| 0 <= i < |locks| && Complete(n, locks[i], sha);
    CompleteIsDirectory(n, locks[i], sha);
  }

  lemma CompleteIsUsable(n: Node, sel: Selection, locks: seq<Selection>, sha: Digest)
    requires sel in locks && Complete(n, sel, sha)
    ensures Usable(n, locks, sha)
  {
    hide Complete;
    var i :| 0 <= i < |locks| && locks[i] == sel;
    assert Complete(n, locks[i], sha);
  }

  /** An effect of a run that started with a usable kit published keeps one waiting. */
  lemma StepWaits(a: Snapshot, b: Snapshot, original: Node, sel: Selection, locks: seq<Selection>, sha: Digest)
    requires Step(a, b, original, sel, sha) && sel in locks
    requires Usable(original, locks, sha) && Waiting(a, locks, sha)
    ensures Waiting(b, locks, sha)
  {
    hide Complete, Usable, RenameAllowed, ErodedOnce;
    UsableIsDirectory(original, locks, sha);
    if Complete(a.kit, sel, sha) {
      CompleteIsDirectory(a.kit, sel, sha);
    }
    if Complete(a.staging, sel, sha) {
      CompleteIsUsable(a.staging, sel, locks, sha);
    }
  }

  lemma {:induction false} ChainWaits(history: seq<Snapshot>, sel: Selection, locks: seq<Selection>, sha: Digest,
                                     k: nat)
    requires k < |history| && Chain(history, 0, history[0].kit, sel, sha) && sel in locks
    requires Usable(history[0].kit, locks, sha)
    ensures Waiting(history[k], locks, sha)
  {
    hide Step, Usable, Chain;
    if k > 0 {
      ChainFront(history, 0, k + 1, history[0].kit, sel, sha);
      ChainLast(history[..k + 1], 0, history[0].kit, sel, sha);
      ChainWaits(history, sel, locks, sha, k - 1);
      StepWaits(history[k - 1], history[k], history[0].kit, sel, locks, sha);
    }
  }

  lemma ChainLast(history: seq<Snapshot>, from: nat, original: Node, sel: Selection, sha: Digest)
    requires from + 1 < |history| && Chain(history, from, original, sel, sha)
    ensures Step(history[|history| - 2], history[|history| - 1], original, sel, sha)
  {
    hide Step;
  }

  lemma OneErosion(history: seq<Snapshot>, next: Snapshot)
    requires history != [] && ErodesPrevious(history[|history| - 1], next)
    ensures Erosion(history, history + [next])
  {
    hide ErodesPrevious;
    assert (history + [next])[..|history|] == history;
  }

  /** `rmtree` may go on until nothing is left. */
  lemma {:induction false} Wiped(history: seq<Snapshot>) returns (wiped: seq<Snapshot>)
    requires history != [] && history[|history| - 1].previous.Directory?
    ensures history <= wiped && Erosion(history, wiped)
    ensures wiped[|wiped| - 1] == history[|history| - 1].(previous := Absent)
    decreases |history[|history| - 1].previous.files|
  {
    var last := history[|history| - 1];
    var files := last.previous.files;
    if files == map[] {
      wiped := history + [last.(previous := Absent)];
      OneErosion(history, last.(previous := Absent));
    } else {
      var p :| p in files;
      var next := last.(previous := Directory(files - {p}));
      var once := history + [next];
      OneErosion(history, next);
      Fewer(files, p);
      wiped := Wiped(once);
      ErosionJoin(history, once, wiped);
    }
  }

  lemma Fewer(files: map<Path, File>, p: Path)
    requires p in files
    ensures |files - {p}| < |files|
  {
    assert (files - {p}).Keys == files.Keys - {p};
    assert |(files - {p}).Keys| < |files.Keys|;
  }

  lemma {:induction false} ErosionJoin(a: seq<Snapshot>, b: seq<Snapshot>, c: seq<Snapshot>)
    requires Erosion(a, b) && Erosion(b, c) && a <= b <= c
    ensures Erosion(a, c)
    decreases |c|
  {
    hide ErodesPrevious;
    if c != b {
      assert b <= c[..|c| - 1];
      ErosionJoin(a, b, c[..|c| - 1]);
    }
  }

  lemma {:induction false} ErosionKit(before: seq<Snapshot>, after: seq<Snapshot>)
    requires before <= after && before != [] && Erosion(before, after)
    ensures forall k :: |before| - 1 <= k < |after| ==> after[k].kit == before[|before| - 1].kit
    decreases |after|
  {
    hide ErodedOnce;
    if after != before {
      assert before <= after[..|after| - 1];
      ErosionKit(before, after[..|after| - 1]);
      assert forall k :: |before| - 1 <= k < |after| - 1 ==> after[..|after| - 1][k] == after[k];
    }
  }

  /** A run that finds its staging directory complete may wipe the previous path and crash before it publishes. */
  lemma LosingRun(start: Snapshot, sel: Selection, full: Node, sha: Digest) returns (run: Run)
    requires start.staging.Absent? && start.previous.Directory? && Complete(full, sel, sha)
    ensures run.sel == sel && IsRun(run, sha) && run.history[0] == start
    ensures Last(run) == Snapshot(start.kit, full, Absent)
  {
    hide Complete, Erosion, Chain;
    var built := [start, Snapshot(start.kit, full, start.previous)];
    ChainStart([start], start.kit, sel, sha);
    ChainMore([start], built[1], 0, start.kit, sel, sha);
    assert [start] + [built[1]] == built;
    var wiped := Wiped(built);
    ErosionChain(built, wiped, 0, start.kit, sel, sha);
    ErosionKit(built, wiped);
    assert wiped[0] == built[0];
    run := Run(wiped, sel);
  }

  /** Whatever a run does from the given disk, a usable kit is published or set aside at every moment. */
  ghost predicate AlwaysAtHand(start: Snapshot, sel: Selection, locks: seq<Selection>, sha: Digest) {
    forall run: Run :: IsRun(run, sha) && run.sel == sel && run.history[0] == start ==> HandsOver(run, locks, sha)
  }

  ghost predicate HandsOver(run: Run, locks: seq<Selection>, sha: Digest) {
    forall k :: 0 <= k < |run.history| ==> AtHand(run.history[k], locks, sha)
  }

  lemma RunWaits(run: Run, locks: seq<Selection>, sha: Digest)
    requires IsRun(run, sha) && run.sel in locks && Usable(run.history[0].kit, locks, sha)
    ensures HandsOver(run, locks, sha)
  {
    hide Chain, Usable;
    forall k | 0 <= k < |run.history| ensures AtHand(run.history[k], locks, sha) {
      ChainWaits(run.history, run.sel, locks, sha, k);
    }
  }

  /**
   When some archives match the lock at all: a run is sure to keep a usable kit at hand if and only if it finds one
   published. A kit that it finds only set aside may be gone before the new one is published.
   */
  lemma RetentionExact(start: Snapshot, sel: Selection, locks: seq<Selection>, full: Node, sha: Digest)
    requires start.staging.Absent? && sel in locks && Complete(full, sel, sha)
    ensures AlwaysAtHand(start, sel, locks, sha) <==> Usable(start.kit, locks, sha)
  {
    hide Complete, Chain, Usable, SafeFrom;
    if Usable(start.kit, locks, sha) {
      forall run: Run | IsRun(run, sha) && run.sel == sel && run.history[0] == start
        ensures HandsOver(run, locks, sha)
      {
        RunWaits(run, locks, sha);
      }
    } else {
      NotAlways(start, sel, locks, full, sha);
    }
  }

  lemma NotAlways(start: Snapshot, sel: Selection, locks: seq<Selection>, full: Node, sha: Digest)
    requires start.staging.Absent? && Complete(full, sel, sha) && !Usable(start.kit, locks, sha)
    ensures !AlwaysAtHand(start, sel, locks, sha)
  {
    hide Complete, Chain, Usable;
    AbsentUnusable(locks, sha);
    if Usable(start.previous, locks, sha) {
      UsableIsDirectory(start.previous, locks, sha);
      var run := LosingRun(start, sel, full, sha);
      assert !AtHand(run.history[|run.history| - 1], locks, sha);
      assert !HandsOver(run, locks, sha);
    } else {
      var run := Run([start], sel);
      ChainStart(run.history, start.kit, sel, sha);
      assert IsRun(run, sha) && !AtHand(run.history[0], locks, sha);
      assert !HandsOver(run, locks, sha);
    }
  }

  lemma AbsentUnusable(locks: seq<Selection>, sha: Digest)
    ensures !Usable(Absent, locks, sha)
  {
  }

  /** Over a campaign a usable kit stays at hand as long as every run finds one published. */
  lemma CampaignRetains(runs: seq<Run>, locks: seq<Selection>, sha: Digest, i: nat, k: nat)
    requires IsCampaign(runs, sha) && i < |runs| && k < |runs[i].history|
    requires forall j :: 0 <= j < |runs| ==> runs[j].sel in locks && Usable(runs[j].history[0].kit, locks, sha)
    ensures AtHand(runs[i].history[k], locks, sha)
  {
    hide Usable, IsRun;
    RunWaits(runs[i], locks, sha);
  }

  /** No kit is safe from two crashes: the first leaves it set aside, the second run clears it away. */
  lemma TwoCrashes(kit: Node, sel: Selection, locks: seq<Selection>, sha: Digest) returns (runs: seq<Run>)
    requires Complete(kit, sel, sha) && sel in locks
    ensures |runs| == 2 && IsCampaign(runs, sha) && runs[0].sel == runs[1].sel == sel
    ensures runs[0].history[0] == Snapshot(kit, Absent, Absent) && HandsOver(runs[0], locks, sha)
    ensures !AtHand(Last(runs[1]), locks, sha)
  {
    hide Complete, Chain, Usable, SafeFrom;
    CompleteIsDirectory(kit, sel, sha);
    CompleteIsUsable(kit, sel, locks, sha);
    AbsentUnusable(locks, sha);
    var first := FirstCrash(kit, sel, sha);
    RunWaits(first, locks, sha);
    var second := LosingRun(Snapshot(Absent, Absent, kit), sel, kit, sha);
    runs := [first, second];
  }

  lemma FirstCrash(kit: Node, sel: Selection, sha: Digest) returns (run: Run)
    requires Complete(kit, sel, sha)
    ensures run.sel == sel && IsRun(run, sha) && run.history[0] == Snapshot(kit, Absent, Absent)
    ensures Last(run) == Snapshot(Absent, kit, kit)
  {
    hide Complete, Chain;
    CompleteIsDirectory(kit, sel, sha);
    var a, b, c := Snapshot(kit, Absent, Absent), Snapshot(kit, kit, Absent), Snapshot(Absent, kit, kit);
    ChainStart([a], kit, sel, sha);
    ChainMore([a], b, 0, kit, sel, sha);
    ChainMore([a] + [b], c, 0, kit, sel, sha);
    run := Run([a] + [b] + [c], sel);
  }
}
