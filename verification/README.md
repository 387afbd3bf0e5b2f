# Verified model of the repository's policy tooling

The repository's policy checks are Python scripts that decide whether a change may be merged. This project models the
algorithms inside them and proves what they are for. Each module follows one script, or one part of a large one:

| modules | script | subject |
|---|---|---|
| `SchemaNodes`, `SchemaGate`, `SchemaAcceptance`, `SchemaLimits`, `SchemaSpelling` | `tools/check_schema_publication.py` | the schema evolution gate |
| `SchemaPublication`, `SchemaHistory` | the same | the publication manifest, its removal ledger, and runs of revisions |
| `JsonPointer` | `tools/check_sdl_lineage.py` | the pointer resolver |
| `KitRebuild` | `tools/devcontainer_setup.py`, `tools/bootstrap_profile.py` | the rebuild of the bootstrap kit, with failures and crashes |
| `Comparison` | `tools/check_related_work_comparison.py` | Pareto frontier, weighted ranking, sensitivity |
| `PrScanners`, `ClosingReferences`, `PrSections`, `PrContent`, `PrBody`, `PrAudit` | `tools/check_pr_body.py` | the pull request body check and its audit |
| `AdrLines`, `AdrSections`, `AdrCanonical`, `AdrAmendments`, `AdrRecords` | `tools/check_adr_immutability.py` | canonical content of decision records and the amendment gate |
| `IdentityHistory` | `tools/check_identity_cutover.py` | the generated history record |
| `ObjectWalk` | `tools/check_behavioral_relation_claims.py` | the walk with its own stack |
| `DigestFraming` | `tools/check_tooling_artifact_policy.py` | the bytes under the policy digest |
| `CiLatency` | `tools/ci_latency_report.py` | run metrics and the percentile |
| `FmLevels` | `tools/check_assurance_policy.py` | level order and growing artifacts |
| `RootOverlap` | `tools/check_authority_boundary.py` | root shapes and the overlap check |
| `Components` | `tools/design_wiring.py` | component edges of the import graph |

`Json`, `Ordering`, `Decimals`, `Separated`, `TextLines` and `Options` hold what several of them use: JSON documents as
the decoder builds them with three equalities, the orders of `sorted`, decimal text, splitting and joining, and lines and
words. `dafny verify dfyconfig.toml` checks everything.

Code that changes state step by step is a method with loops, or a class (`KitRebuild.Host`, `DigestFraming.Digest`),
proved equal to a specification function; the theorems are about those functions. Messages are constructors of failure
datatypes. Input and output, git, the network, archive contents, clocks and hash functions are parameters, or steps that
may fail or yield anything.

## What the proofs show about the code

- The gate is a preorder on all JSON documents. Acceptance is preserved on this fragment: no `$ref` and no
  `patternProperties`; the root carries only object keywords and annotations; property names are not empty; wherever the
  old schema admits objects it carries an object keyword and is closed; other keywords are scalar (plus `enum`), and none
  other than `type` changes between boolean and number. `SchemaLimits` shows what goes wrong without the conditions on
  booleans, scalar values, closed schemas, object keywords, root keywords and empty names, each time with all the other
  conditions met; `SchemaAcceptance.VerdictsExact` and `SchemaLimits.LeafExact` say how far the one on booleans is exact.
  Other keywords are read by an arbitrary function of keyword, value and instance, so the theorem holds under every
  reading; `required` and `additionalProperties` are read by sections 6.5.3 of JSON Schema Validation 2020-12 and 10.3.2.3
  of JSON Schema Core 2020-12, `enum` by section 6.1.2 of the former, `properties` by section 10.3.2.1 of the latter.
- Python's `==` takes `True`, `1` and `1.0` for equal. So `const: 1` may become `const: true`, and the `==` shortcut
  before the gate makes passing steps that do not compose. `SchemaLimits.LeafExact` and `SchemaSpelling.RunExact` give
  the exact conditions. The source compares the properties of a dict after sorting them, which `==` on dicts ignores.
- The kit rebuild is safe at every disk state, under any failure and any crash, over any sequence of runs. Copies into
  staging may bring any bytes, because the cache may change between check and copy; the later installation steps verify
  again, which is what makes a published kit complete. That a usable kit stays at hand is another matter: a run clears
  the previous path before it publishes, so a kit that a crash left set aside can be lost by the next run. A run is sure
  to keep one at hand exactly when it finds one published.
- A unit separator (code 31) is white space for `split` but not a blank for the closing pattern. A line that uses it
  between `Closes` and `#N` is counted by the audit and seen by no check; `PrAudit` has the exact condition
  for the numbers that the audit reads, and shows that such a line can stand in front of every accepted body.
- A section appended to a decision record whose last fence is open becomes part of its canonical content, and a second
  Amendments section makes canonicalisation not idempotent; both conditions are exact.
- Roots such as `./a/` and `a/` are both well shaped, name one directory, and are not seen to overlap;
  `RootOverlap.SpeltApartExact` says which spellings of nested directories the check misses.

## Model

| member | source | states |
|---|---|---|
| SchemaGate.SilentMeansCompatible | tools/check_schema_publication.py:344-379 | the gate reports nothing if and only if every object schema of the old document is still at its own pointer, loses no property, changes none (same default, same core, an enum that only grows by canonical text), requires nothing new and is not newly closed; for any two JSON documents |
| SchemaGate.GateReflexive | tools/check_schema_publication.py:344-379 | a document compared with itself is never a breaking change |
| SchemaGate.GateTransitive | tools/check_schema_publication.py:344-379 | two silent comparisons in a row make the comparison of the ends silent, for any three documents |
| SchemaGate.PropertySilent | tools/check_schema_publication.py:301-327 | one property is silent exactly when shapes agree; the independent description of the property rules |
| SchemaGate.NodeSilent | tools/check_schema_publication.py:344-379 | one shared pointer is silent exactly when properties, required names and closing are compatible |
| SchemaGate.EnumMissingNone | tools/check_schema_publication.py:290-292 | no enum value is missing exactly when every old value occurs among the new ones, by canonical text |
| SchemaGate.CheckNode | tools/check_schema_publication.py:344-379 | the loop body over one pointer reports exactly the specified changes, in order |
| SchemaGate.CompareIndexes | tools/check_schema_publication.py:344-379 | the loop over the sorted pointers reports exactly the specified changes, in order |
| SchemaGate.CheckSchemas | tools/check_schema_publication.py:344-379 | the two indexes and their comparison together are the specified gate |
| SchemaNodes.ObjectSchemaNodes | tools/check_schema_publication.py:249-260 | the recursive walk with its dict of results is the specified index |
| SchemaNodes.ListSchemaNodes | tools/check_schema_publication.py:249-260 | its inner loop over list items is the specified part of the index |
| SchemaNodes.IndexBijection | tools/check_schema_publication.py:244-260 | in a document without empty member names the index is in bijection with the object schemas: each has its own pointer, the entry there is that schema, and there are no other entries |
| SchemaNodes.NodesFrom | tools/check_schema_publication.py:249-260 | every entry of an index comes from a location of the document whose pointer is its key |
| SchemaNodes.NodesAt | tools/check_schema_publication.py:249-260 | every object schema on a clean route is indexed at its pointer |
| SchemaNodes.ResolveIndexedPointer | tools/check_sdl_lineage.py:98-112 | every non-root pointer of the index, written after `#/`, resolves in the same document to the indexed schema (RFC 6901 sections 3 and 4) |
| JsonPointer.UnescapeEscape | tools/check_schema_publication.py:244-246 | unescaping undoes escaping for every token |
| JsonPointer.PointerInjective | tools/check_schema_publication.py:244-246 | different locations with non-empty names have different pointers |
| JsonPointer.PointerDecodes | tools/check_sdl_lineage.py:98-112 | splitting and unescaping a pointer gives back exactly the steps it was built from |
| JsonPointer.ResolveJsonPointer | tools/check_sdl_lineage.py:98-112 | the resolver loop answers exactly whether the decoded steps lead to a value, and ends at that value |
| JsonPointer.ArrayIndexOfDecimal | implementations/python/packages/raes_contracts/json_pointer.py:66-74 | the decimal text of an existing list position names that position |
| SchemaAcceptance.AcceptancePreserved | tools/check_schema_publication.py:301-379 | no reported change preserves acceptance: on the fragment described above, under every reading of the other keywords, each instance that the old schema accepts the new one accepts |
| SchemaAcceptance.VerdictsExact | tools/check_schema_publication.py:301-379 | on the whole fragment, where the gate is silent: no keyword other than `type` changes between boolean and number if and only if no shared keyword of a shared property changes its verdict, under any reading and for any instance |
| SchemaAcceptance.ObjectKept | tools/check_schema_publication.py:301-379 | the object part of that theorem, for every object schema of the tree |
| SchemaAcceptance.PropertyIndex | tools/check_schema_publication.py:249-260 | below the pointer of a property the index of the parent is the index of the property schema |
| SchemaLimits.BooleanForNumber | tools/check_schema_publication.py:301-327 | inside the fragment, a keyword value replaced by one that `==` takes for equal passes, and any reading that tells the two apart on a value of the given type loses an instance |
| SchemaLimits.BooleanExact | tools/check_schema_publication.py:301-327 | inside the fragment, for one scalar keyword beside a type that some value has and that excludes objects: acceptance is kept under every reading if and only if the value does not change between boolean and number |
| SchemaLimits.LeafExact | tools/check_schema_publication.py:301-379 | for any two property schemas of the fragment that admit no objects and that the gate passes: acceptance is kept under every reading if and only if no keyword changes between boolean and number, or the old type and enum admit no value at all |
| SchemaLimits.ConstBooleanForNumber | tools/check_schema_publication.py:301-327 | the concrete case inside the fragment: an integer property with `const: 1` gets `const: true`, passes, and loses the instance 1 |
| SchemaLimits.AnnotationInValue | tools/check_schema_publication.py:263-327 | a keyword value that is no scalar loses an instance by a changed annotation inside it: only that condition of the fragment is broken |
| SchemaLimits.OpenObject | tools/check_schema_publication.py:344-379 | without `additionalProperties: false` a gained property loses instances; every condition but that on closed schemas holds |
| SchemaLimits.HiddenObject | tools/check_schema_publication.py:249-260 | a schema that admits objects without an object keyword is no node, and what it later requires goes unseen; every other condition holds |
| SchemaLimits.RootKeyword | tools/check_schema_publication.py:344-379 | a root keyword other than the object keywords is never compared; every other condition holds |
| SchemaLimits.EmptyName | tools/check_schema_publication.py:244-260 | a property with the empty name hides the schema of a sibling; every condition but that on names holds |
| SchemaLimits.ReorderedReported | tools/check_schema_publication.py:244-260 | with an empty name two documents with one canonical text can differ for the gate, so the shortcut before it does skip a report |
| SchemaSpelling.ShortcutExact | tools/check_schema_publication.py:460-463 | for any two documents the gate is silent if and only if they are honest: at each pointer of the old one the new one has an object schema whose enums keep every text, whose properties and core are equal for `==`, and which is closed only if the old one is |
| SchemaSpelling.HonestExact | tools/check_schema_publication.py:460-474 | a passing step of any two documents is one that the gate itself passes if and only if its shortcut, when it was taken, was honest |
| SchemaSpelling.HonestIsSpelled | tools/check_schema_publication.py:460-463 | for documents equal for `==` and without empty names, honest means: enum values keep their text, and `false` is not written over a zero |
| SchemaSpelling.UntouchedHonest | tools/check_schema_publication.py:460-463 | an unchanged document is honest, whatever its member names are |
| SchemaSpelling.ShortcutRedundant | tools/check_schema_publication.py:460-463 | for documents with one canonical text and no empty names the shortcut skips nothing; `SchemaLimits.ReorderedReported` shows that it can with an empty name |
| SchemaSpelling.ShortcutDoesNotCompose | tools/check_schema_publication.py:460-463 | three schemas whose two steps pass while first and last do not: the shortcut is not transitive |
| SchemaSpelling.RunCompatible | tools/check_schema_publication.py:460-474 | along any run of passing steps with honest shortcuts, unchanged schemas among them whatever their names, the first schema is compatible with the last |
| SchemaSpelling.RunExact | tools/check_schema_publication.py:460-474 | along any run of passing steps every earlier schema is compatible with every later one if and only if every step is honest |
| SchemaSpelling.RunPreservesAcceptance | tools/check_schema_publication.py:460-474 | along a run with honest steps whose ends are in the fragment no instance of the first schema is lost, whatever lies between |
| SchemaPublication.CheckFile | tools/check_schema_publication.py:622-645 | no failure exactly when the path is sound, resolves to a file of the tree whose stem is the id, and the file parses |
| SchemaPublication.CheckEntry | tools/check_schema_publication.py:590-654 | one pass of the entry loop is silent exactly on a sound entry that sorts after, and repeats nothing of, what came before, and then advances the loop state by it |
| SchemaPublication.CheckEntries | tools/check_schema_publication.py:585-654 | the entry loop is silent exactly on sound, strictly ascending entries with distinct paths, and collects exactly them |
| SchemaPublication.ReadTombstones | tools/check_schema_publication.py:478-514 | the ledger loop keeps exactly the sound tombstones and fails exactly when one is not |
| SchemaPublication.CheckStable | tools/check_schema_publication.py:438-474 | no failure for a stable entry exactly when its path is unchanged, its base blob parses and the step passes |
| SchemaPublication.CheckStableSchemaChanges | tools/check_schema_publication.py:425-475 | no failure exactly when there is no stable entry, or the base can be read and every stable entry is kept |
| SchemaPublication.CheckRemovalLedger | tools/check_schema_publication.py:517-546 | no failure exactly when every schema path of the base is still listed or has a tombstone |
| SchemaHistory.CompareSets | tools/check_schema_publication.py:656-669 | the three set loops are silent exactly when listed and published paths agree and no tombstone names one |
| SchemaHistory.CheckHeader | tools/check_schema_publication.py:574-583 | the header checks are silent exactly on a known version, no retired key and a non-empty list |
| SchemaHistory.ValidateManifest | tools/check_schema_publication.py:563-682 | the whole validation is silent exactly on a revision that passes, with or without a base |
| SchemaHistory.ManifestBijection | tools/check_schema_publication.py:563-669 | zero failures: ids strictly ascend, entries are in bijection with the published files, each id is the stem of its file, no tombstone names a published file |
| SchemaHistory.RemovalsHaveTombstones | tools/check_schema_publication.py:517-546 | zero failures against a base: every schema path that the base listed and the tree lost has a tombstone |
| SchemaHistory.StableStep | tools/check_schema_publication.py:425-475 | between two passing revisions a contract stable in both keeps its path and its schema passes the step |
| SchemaHistory.StablePath | tools/check_schema_publication.py:425-475 | along any run of passing revisions a contract that stays stable keeps its path |
| SchemaHistory.StableRun | tools/check_schema_publication.py:425-475 | along any run of passing revisions, every earlier schema of a contract that stays stable is compatible with every later one if and only if every shortcut on the way was honest |
| KitRebuild.Host.PrepareKit | tools/devcontainer_setup.py:117-174 | whatever fails and wherever the run stops, every state of the disk is safe: the published path holds the untouched old kit, nothing, or a complete kit whose archives match the lock; an old kit stays at the published or the previous path until a complete one is published; every state comes from the one before by one of the listed effects; a finished run reports exactly the fetched archives |
| KitRebuild.Host.VerifiedArchive | tools/devcontainer_setup.py:103-114 | true exactly for a readable regular file of the locked size and digest |
| KitRebuild.Host.FeedDigest | tools/devcontainer_setup.py:108-114 | feeding chunk by chunk gives the digest of the whole file |
| KitRebuild.Host.CollectArchives | tools/devcontainer_setup.py:136-148 | the two archives that do not verify, in order, are the missing ones; nothing but staging changes |
| KitRebuild.Host.Fetch | tools/bootstrap_profile.py:510-588 | when the fetch is done every requested payload verifies; whenever it ends, the payloads reported so far verify, older files are untouched, and only the payload at which it stopped may be left unverified; published and previous kit are untouched throughout |
| KitRebuild.Host.InstallUv | tools/bootstrap_profile.py:636-699 | on success the archive in staging matched the lock and both clients are in place; otherwise only staging changed |
| KitRebuild.Host.InstallPython | tools/bootstrap_profile.py:591-633 | on success the archive in staging matched the lock and the interpreter directory is in place; nothing else in staging was touched |
| KitRebuild.Host.LinkPython | tools/devcontainer_setup.py:153-156 | on success exactly the `current` link is added, where nothing was |
| KitRebuild.Host.BuildStaging | tools/devcontainer_setup.py:136-156 | everything before the swap leaves the published and previous paths alone, and success means a complete kit in staging |
| KitRebuild.Host.SetAside | tools/devcontainer_setup.py:160-161 | the first rename has its whole effect or none, in one disk effect |
| KitRebuild.Host.Publish | tools/devcontainer_setup.py:162-164 | the second rename has its whole effect or none, in one disk effect |
| KitRebuild.Host.Swap | tools/devcontainer_setup.py:157-168 | the two renames keep every intermediate disk state safe; a refused swap leaves the old kit published or set aside |
| KitRebuild.Host.RemovePrevious | tools/devcontainer_setup.py:157-165 | removing the previous kit goes file by file, may stop anywhere and leaves the published path alone |
| KitRebuild.UnverifiedExact | tools/devcontainer_setup.py:137-150 | an archive is fetched if and only if it is unreadable or does not match the lock |
| KitRebuild.CompleteKitReused | tools/devcontainer_setup.py:136-150 | a run that finds a readable complete kit of the same lock fetches nothing |
| KitRebuild.CrashIsRun | tools/devcontainer_setup.py:117-174 | a run stopped at any point of its history is again a safe run, made of the same effects |
| KitRebuild.CampaignSafe | tools/devcontainer_setup.py:117-174 | over any sequence of runs, each stopped anywhere, no partial kit is ever published |
| KitRebuild.RetentionExact | tools/devcontainer_setup.py:157-165 | for any disk, and a lock that some archives match: a run is sure to have a usable kit published or set aside at every moment if and only if it finds one published |
| KitRebuild.CampaignRetains | tools/devcontainer_setup.py:117-174 | over any sequence of runs a usable kit is published or set aside at every moment as long as each run finds one published |
| KitRebuild.TwoCrashes | tools/devcontainer_setup.py:157-165 | from any complete published kit two crashes can lose it: the first leaves it set aside, the next run clears it away before it publishes |
| KitRebuild.Assembled | tools/bootstrap_profile.py:591-699 | the two installations and the link do not disturb each other: together they leave a complete kit |
| Comparison.ParetoFrontier | tools/check_related_work_comparison.py:839-861 | the nested loops with their `dominated` flag return exactly the specified frontier |
| Comparison.CompareRows | tools/check_related_work_comparison.py:848-856 | one comparison of two rows decides dominance, with missing cells deciding against it |
| Comparison.DominanceStrict | tools/check_related_work_comparison.py:848-856 | dominance is irreflexive, asymmetric and transitive, for any table |
| Comparison.FrontierComplete | tools/check_related_work_comparison.py:839-861 | for any table: the frontier is exactly the non-dominated systems in ascending order, holds a dominator of every excluded system, and is not empty when there are systems |
| Comparison.MissingCellKept | tools/check_related_work_comparison.py:848-856 | a system with a missing cell is always kept |
| Comparison.WeightedTotals | tools/check_related_work_comparison.py:864-878 | the loops over systems and weights compute the specified totals |
| Comparison.RankingUnique | tools/check_related_work_comparison.py:881-882 | the ranking lists every system once, by total descending and then id, and is the only such list |
| Comparison.RankingScaleInvariant | tools/check_related_work_comparison.py:864-882 | scaling all weights by a positive factor leaves the ranking unchanged |
| Comparison.WinnerOnFrontier | tools/check_related_work_comparison.py:839-882 | under all-positive weights the first-ranked system is on the frontier over the weighted axes |
| Comparison.TopTotalOnFrontier | tools/check_related_work_comparison.py:839-882 | under non-negative weights some system of the top total is on the frontier |
| Comparison.Sensitivity | tools/check_related_work_comparison.py:1185-1265 | the profile loop with its shape, weight and drift checks, and the comparison of the record with the profile ids, winners and reversal flag, report exactly the specified failures; winners and reversal are those of the specification |
| Comparison.SensitivityExact | tools/check_related_work_comparison.py:1185-1265 | nothing is reported if and only if every profile has admitted weights and records the totals and the one ranking that they give, and the record names the profiles in order, exactly the systems that some recorded ranking puts first, ascending, and whether there are two of them |
| Comparison.ReversalMeaning | tools/check_related_work_comparison.py:1185-1256 | a reversal is recorded exactly when two admitted profiles rank different systems first |
| PrScanners.StripIgnoredText | tools/check_pr_body.py:79-98 | the fence loop keeps exactly the lines outside fences, after comment removal |
| PrScanners.FencedBlockRemoved | tools/check_pr_body.py:79-98 | a fence with everything in it, up to the first line of the same character that is at least as long, is removed and leaves no trace in the scan |
| PrScanners.KeptLines | tools/check_pr_body.py:79-98 | no kept line opens or closes a fence |
| PrScanners.Sections | tools/check_pr_body.py:108-123 | the section loop fills its dict with exactly the contents of the sections, in order |
| PrScanners.ReadIssueNumbers | tools/check_pr_body.py:135-151 | the number loop returns the declared numbers in order, each once |
| PrScanners.DedupExact | tools/check_pr_body.py:151-151 | deduplication keeps every number, each once |
| PrSections.ScannersAgree | tools/check_pr_body.py:108-123 | the sectioniser and the tracker of the route check place every line of every text in the same section |
| PrSections.NumbersUnder | tools/check_pr_body.py:135-151 | a text declares what one section declares, in order, if and only if no declaring line is outside that section |
| PrSections.ContentNumbers | tools/check_pr_body.py:118-122 | joining and stripping a section and cutting it again loses and adds no declared number |
| PrSections.SplitTrail | tools/check_pr_body.py:140-151 | what one more trailing space does to the lines of any text |
| PrContent.ContentReread | tools/check_pr_body.py:135-151 | when the content of a section goes through comment and fence removal again, all its declarations survive or nothing of it does |
| PrContent.ContentMarks | tools/check_pr_body.py:79-98 | stripping can make a fence only of the first line of a section |
| ClosingReferences.DeclaringLineMatches | tools/check_pr_body.py:173-190 | a standalone `Closes #N` line holds a match of the closing pattern if and only if blanks alone separate its two words |
| ClosingReferences.BlankGapMatches | tools/check_pr_body.py:173-190 | with blanks between the words every declaring line is matched |
| ClosingReferences.MatchHasBlankGap | tools/check_pr_body.py:173-190 | a match in a declaring line can only be its two words, joined by blanks |
| PrBody.ValidateRequiredSections | tools/check_pr_body.py:212-223 | the loop over the required headings reports exactly the specified violations |
| PrBody.RequiredExact | tools/check_pr_body.py:212-223 | no violation exactly when each required section occurs once and has content, unless it has rules of its own |
| PrBody.NoIssueReasons | tools/check_pr_body.py:160-170 | the loop collects exactly the reasons of the `No issue:` lines |
| PrBody.ValidateIssues | tools/check_pr_body.py:259-289 | the declared issues are inspected as specified, and references and reasons exclude each other |
| PrBody.InspectedExact | tools/check_pr_body.py:233-256 | no violation among the declarations exactly when each names an open issue whose requirement scope fits its keyword |
| PrBody.ValidateClosingRoutes | tools/check_pr_body.py:292-310 | the loop with its own section tracker reports exactly the specified stray references |
| PrBody.RouteExact | tools/check_pr_body.py:292-310 | no violation exactly when every line without exception holds no closing reference or declares a number while the tracking section is current |
| PrAudit.RouteMeaning | tools/check_pr_body.py:292-310 | for a body whose cleaned text has no comment opener: no violation exactly when each line with a closing reference is a whole declaring line of the tracking section |
| PrBody.ValidatePrBody | tools/check_pr_body.py:330-341 | the five parts in order, or the error for a malformed repository name |
| PrAudit.AcceptedAudit | tools/check_pr_body.py:330-341 | acceptance of a body whose cleaned text has no comment opener: one Related Issues section, its closing numbers verified open and without requirement scope; the numbers that the audit reads, each once, are exactly those of the section in order if and only if each hidden closing line outside it repeats a number declared before it or stands just where the section has its number next; with repetitions, if and only if there is no hidden line |
| PrSections.DedupUnder | tools/check_pr_body.py:135-151 | the whole text declares the numbers of one section, each once and in order, if and only if each stray declaring line repeats an earlier number or gives just the next number of the section |
| PrAudit.SeparatorFreeAudit | tools/check_pr_body.py:381-400 | without a unit separator in the cleaned text the numbers of the audit are always those of the section, each verified |
| PrAudit.HiddenLineAccepted | tools/check_pr_body.py:292-310 | for every body: putting a line `Closes`, unit separator, `#N` in front changes no violation and puts N in front of the declarations that the audit reads |
| PrAudit.IssueExact | tools/check_pr_body.py:233-289 | the tracking section is in order exactly when it declares open issues only, `Refs` for those with requirement scope and `Closes` for those without, and states no reason; or declares none and states one reason with substance |
| PrAudit.TrackingContent | tools/check_pr_body.py:212-223 | an accepted body has one tracking section, and its content is what the tracker places there |
| AdrSections.AmendmentsSectionBounds | tools/check_adr_immutability.py:86-116 | the offset loop and the fence loop return exactly the specified bounds |
| AdrSections.BeforeHeading | tools/check_adr_immutability.py:102-112 | the section starts at the first Amendments heading outside a fence |
| AdrSections.SectionWhole | tools/check_adr_immutability.py:102-112 | within the section there is no level-two heading outside a fence |
| AdrCanonical.CutLines | tools/check_adr_immutability.py:119-125 | cutting characters cuts whole lines: the lines of the result are the lines before and behind the section |
| AdrCanonical.CanonicalCore | tools/check_adr_immutability.py:128-138 | canonical content spells out the trimmed lines of the body without the empty ones at the end |
| AdrCanonical.CanonicalExact | tools/check_adr_immutability.py:128-138 | two records have the same canonical content if and only if those trimmed lines are the same: trailing white space and final line feeds are ignored and nothing else |
| AdrAmendments.ReplaceSection | tools/check_adr_immutability.py:86-138 | the section can be replaced by any other without another level-two heading, fence-balanced and newline-terminated where text follows; the canonical content stays |
| AdrAmendments.AppendSectionExact | tools/check_adr_immutability.py:86-138 | a first section appended after any blank lines to a newline-terminated text leaves the canonical content unchanged if and only if the text closes its fences |
| AdrAmendments.IdempotentExact | tools/check_adr_immutability.py:128-138 | canonicalisation is idempotent on a text if and only if nothing but one Amendments section was in it |
| AdrRecords.AmendmentRefs | tools/check_adr_immutability.py:146-168 | the row loop returns exactly the references of the specified rows, in order |
| AdrRecords.RowRecords | tools/check_adr_immutability.py:146-168 | a well-formed row with a real date records its reference |
| AdrRecords.RecordAmendment | tools/check_adr_immutability.py:128-168 | inserting rows anywhere below the heading never changes the canonical content, and adds exactly their references at their place |
| AdrRecords.CheckUnrecordedEdits | tools/check_adr_immutability.py:348-395 | the loop flags exactly the entries with a changed digest and no new reference; an unresolved base is the only failure |
| AdrRecords.UnrecordedExact | tools/check_adr_immutability.py:375-395 | where the digest tells the contents apart, an entry fails exactly when the trimmed bodies differ and no reference is new |
| AdrRecords.AmendmentOnlyPasses | tools/check_adr_immutability.py:375-395 | a record changed only in rows of its section never fails, whatever the digest |
| AdrRecords.RecordedEditPasses | tools/check_adr_immutability.py:375-395 | any edit passes once a row with a fresh reference is recorded in its section |
| IdentityHistory.EvaluateGeneratedHistory | tools/check_identity_cutover.py:310-361 | silent exactly when the tail is complete and has the declared count and the head is free of the name |
| IdentityHistory.JoinExact | tools/check_identity_cutover.py:32-37 | no match of the pattern and nothing that it looks back at spans a line end: joined at a line end, two texts hold the name exactly when one of them does |
| IdentityHistory.InsertExact | tools/check_identity_cutover.py:310-361 | lines inserted at a line boundary of the head leave a record passing if and only if it passed and the lines are free of the name |
| IdentityHistory.ReleasesExact | tools/check_identity_cutover.py:310-361 | over any sequence of releases a passing record keeps passing if and only if each inserts only free lines |
| IdentityHistory.TailOnly | tools/check_identity_cutover.py:331-343 | the count failure depends on the classified bytes alone |
| IdentityHistory.NoMatchExact | tools/check_identity_cutover.py:32-37 | the left-to-right search without overlap finds nothing exactly when no position starts a match |
| ObjectWalk.IterObjects | tools/check_behavioral_relation_claims.py:206-220 | the stack walk yields the recursive preorder and terminates by the size of what is on the stack |
| ObjectWalk.ObjectsAtPositions | tools/check_behavioral_relation_claims.py:206-220 | the k-th object yielded is the one at the k-th object position |
| ObjectWalk.PositionsExact | tools/check_behavioral_relation_claims.py:206-220 | the positions are those of the objects of the document and no others |
| ObjectWalk.PositionsInOrder | tools/check_behavioral_relation_claims.py:206-220 | the positions are in strict document order and distinct, so no object is yielded twice |
| DigestFraming.ToolingPolicySha256 | tools/check_tooling_artifact_policy.py:113-136 | the two loops feed the digest object exactly the framing of the schemas and the present files |
| DigestFraming.DecodeEncode | tools/check_tooling_artifact_policy.py:123-135 | a decoder gives back every sequence of frames with lengths below 2^64 |
| DigestFraming.EncodeDecode | tools/check_tooling_artifact_policy.py:123-135 | the decoder accepts nothing but framings |
| DigestFraming.EncodeInjective | tools/check_tooling_artifact_policy.py:123-135 | different sequences of frames never give the same byte string |
| DigestFraming.PreimageDecides | tools/check_tooling_artifact_policy.py:113-136 | with the path lists fixed, the bytes decide every schema payload and, for each Python file, whether it exists and what it holds |
| CiLatency.PercentileBetween | tools/ci_latency_report.py:175-186 | the percentile lies between the smallest and the largest value |
| CiLatency.PercentileInFraction | tools/ci_latency_report.py:175-186 | a larger fraction never gives a smaller percentile, across segments too |
| CiLatency.PercentilePermuted | tools/ci_latency_report.py:175-186 | the order of the values plays no role |
| CiLatency.PercentileInData | tools/ci_latency_report.py:175-186 | the percentile never falls when values rise |
| CiLatency.PercentileAtPlace | tools/ci_latency_report.py:175-186 | at the rank of a place it is the value of that place of the sorted list |
| CiLatency.AggregateJobs | tools/ci_latency_report.py:129-146 | the loop fills its three lists as specified; mixed timestamps are the only error |
| CiLatency.ParseRun | tools/ci_latency_report.py:149-172 | execution, first failure and final required time are the extremes of their lists; queue time exactly for a first attempt that starts after its creation; mixed timestamps are the only error |
| CiLatency.WithinExecution | tools/ci_latency_report.py:129-172 | first failure and final required completion fall within the execution time |
| FmLevels.KeyOrderIsNumeric | tools/check_assurance_policy.py:519-534 | the key orders digit strings of any length exactly as their numeric values |
| FmLevels.CheckLevels | tools/check_assurance_policy.py:328-514 | the duplicate, order and neighbour parts report exactly the specified failures |
| FmLevels.NeighboursDecide | tools/check_assurance_policy.py:494-514 | when the neighbours pass, required artifacts grow along every pair |
| FmLevels.CheckLevelsExact | tools/check_assurance_policy.py:331-514 | the check passes exactly when text ids are unique, FM numbers ascend and required artifacts grow along every pair of FM levels |
| FmLevels.IdNamePaired | tools/check_assurance_policy.py:1494-1505 | true exactly when some occurrence of the id has the name within the window |
| RootOverlap.CheckRoots | tools/check_authority_boundary.py:330-432 | the entry loop with `seen_ids` and `seen_roots` yields the specified roots and failures |
| RootOverlap.ScanExact | tools/check_authority_boundary.py:330-432 | an entry list passes exactly when it is a list of well-shaped roots with distinct ids and paths, and is then validated whole |
| RootOverlap.ScanValid | tools/check_authority_boundary.py:459-531 | validated roots are always well shaped and distinct |
| RootOverlap.CheckOverlap | tools/check_authority_boundary.py:958-1057 | the collision, legacy and ancestor loops report exactly the specified overlaps |
| RootOverlap.LegacyExact | tools/check_authority_boundary.py:995-1018 | a legacy hit is reported exactly when the first component of a root is a legacy directory |
| RootOverlap.OverlapIsCommonPath | tools/check_authority_boundary.py:958-1057 | a cross-category overlap is reported if and only if some path text lies under roots of both classes |
| RootOverlap.OverlapIsSharedDirectory | tools/check_authority_boundary.py:958-1057 | unless two roots of different classes part in their spelling, a cross-category overlap is reported if and only if some directory lies under roots of both classes |
| RootOverlap.SpeltApartExact | tools/check_authority_boundary.py:958-1057 | two roots name nested directories and go unreported if and only if behind equal written components one goes on with an empty or a dot component where the other goes on differently, and what they name from there on is nested |
| RootOverlap.SpellingExact | tools/check_authority_boundary.py:958-1057 | the check is exact on directories for every pair of given validated roots if and only if no pair parts in its spelling |
| RootOverlap.PlainTogether | tools/check_authority_boundary.py:317-327 | two roots without empty and dot components never part |
| RootOverlap.ReportedIsShared | tools/check_authority_boundary.py:958-1057 | whatever is reported is a directory of both classes, for all validated roots |
| RootOverlap.DotRootUnseen | tools/check_authority_boundary.py:317-327 | a leading `./` is well shaped, names the same directory and is not reported: spellings do part |
| Components.ComponentEdges | tools/design_wiring.py:38-48 | the counter holds exactly the positive counts of imports between distinct components; a depth below one is the only error |
| Components.ComponentTwice | tools/design_wiring.py:32-35 | the component of a component is the component at the smaller depth |
| Components.CoarseningCommutes | tools/design_wiring.py:32-48 | for d up to e the counter at depth d is the counter at depth e merged by component, without self edges |
| Components.NodeIdsCover | tools/design_wiring.py:51-61 | node ids tell names apart, and every component and edge end has its node line |
| Components.EdgesCovered | tools/design_wiring.py:51-61 | every counted edge has its line between the nodes of its two components |
| Components.RenderedLines | tools/design_wiring.py:51-61 | split at its line feeds, the drawing is the header, the node lines and the edge lines, for names without line feeds |
| Components.RenderingDecides | tools/design_wiring.py:51-61 | two drawings with the same text show the same components, edges and counts, for names without line feeds |

## Left out

- Git, subprocesses, the network, archive extraction, argument parsing, printing, message texts and JSON reports: their
  results are inputs, or steps that may fail.
- YAML, TOML, XML and pydantic parsing, the loading of record directories, JSON numbers that are not finite, symbolic
  links among schema files, and the branches for documents beyond the recursion limit.
- Negative zero: numbers with a fraction are reals, so `0.0` and `-0.0`, which are equal for `==` and have different
  canonical texts in the source, are one value here.
- Unicode line ends, white space, digits and case folding: text is modelled as ASCII text.
- The interpreter's limit on integer digits: a declared issue number is read whatever its length.
- SHA-256: any function from bytes to digests in its place; only `AdrRecords.UnrecordedExact` needs that it tells two given
  contents apart.
- `$ref`, `patternProperties` and the meaning of schema keywords outside the fragment in the acceptance theorem; the
  preorder theorem has no such limit.
- The prose judgements of the pull request body check (`_meaningful` and the evidence test): they are parameters.
- Exemption of automation pull requests, the audit's rendering, and the event and fixture readers of the same script.
- The canonical root bindings, directory existence and README drift checks of the authority boundary script, and the field
  checks, category floors and document drift checks of the assurance policy script: long lists of one-branch facts.
- The manifest shape checks, pins and status rules of the decision record script.
- `_sentence_around`, the claim patterns and other heuristic wording checks: easy members or pattern lists.
- The manifest parsing and live-token scan of the identity script; only the generated history record is modelled.
- The array index helper is modelled on ASCII digits, which is all that its own rule admits.
- CiLatency.Percentile: fractions outside 0 to 1 are excluded; the source's callers use 0.5 and 0.95, and numbers are
  exact instead of floating point.
- Comparison.Sensitivity: recorded totals, rankings, ids and winners have the types of the recomputed ones; a value of
  another type is drift in the source. The rest of the analysis validation compares values one by one.
- KitRebuild.RetentionExact: what a run does inside its staging directory is any change of it, so a run of the lemma may
  fill that directory in fewer effects than the installation needs.
- KitRebuild.Host.PrepareKit: one run at a time; two runs on one kit at once are not modelled, as the source has no lock
  either.
- RootOverlap.CheckOverlap: takes validated roots, so that the dictionaries keyed by root lose no entry.
