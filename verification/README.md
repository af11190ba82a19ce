# config-weave: verified models of the hard parts

config-weave brings a machine into the state a playbook describes. This project
models, in Dafny, the parts of it whose correctness is hardest to see by reading:

* **The play scheduler and what feeds it** — `Status`, `Plans`, `Schedule`,
  `ScheduleInvariant`, `ScheduleTheorems`, `Scheduler`, `Plays`, `Expansion`, `Dag`,
  `Barrier`, `Planner`, `WaitSteps`. The scheduler is a class over the local variables
  of `schedule`, and every move it makes is one action of a state machine on values;
  the theorems hold for every sequence of actions, that is for every interleaving of
  scans and completions. A play's outcomes are fixed per step and chosen freely
  (`Plans.Setup.outcomes`), which covers every environment because a step reports at
  most once. In-flight steps are assumed to report eventually, as the open sender in
  `src/engine/run.rs:584-586` provides for.
* **The document lens of the graphical editors** — `DocAst`, `DocSchema`, `DocSync`,
  `DocLens`, `DocTheorems`, `DocRoundTrip`, `DocConservation`, `DocExact`, `DocStable`,
  `DocEditor`, `DocFile`.
  One table (`DocSchema.Fields`, `KvKinds`, `ParamShapes`, `ChildShapes`) holds what the
  individual `sync_*` and `extract_*` functions write and read for each document kind,
  in their order; one writer and one reader run over the table. The parser and printer
  of expressions are parameters (`DocSchema.Syntax`).
* **The Windows ACL codec** — `Bytes`, `Texts`, `Sids`, `AclCodec`, `AclRights`, `AclDiff`.
* **Version ranges** — `VersionOrder`, `VersionText`, `VersionRange`, `RangeText`.
* **Machines driven by what they observe** — `Download` and `Downloader` (resumable
  download), `Services` (driving and restarting services), `WaitSteps` (polling),
  `Canonical` and `GatherPhase` (sharing gatherer executions).

Where the source updates a structure in place, the model is a class or a loop whose
contract equates the result with a function, and the theorems are about that function.

Five laws one might expect do not hold of the code without a condition. Each has an input on
which it fails and its exact condition:

* **Encapsulation.** A name required in a composite body can reach a step outside the
  invocation when a playbook container is named like an invocation
  (`Barrier.ClashBreaksEncapsulation`, a play the loader accepts); it never does exactly in the
  sealed plays (`Barrier.EncapsulatedIffSealed`).
* **Caching.** The comment at `src/engine/run.rs:173-175` calls an invocation's path unique, but
  the loader never compares container names with invocation names. In the same play a step is
  planned under another invocation's arguments (`Planner.ClashBreaksCaching`); cached planning
  equals fresh planning for every document exactly when no cache key stands for two invocations
  (`Planner.CachingIsExactIff`).
* **The tightest class along the chain.** A nested invocation that declares a class hides its
  enclosing one (`Expansion.OuterClassCanBeLost`); a step gets the tightest class exactly when no
  invocation on its chain is loosened by one inside (`Expansion.ClassIsTightestIff`).
* **A saved document reads back.** Clearing a key-value block can uncover a second one of its kind
  (`DocStable.ClearedMapUncovers`, `DocExact.PutGetIff`).
* **A second save changes nothing.** With two empty blocks of one kind the first save reads back and
  the second still removes a block (`DocStable.EmptyMapsDwindle`, `DocStable.SecondSyncIff`).

A sixth, that a gatherer's variable holds its result, has its condition in `GatherPhase.HoldsResultIff`:
no `--var` or `--var-file` value is there. The deadlock guard, the bare retry and the "never reported"
fallback of the scheduler are unreachable and have no counterpart in `Scheduler.Execute`.

## Model

| member | source | states |
|---|---|---|
| Status.ExitCode | src/engine/status.rs:106-119 | 1 exactly for an error, 3 exactly for a pending reboot in apply mode without one, else 0 |
| Schedule.After | src/engine/run.rs:591-848 | a run is any sequence of scan turns and completions; its state keeps one flag and one report slot per step |
| ScheduleInvariant.Reachable | src/engine/run.rs:591-839 | every reachable state keeps flags, pool, key, lock, global and halt bookkeeping consistent |
| ScheduleInvariant.ExclusionInEveryRun | src/engine/run.rs:666-762 | of two steps in flight none is global, both are not exclusive on one key, they hold different locks and workers, and the play is not sequential |
| ScheduleInvariant.BookkeepingMirrorsFlight | src/engine/run.rs:666-824 | counter, exclusive keys, held locks, global flag and idle queue mirror the steps in flight exactly |
| ScheduleTheorems.Progress | src/engine/run.rs:591-867 | with acyclic dependencies a quiet state has every step dispatched, completed and reported, so the deadlock guard and fallbacks are dead code |
| ScheduleTheorems.RunsExtend | src/engine/run.rs:589-839 | reports are final, nothing is dispatched twice, a halt is never undone and nothing starts after it |
| ScheduleTheorems.AfterHaltNotRun | src/engine/run.rs:600-611 | a step not dispatched when the run halts can only end NotRun |
| ScheduleTheorems.HaltedIffHaltingVerdict | src/engine/run.rs:825-832 | whether a finished run was halted is decided by the recursive verdicts alone |
| ScheduleTheorems.FinishedRunsReportVerdicts | src/engine/run.rs:589-839 | a finished run reports each step's recursive verdict, or NotRun when the run halted |
| ScheduleTheorems.Confluence | src/engine/run.rs:589-839 | without a halting verdict any two finished runs, under any worker counts, sequential or not, end with the same reports |
| ScheduleTheorems.ContinueOnErrorNeverHalts | src/engine/run.rs:825-829 | continue-on-error with no reboot outcome in apply mode leaves no halting verdict |
| ScheduleTheorems.NoStartAfterFailedRequirement | src/engine/run.rs:612-637 | in apply mode a step in flight has all its transitive requirements completed and none Error, NotRun or RebootRequired |
| ScheduleTheorems.NotRunFailsTheRun | src/engine/status.rs:106-119 | any NotRun in a finished report, a cancelled waiter's included, forces a non-zero exit code |
| Scheduler.Scheduler.VisitStep | src/engine/run.rs:596-754 | one turn of the scan is exactly the state machine's turn and reports whether it moved |
| Scheduler.Scheduler.StartJob | src/engine/run.rs:697-749 | a job starts exactly when the gates allow it, taking the worker at the head of the queue |
| Scheduler.Scheduler.Dispatch | src/engine/run.rs:593-761 | ends with a global step running or with no step that a further scan would move |
| Scheduler.Scheduler.ReceiveDone | src/engine/run.rs:800-839 | one completion is exactly the state machine's receive |
| Scheduler.Scheduler.Execute | src/engine/run.rs:591-868 | the loop terminates, every step ends with its verdict or NotRun under a halt, and it halts exactly when some verdict is a halting one |
| Expansion.Loader.ExpandComposite | src/model/load.rs:488-577 | terminates on every declaration set, restores the chain, reports a cycle or too deep a nest and then yields nothing |
| Expansion.Loader.LoadItems | src/model/load.rs:429-486 | yields the expansion of the declarations and each declared name once |
| Expansion.Loader.LoadPlay | src/model/load.rs:380-427 | no new diagnostic means the declared names are distinct and every requires names another of them |
| Expansion.Loader.CheckNames | src/model/load.rs:404-412 | a diagnostic is added exactly when a name is declared twice |
| Expansion.Loader.CheckRequires | src/model/load.rs:413-425 | a diagnostic is added exactly when a declaration requires itself or an unknown name |
| Expansion.ExpandEmits | src/model/load.rs:488-577 | every emitted step is no composite, its composites never repeat, at most eight nest, and its path is the containers plus its frames |
| Expansion.LoadEmits | src/model/load.rs:429-577 | the same for every step of a loaded play |
| Expansion.ExpandDeclared | src/model/load.rs:530-576 | every frame was declared by the composite of the frame before and the step by the last one, with the requires written there |
| Expansion.LoadDeclared | src/model/load.rs:429-577 | the same for every step of a loaded play: expansion invents nothing |
| Expansion.LoadPrefixFree | src/model/load.rs:380-486 | distinct names at every declaration level make no step's trail of names a prefix of another's |
| Expansion.OuterClassCanBeLost | src/model/load.rs:548-567 | a global invocation whose body nests a parallel one runs its steps as parallel |
| Expansion.ExpandClass | src/model/load.rs:548-567 | every emitted resource step has the tighter of its own declared class and the innermost class declared along its chain of invocations; a wait step has none |
| Expansion.LoadClass | src/model/load.rs:429-577 | the same for every step of a loaded play |
| Expansion.ClassIsTightestIff | src/model/load.rs:548-567 | that class is the tightest of the whole chain if and only if no invocation is tighter than both the step and the innermost declaring one inside it |
| Dag.Build | src/engine/dag.rs:71-131 | the lists are ascending and hold exactly the resolved requires; success means acyclic and failure means cyclic |
| Dag.Requirements | src/engine/dag.rs:84-105 | collects exactly the steps that some level of the step's requires resolves to, itself excluded |
| Dag.SortDedupLaw | src/engine/dag.rs:101-104 | sorting and dropping repeats keeps the members |
| Barrier.EncapsulatedIffSealed | src/engine/dag.rs:31-68 | every required name resolves to steps of the block it names and to nothing else if and only if no name required in a body, having no sibling step, spells the path of a step under more or fewer playbook containers |
| Barrier.NoClashSeals | src/engine/dag.rs:31-68 | a play with no container named like an invocation is sealed |
| Barrier.ResolveIsBlock | src/engine/dag.rs:31-68 | a required name reaches every step of its block, and in a sealed play no other |
| Barrier.BlockDependency | src/engine/dag.rs:71-105 | a requires at any nesting level makes the step depend on every step of the block it names |
| Barrier.DependencyIsBlock | src/engine/dag.rs:71-105 | in a sealed play there is no other dependency: a name in a body resolves only inside that invocation |
| Barrier.BarrierHoldsInEveryRun | src/engine/run.rs:589-599 | in every reachable state a dispatched step's required blocks have completed as a whole |
| Barrier.ClashBreaksEncapsulation | src/engine/dag.rs:31-68 | in a play the loader accepts, a container named like an invocation makes a body's requires reach a step of another block |
| Planner.CachingIsExactIff | src/engine/run.rs:160-280 | planning through the caches equals evaluating afresh, for every document, if and only if no cache key stands for two invocations |
| Planner.CachingIsExact | src/engine/run.rs:160-280 | with exact keys that holds for arguments of any kind |
| Planner.LoadedKeysExact | src/engine/run.rs:173-175 | the keys of a loaded play are exact if and only if no key is spelled under different numbers of playbook containers |
| Planner.NoClashIsExact | src/engine/run.rs:173-175 | a play with no container named like an invocation has exact keys |
| Planner.KeyNamesOneInvocation | src/engine/run.rs:235-244 | in a loaded play two levels with one key are the same invocation exactly when they lie under as many playbook containers |
| Planner.LoadCoherent | src/model/load.rs:530-576 | in a loaded play the names along a chain determine the invocations themselves |
| Planner.Planning.Args | src/engine/run.rs:235-244 | reads and fills the cache exactly as the specification does, and evaluates each key once |
| Planner.Planning.EvalArgs | src/engine/run.rs:246-280 | one invocation is evaluated through the cached scope of the enclosing one |
| Planner.Planning.CheckContainers | src/engine/run.rs:182-201 | the cached container verdict is that of the outermost container whose condition is not true |
| Planner.Planning.PlanStep | src/engine/run.rs:179-232 | a step's plan and the cache it leaves are those of the specification |
| Planner.PlanPlay | src/engine/run.rs:110-123 | the plans of a loaded play are those of the caching evaluation, and with exact keys those of a fresh one |
| Planner.ClashBreaksCaching | src/engine/run.rs:235-244 | in a play the loader accepts, and for documents given outright, a cached plan differs from the fresh one |
| Planner.ClassIsNeverLoosened | src/engine/run.rs:379-411 | a step's class is at least its resource's and its own, its lock is its resource's under its package, and each plan kind has its exact condition |
| WaitSteps.RunWait | src/engine/wait.rs:159-232 | at most ceil(timeout/interval)+1 probes, no timeout before the deadline, Configured exactly when a later probe is the first ready one, one probe and no pause in check mode |
| WaitSteps.RunResource | src/engine/run.rs:983-1020 | applies only in apply mode and only when the check asks for it; each status has its exact condition |
| WaitSteps.RunJob | src/engine/run.rs:983-1020 | what a resource step reports is always a status the scheduler theorems allow for |
| WaitSteps.RunWaiter | src/engine/wait.rs:159-232 | so is what a wait step reports, or it is NotRun, and then only after a cancelled pause of a cancellable waiter |
| DocEditor.Editor.SetName | docjson/src/wcl_edit.rs:32-42 | only the first label changes |
| DocEditor.Editor.SetOrInsertField | docjson/src/wcl_edit.rs:16-26 | the first field of the name is rewritten in place, else one is appended |
| DocEditor.Editor.RemoveField | docjson/src/emit.rs:430-433 | every field of the name goes, everything else stays in order |
| DocEditor.Editor.WriteKvs | docjson/src/emit.rs:529-558 | entries come out in document order, each reusing the pooled field of its key |
| DocEditor.Editor.WriteKvChild | docjson/src/emit.rs:503-527 | the first block of the kind is rewritten, removed or appended |
| DocEditor.Editor.ExtractManaged | docjson/src/emit.rs:372-390 | splits the items into managed blocks and the rest, and finds where the region started |
| DocEditor.TakeOrNew | docjson/src/emit.rs:393-410 | hands out the first matching block and leaves the others, or builds a fresh one |
| DocEditor.Editor.SpliceIn | docjson/src/emit.rs:414-428 | the blocks end up contiguous at the region's start, marked by blank lines except the very first item |
| DocEditor.Editor.Write | docjson/src/emit.rs:52-346 | the in-place recursion over a whole document equals the sync function, diagnostics included |
| DocAst.SetFieldLaw | docjson/src/wcl_edit.rs:16-26 | what is set is found, setting what is there changes nothing, no other field or block is affected |
| DocAst.DropFieldLaw | docjson/src/emit.rs:430-433 | what is removed is not found, and no other field or block is affected |
| DocAst.SpliceLaw | docjson/src/emit.rs:365-428 | after a splice the unmanaged items are as before and the managed blocks are the given ones, marked |
| DocAst.OtherRegionKept | docjson/src/emit.rs:237-250 | splicing steps into a composite leaves its arguments' region contiguous |
| DocSchema.SchemaSound | docjson/src/emit.rs:52-346 | within one kind field names, key-value kinds and child kinds never collide |
| DocTheorems.SyncSettles | docjson/src/emit.rs:52-558 | whatever a block held, a sync without diagnostics leaves every field, entry and child region holding exactly the document |
| DocExact.PutGetIff | docjson/src/emit.rs:503-527 | a sync that reports nothing extracts back as the document if and only if, at every block it writes, clearing a key-value child uncovers no second block of its kind with entries |
| DocStable.SecondSyncIff | docjson/src/emit.rs:503-607 | saving again what was read back changes nothing if and only if, at every block written, clearing a key-value child uncovers no second block of its kind, or one with entries that all come back from the values they are shown as |
| DocStable.ClearedMapUncovers | docjson/src/emit.rs:503-527 | a document without parameters, saved onto a block with two blocks of them, reads back with an entry |
| DocStable.EmptyMapsDwindle | docjson/src/emit.rs:503-527 | two empty blocks of one kind: the save reads back, and saving again removes a block |
| DocStable.OneMapIsEnough | docjson/src/emit.rs:503-607 | a file with no two key-value blocks of one kind in a block meets both conditions |
| DocRoundTrip.SectionsKeep | docjson/src/inspect_ast.rs:29-42 | sections written in order are read back in that order, the single map block included |
| DocFile.SaveAndReopen | docjson/src/emit.rs:24-58 | for whole files, new ones included: reopening gives the document back, and saving again changes nothing, each exactly under its condition on the top block; other top-level items stay |
| DocFile.Save | docjson/src/emit.rs:348-363 | appending a missing top block and editing the first one equals the file-level sync |
| DocConservation.UnmanagedItemsStay | docjson/src/emit.rs:365-428 | unmanaged items keep content and order, and the labels after the name stay, even when diagnostics are reported |
| DocConservation.CommentsRide | docjson/src/emit.rs:414-428 | each written block has the comments and decorators of the block it was written onto |
| DocConservation.BlocksTravel | docjson/src/emit.rs:393-410 | documents with distinct keys each land on the first block of their own key, however they were reordered or renamed |
| DocConservation.PoolIsConserved | docjson/src/emit.rs:365-410 | no pooled block is written twice and only unclaimed ones disappear |
| DocConservation.SyncSucceedsIffWritable | docjson/src/emit.rs:449-500 | diagnostics depend on the document alone: none exactly when every expression parses and every literal is representable |
| DocConservation.KvChildReadsBackIff | docjson/src/emit.rs:503-527 | a written key-value child reads back exactly when it is non-empty, or no second block of its kind with entries is uncovered |
| Bytes.WordIsLittleEndian | src/hostapi/acl.rs:104-107 | subauthorities are stored least significant byte first (MS-DTYP section 2.4.2.2) |
| Bytes.AuthorityIsBigEndian | src/hostapi/acl.rs:118-121 | the identifier authority is stored most significant byte first |
| Sids.FromBytesReads | src/hostapi/acl.rs:59-68 | a SID at the start of a longer buffer is read back whole |
| Sids.ParseReadsShow | src/hostapi/acl.rs:72-132 | the display text of every well-formed SID parses to that SID, hexadecimal authorities included |
| Sids.ShowIsInjective | src/hostapi/acl.rs:115-132 | no two SIDs are displayed alike |
| AclCodec.AceLayout | src/hostapi/acl.rs:462-480 | where an entry's type, flags, size, mask and SID lie in the list (MS-DTYP section 2.4.4) |
| AclCodec.ParseReadsBuild | src/hostapi/acl.rs:423-490 | parsing a built list gives the same entries, and neither size nor count was truncated |
| AclCodec.BuildSucceedsIff | src/hostapi/acl.rs:462-490 | building succeeds exactly for allow and deny entries with SIDs that fit 65535 bytes |
| AclCodec.BuildAcl | src/hostapi/acl.rs:462-490 | the encoding loop equals the specification, errors included |
| AclCodec.ParseAcl | src/hostapi/acl.rs:423-458 | the decoding loop equals the specification, errors included |
| AclRights.GenericRightsAre | src/hostapi/acl.rs:267-293 | the specific rights each generic bit grants on each target |
| AclRights.MapGenericClears | src/hostapi/acl.rs:298-309 | no generic bit survives the mapping |
| AclRights.MapGenericFixed | src/hostapi/acl.rs:298-309 | specific masks are left alone, so mapping twice is mapping once |
| AclRights.MapGenericUnion | src/hostapi/acl.rs:298-309 | mapping distributes over the union of masks |
| AclRights.MapMask | src/hostapi/acl.rs:300-309 | the loop over the generic bits equals the mapping |
| AclRights.ReportNames | src/hostapi/acl.rs:311-331 | the two loops report exactly the picked composites and singles |
| AclRights.NamesCover | src/hostapi/acl.rs:311-331 | the reported names cover exactly the named bits of the mask |
| AclRights.ShownNamesSpellTheMask | src/hostapi/acl.rs:311-340 | on both targets looking the reported names up again spells the named part of the mask |
| AclDiff.KeyOrderIrrelevant | src/hostapi/acl.rs:627-714 | any two orders of an entry's distinct keys parse alike |
| AclDiff.ParsedEntryNormal | src/hostapi/acl.rs:690-714 | an accepted entry is allow or deny, has a non-empty specific mask and only inherit flags |
| AclDiff.ExplicitAcesLaw | src/hostapi/acl.rs:777-800 | what is written is the spec's entries as a set, each once, denials before grants |
| AclDiff.WriteOrder | src/hostapi/acl.rs:780-800 | the loop with its seen set produces that order |
| AclDiff.DiffEmptyIffConverged | src/hostapi/acl.rs:823-910 | no finding exactly when owner and protection match where given, the list is non-null, explicit entries agree as sets, and a protected list asked for has no inherited entry |
| AclDiff.Compare | src/hostapi/acl.rs:828-910 | the comparison loops equal the specification |
| AclDiff.SetConverges | src/hostapi/acl.rs:1441-1453 | comparing after writing the entries through the binary form finds nothing |
| AclDiff.EveryParsedSpecConverges | src/hostapi/acl.rs:627-800 | the same for every spec that parses and resolves, whenever its list fits the binary form |
| VersionText.ParsedIsWellFormed | src/hostapi/version.rs:95-184 | what parses has a part or a wildcard, no pre-release beside a wildcard, and 64-bit numbers |
| VersionText.ParseReadsShow | src/hostapi/version.rs:95-184 | every well-formed version or partial, rendered with or without a leading `v`, parses back as itself |
| VersionOrder.CmpPartsMeans | src/hostapi/version.rs:187-197 | the part comparison decides the zero-padded lexicographic order |
| VersionOrder.CompareIsTotalPreorder | src/hostapi/version.rs:211-225 | reflexive, antisymmetric up to equivalence, total and transitive over any number of parts |
| VersionOrder.ZerosAndBuildIgnored | src/hostapi/version.rs:211-225 | trailing zero parts and build metadata never change a comparison |
| VersionRange.CaretMeans | src/hostapi/version.rs:422-426 | `^p` admits exactly the releases from p on that agree with it up to its first non-zero part |
| VersionRange.TildeMeans | src/hostapi/version.rs:427-431 | `~p` admits exactly the releases from p on that agree with it on its first two parts, or its only one |
| VersionRange.EqualsMeans | src/hostapi/version.rs:417-421 | a partial admits exactly the releases continuing its prefix, a full version only itself |
| VersionRange.Trichotomy | src/hostapi/version.rs:402-442 | exactly one of `<p`, `=p`, `>p` admits a release, and `<=p`, `>=p` are the unions, wildcards included |
| VersionRange.HyphenIsBothBounds | src/hostapi/version.rs:445-464 | `a - b` fits the versions that `>=a` and `<=b` fit, names the pre-releases of either, and desugars exactly when `<=b` does |
| VersionRange.TermsIntersect | src/hostapi/version.rs:402-442 | terms of one set intersect, for releases and pre-releases alike |
| VersionRange.PreReleasesStayHome | src/hostapi/version.rs:291-303 | under every operator a pre-release matches only when the term is written with a pre-release of the same parts, and then exactly as the two compare |
| RangeText.SplitWords | src/hostapi/version.rs:342-359 | the scan finds exactly the words of the specification |
| RangeText.SpreadReads | src/hostapi/version.rs:342-359 | words come back from any text that spaces them, whatever the white space |
| RangeText.GroupTerms | src/hostapi/version.rs:363-399 | the loop over words groups them into the specified terms, errors included |
| RangeText.TermsRead | src/hostapi/version.rs:363-399 | bounds written with the operator joined to the version or apart from it are read as those terms |
| RangeText.ParseSet | src/hostapi/version.rs:466-492 | reading and adding terms one by one equals reading the whole alternative and then desugaring it |
| RangeText.ParseRange | src/hostapi/version.rs:500-521 | the alternatives' sets in order, or an error when one fails or is dangling |
| RangeText.RangeMeans | src/hostapi/version.rs:466-526 | a range text parses exactly when no alternative dangles and each reads and desugars, and then admits exactly the versions, pre-releases included, of which some alternative holds |
| RangeText.ReleaseHolds | src/hostapi/version.rs:286-303 | an alternative holds of a release exactly when each of its bounds admits it on its own |
| RangeText.WrittenRangeMeans | src/hostapi/version.rs:466-526 | every range expression, written in any layout, parses exactly when its bounds desugar, and means what it was written for, of releases and pre-releases |
| RangeText.LayoutIsText | src/hostapi/version.rs:342-399 | bounds spaced by any white space, operators joined or apart, are such a layout |
| RangeText.VersionReads | src/hostapi/version.rs:200-209 | a version reads back from its text with any white space on either side |
| RangeText.MaxMatching | src/hostapi/version.rs:540-553 | from texts: the earliest of the greatest matching entries, none when nothing matches, an error when anything fails to parse |
| Download.ContentRangeReads | src/hostapi/http.rs:222-233 | a well-formed Content-Range reads back as its first position and total (section 14.4 of RFC 9110) |
| Download.BackoffDoubles | src/hostapi/http.rs:161-164 | pauses start at the base, double until the cap and never shrink |
| Downloader.Transfer.Attempt | src/hostapi/http.rs:236-357 | against an honest server a failed attempt leaves only content bytes to resume from, and a finished one the whole content |
| Downloader.Transfer.Run | src/hostapi/http.rs:361-413 | success means the destination is the content and verified, failure leaves it unchanged, at most retries+1 requests, every resume starts from content bytes |
| Services.PollInterval | src/hostapi/service.rs:273-277 | between 100ms and a second |
| Services.Drive | src/hostapi/service.rs:291-333 | at most one action, success only on observing the target, at most ceil(timeout/100ms)+2 queries, no timeout before the deadline |
| Services.Manager.StopTree | src/hostapi/service.rs:159-210 | success stops exactly the dependents that were not stopped and then the service; failure tries to restart exactly those it stopped, in reverse order |
| Services.Manager.RestartTree | src/hostapi/service.rs:214-227 | success leaves the service running and the set of stopped services otherwise unchanged |
| Canonical.CanonicaliseIsInjective | src/convert.rs:242-285 | two values have the same canonical text exactly when they are the same value |
| Canonical.Writer.WriteCanonical | src/convert.rs:250-285 | appending value by value to one growing text, keys sorted, yields exactly the canonical text |
| Canonical.WriteText | src/convert.rs:244-248 | the text written from nothing is the canonical text |
| Canonical.QuotedIsEscaped | src/convert.rs:256-260 | the two replacements escape character by character |
| GatherPhase.DedupIsExact | src/engine/gather.rs:91-93 | with keys free of colons, equal dedup keys mean equal gatherer and parameters |
| GatherPhase.Share | src/engine/gather.rs:99-107 | one execution per distinct dedup key, each started by some invocation |
| GatherPhase.SharingIsExact | src/engine/gather.rs:99-107 | an execution serves an invocation exactly when it runs that gatherer on those parameters |
| GatherPhase.Bind | src/engine/gather.rs:129-157 | each variable gets the result of the execution it shares unless an override is there or the execution failed, everything else in the store stays, and the phase succeeds exactly when every result exists and keeps to the declared symbols |
| GatherPhase.HoldsResultIff | src/engine/vars.rs:64-71 | a variable holds the result of its execution if and only if no `--var` or `--var-file` value was there, which stays otherwise |
| GatherPhase.OriginsCommute | src/engine/vars.rs:64-71 | the order in which values of different origins are stored never matters |
| GatherPhase.VariablesGetTheirOwn | src/engine/gather.rs:99-157 | the execution a variable is bound to ran its own gatherer on its own parameters |
| GatherPhase.ApplyDefaults | src/engine/gather.rs:201-241 | given values stay, exactly the first declared defaults are added, and success has its exact condition |

## Left out

- DocStable.SecondSyncIff: like `DocExact.PutGetIff`, for documents whose values survive the trip to an expression and back.
- DocEditor.Editor.Write: child blocks are taken out of the pool, edited and put back as values, so aliasing between blocks is not modelled; the source's exclusive references rule it out.
- DocSchema.SchemaSound: composite steps share the table entry of play steps because their fields are the same.
- Canonical.CanonicaliseIsInjective: floats are known by their debug text, which is assumed to differ from integer texts and to hold no separator, and the debug form of map keys is assumed self-delimiting; two NaNs therefore count as one value.
- Downloader.Transfer.Run: lengths and positions are unbounded naturals; the server, the disk and the digest are parameters, and timing only enters through the recorded pauses.
- RangeText.ParseRange: the offsets and wording of parse errors are not modelled, only whether parsing fails.
- AclDiff.ParseEntry: works on decoded keys and names; the shapes of script values and the spelling of error messages are not modelled.
- AclRights.Lookup: right names are an enumeration with one constructor for every other spelling.
- Services.Manager.RestartTree: assumes that converging one service changes no other, and that the listed dependent states are the current ones.
- WaitSteps.RunWait: the clock is assumed to advance at least as far as each pause that is not cut short.
- Dag.Build: cycle detection is a parameter specified as "no topological order exists".
- Evaluation, parsing and printing of WCL, and compiling and running scripts: their results are parameters.
- Threads, channels, event sinks, logging, secret scrubbing, durations and message texts of the run.
- The Windows calls behind access lists, services and the registry.
- Reports, documentation generation, the command line, scaffolding and the package store.
- Thin wrappers over the system (files, shell, archives, hashes, environment, templates) and path normalisation.
