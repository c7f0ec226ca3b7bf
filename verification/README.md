# Verified model of the kanban tool's generators, catalogue and Explorer buffer

The kanban tool publishes a contract catalogue, generates the Web client's contract directory from it, and shows
live events in a Web Explorer. This project models the parts of it whose correctness is an argument about many
steps or many functions at once, and proves those arguments. It has six parts.

**Recoverable replacement of the generated directory** (`OutputParent`, `GeneratorMachine`, `RecoveryConvergence`,
`ReplaceSystem`, `ReplaceProgress`, `OutputDirectory`). The parent directory holds the target, owned temporary directories and owned
backups, each a map from path to bytes. `GeneratorMachine` is one generator, one file system call at a time;
`ReplaceSystem` is any number of generators and checkers, interleaved step by step over the lock file, each of which
may fail or die anywhere, also inside recovery or in the middle of a write. `OutputDirectory` is the code itself, as
methods on a class, run against an arbitrary schedule of failures and deaths; every call it makes is checked to be a
move of the machine. The ghost variable `committed` is the last tree that was renamed to the target, and
`CommittedIsLastInstalled` ties it to the history of renames.

**The Explorer event buffer** (`Json`, `ExplorerEvents`, `BatchLaws`, `ExplorerBuffer`, `BufferInvariants`,
`BufferRuns`, `BufferLaws`, `BufferHistory`, `ExplorerShell`). `ExplorerShell.Shell` has the refs, timers and revisions as fields and one method for
every handler and callback; each is proved equal to a function of `ExplorerBuffer`. `BufferLaws` says what each of them does to events, batches and
revisions without naming those functions, and the other theorems are about runs. A ghost ledger records which invalidations were raised and not bumped since.

**The contract catalogue** (`Catalogue`, `CatalogueLaws`, `Topology`, `ProjectionSoundness`, `Reorder`, `Permutations`,
`PublishedCatalogue`, `SurfaceAudit`, `SurfaceCatalogue`, `SchemaRegistry`, `InventoryAudit`, `DeclaredAudit`,
`SchemaProjection`, `AuditSoundness`, `Selection`). Declarations are projected to endpoints, contracts, surface
operations and schema roots; validators and audits judge the result; a selection picks from it.

**The generated file set** (`StringOrder`, `WebManifest`): the files, and the list of them in the manifest.

**The dep-info parser** (`Bytes`, `DepInfo`, `DepInfoLaws`, `DepInfoLayouts`): the byte loop, a printer, every layout, and what they
mean to each other.

**Numbers and queries** (`Text`, `JsonNumbers`, `TaskQuery`): the walk that reports an unsafe number by a JSON
Pointer (RFC 6901, sections 3 and 4), and the request paths with percent-encoded queries (RFC 3986, sections 2.1
and 2.3).

## Where the code does not do what one would hope

- **An invalidation can be lost.** The callback that a refused batch arms (`apps/web/src/App.tsx`:190-196) clears the
  pending boundary without flushing. If a full refetch is pending then in a live batch, it stays pending with no
  boundary, and the flush that follows drops the flags raised since. `BufferRuns.SomeRunLosesAnInvalidation` is such a
  run. `BufferRuns.NothingIsLostIff` gives the exact condition: some moment of a run drops an invalidation if and only
  if one of its inputs flushes, without a boundary, acceptable live events that carry a full refetch while some flag is
  owed; those inputs are the event timer and an event of another board. `BufferRuns.OnlyStrandingLoses` traces every
  loss back to such a callback, and `BufferRuns.StrandingLosesAnEvent` shows that each such callback can be followed
  by one.
- **Several batches are not always one batch.** The page keeps the latest 150 events, so a later batch can contradict
  an event that has left the page without being noticed. `BatchLaws.PartsDetectTheSameConflicts`: splitting detects
  the same conflicts exactly as long as there were at most 150 distinct events.
- **The root has no pointer of its own in the report.** When the whole value is the unsafe number, the walk reports
  `/`, which is the pointer of the member with the empty key; the root's pointer is the empty string.
  `JsonNumbers.ReportedPathIsExact` says that this is the only case in which the path does not resolve.
- **The reordering loop is not a stable sort on every inventory.** It moves the first contract of a listed id only.
  `Reorder.ReorderIsStableSortIff`: it agrees with the stable sort for every order list exactly when ids are
  distinct or there is only a single id.

## Model

| member | source | states |
|---|---|---|
| OutputParent.RecoverableIffSafe | xtask/src/web_contracts.rs:1133-1181 | The states that recovery accepts are exactly those in which some committed tree is still whole in the target or in the only backup, and that tree is determined by the state. |
| GeneratorMachine.MovesKeepInv | xtask/src/web_contracts.rs:1077-1181 | Every file system call, early return and interruption point keeps the last committed tree recoverable: never target, backup and temporary directory together, never two owned directories of a kind, and a missing target has its whole tree in the backup. |
| GeneratorMachine.CommitInstallsWholeTree | xtask/src/web_contracts.rs:1118-1124 | The rename of the temporary directory commits the complete new tree, whatever was written before and however often recovery was interrupted; no other move commits anything. |
| RecoveryConvergence.RecoveryNeverRefuses | xtask/src/web_contracts.rs:1139-1181 | In a state the protocol left behind, recovery never takes its refusing branch, and it has nothing to do exactly when the directory is settled. |
| RecoveryConvergence.RecoveryCallsLighten | xtask/src/web_contracts.rs:1139-1181 | Owned directories and the files in them are a terminating measure of recovery: every call that changes anything makes it smaller, every other move advances. |
| RecoveryConvergence.RecoveryFinishes | xtask/src/web_contracts.rs:1139-1181 | From every point at which recovery may be interrupted, rerunning it reaches the settled state with the committed tree as the target. |
| RecoveryConvergence.InterruptedRecoveryConverges | xtask/src/web_contracts.rs:1139-1218 | However often recovery is interrupted and rerun, the target it ends with is the one an uninterrupted run ends with, the state passes the clean check, and the changing calls are bounded by the litter found at the start. |
| RecoveryConvergence.SecondRecoveryChangesNothing | xtask/src/web_contracts.rs:1139-1181 | Once recovery has finished, further runs of it change nothing, at any step. |
| ReplaceSystem.RunsKeepInv | xtask/src/web_contracts.rs:126-157 | In every state of every interleaving of generators and checkers, with deaths anywhere, the directory is safe, the lock word says exactly who is inside, and what each process has read or written so far still holds. |
| ReplaceSystem.CrashSafety | xtask/src/web_contracts.rs:1077-1181 | Over every history: when a recovery gets through, the target is the tree of the last temp-to-target rename that happened, or the initial one, and no owned directory is left; a generator that succeeds leaves its own tree; and recovery is never faced with a state it refuses. |
| ReplaceSystem.CommittedIsLastInstalled | xtask/src/web_contracts.rs:1115-1130 | The committed tree of the invariant is the one told by the history alone: that of the last process that moved from installing to cleaning up. |
| ReplaceSystem.PassedCheckSawCommittedTree | xtask/src/web_contracts.rs:140-157 | A check that passes, reading file by file, saw one complete committed tree, byte for byte the expected one, with no owned directory beside it. |
| ReplaceSystem.CheckedDirectoryStandsStill | xtask/src/web_contracts.rs:1065-1075 | From the moment a checker has the shared lock until it lets go, the directory does not change. |
| ReplaceSystem.ReplacementsAreAlone | xtask/src/web_contracts.rs:1065-1075 | While one process replaces, no other replaces and none checks. |
| ReplaceProgress.CheckCanPass | xtask/src/web_contracts.rs:140-157 | A check that is started while no generator is inside can pass, beside any number of other checkers, if the directory is a finished installation of what it expects; with `PassedCheckSawCommittedTree`, exactly then. |
| ReplaceProgress.GenerateCanSucceed | xtask/src/web_contracts.rs:1077-1131 | From every safe state, whatever was interrupted, a generation that is started while nobody is inside can succeed and leave exactly its files. |
| OutputDirectory.Discover | xtask/src/web_contracts.rs:1250-1303 | Succeeds exactly when there is at most one candidate, and then finds exactly that one. |
| OutputDirectory.CompareOutput | xtask/src/web_contracts.rs:826-852 | The path comparison and then the byte comparison decide equality of the two trees. |
| OutputDirectory.Output.Call | xtask/src/web_contracts.rs:1077-1131 | A call that is a move of the machine keeps the invariant whether it goes through, fails or is the last one before the process dies. |
| OutputDirectory.Output.RemoveTemp | xtask/src/web_contracts.rs:971-991 | Removing a tree file by file, cut off anywhere, never touches target or backups, and without disturbance it succeeds. |
| OutputDirectory.Output.RemoveBackup | xtask/src/web_contracts.rs:1126-1129 | Likewise for a backup, which is not removed before the target is whole. |
| OutputDirectory.Output.WriteAll | xtask/src/web_contracts.rs:1104-1110 | Reaches the renames only with every file written whole; a torn write leaves a state that recovery can undo. |
| OutputDirectory.Output.RollBackInstall | xtask/src/web_contracts.rs:1118-1124 | After a failed install the target is the committed tree again, unless renaming the backup back fails too, and nothing owned is left if nothing else fails; the committed tree stays recoverable in every case. |
| OutputDirectory.Output.InstallTemp | xtask/src/web_contracts.rs:1118-1124 | Done means the complete new tree is committed; failed means the install rename failed first, and the old tree is back in place unless putting it back failed. |
| OutputDirectory.Output.Swap | xtask/src/web_contracts.rs:1115-1129 | Succeeds only with the new tree committed; cut off anywhere, the committed tree is the old one or the complete new one; a reported error leaves the committed tree in the target unless putting the backup back failed. |
| OutputDirectory.Output.RecoverReplaceState | xtask/src/web_contracts.rs:1139-1181 | For any directory whatever: it is refused untouched exactly when it is not recoverable, otherwise every exit keeps it safe, and success means the committed tree alone is left; undisturbed runs succeed on all recoverable states. |
| OutputDirectory.Output.RecoverableReplaceDirectory | xtask/src/web_contracts.rs:1077-1131 | For every schedule of failures: the committed tree afterwards is the old one or exactly `files`, success leaves exactly `files`, an unrecoverable state is refused untouched, and an undisturbed run succeeds exactly on the recoverable states. An error is reported only when a call failed, and leaves the committed tree in the target unless putting a backup back is what failed; when the install rename is all that failed, the parent is exactly the settled old tree. |
| OutputDirectory.Output.EnsureReplaceStateClean | xtask/src/web_contracts.rs:1209-1218 | Passes exactly when no owned directory is there. |
| OutputDirectory.Output.Check | xtask/src/web_contracts.rs:140-157 | Passes exactly on a finished installation of the expected files, with no owned directory beside it. |
| Json.StableCharacterizesContent | apps/web/src/App.logic.ts:72-82 | Key-sorted values are equal exactly when the values differ at most in the order of object members, at any depth. |
| ExplorerEvents.Dedupe | apps/web/src/App.logic.ts:89-106 | The two-index loop succeeds exactly when no two events share one of their identities but not the other, and those that share both have equal fingerprints; it keeps the first event of each id. |
| ExplorerEvents.MergeBoardEvents | apps/web/src/lib/api/explorer-read-model.ts:512-557 | Succeeds exactly when the incoming ids ascend strictly and all events, old and new, are admissible and consistent; the result is the latest page of the first event of each id. |
| ExplorerEvents.AppendExplorerEventBatch | apps/web/src/App.logic.ts:84-108 | Succeeds exactly on consistent, admissible events of the board; the result is the latest page of the first event of each id, in ascending order. |
| BatchLaws.PageFacts | apps/web/src/App.logic.ts:84-108 | The page is strictly ascending, so it has one event per id, has at most 150 events, and holds the first event of each of its ids. |
| BatchLaws.AcceptedMeans | apps/web/src/lib/api/explorer-read-model.ts:520-544 | Accepted events are of the board, have safe positive ids and event ids that are not blank, and share both identities and their content, or neither identity. |
| BatchLaws.OffThePage | apps/web/src/lib/api/explorer-read-model.ts:555-556 | An event is left off only if the page is full and all of it has larger ids. |
| BatchLaws.OrderDoesNotMatter | apps/web/src/App.logic.ts:84-108 | Two lists of the same events, in any order and with any repetition, are accepted alike and give the same page up to member order in event bodies. |
| BatchLaws.TwoPartsGiveTheSamePage | apps/web/src/App.logic.ts:84-108 | What is accepted in one batch is accepted in two, with the same page. |
| BatchLaws.AppendingIsIdempotent | apps/web/src/App.logic.ts:84-108 | Appending events to their own page is accepted and changes nothing. |
| BatchLaws.PartsDetectTheSameConflicts | apps/web/src/App.logic.ts:84-108 | For all later batches, appending to the page detects the same conflicts as appending to the whole history, if and only if at most 150 distinct events have been seen. |
| BufferInvariants.ReactKeepsValid | apps/web/src/App.tsx:161-283 | Every handler and callback keeps: event timer set iff events pending iff a board pending, all of that board, so no published batch mixes boards; a pending boundary has its timer; a published batch is ascending, of one board, at most a page, and ends at its cursor. |
| BufferInvariants.ReactKeepsAccounted | apps/web/src/App.tsx:161-283 | Every raised and unbumped flag stays pending with the events, owed by a pending boundary, left to the boundary of a recovery or poll batch, or is recorded as dropped. |
| BufferInvariants.ReactKeepsRecorded | apps/web/src/App.tsx:161-283 | Only flags that are raised and unbumped are ever recorded as left to a boundary or as dropped. |
| BufferInvariants.BoundaryPaysEverything | apps/web/src/App.tsx:190-225 | Either boundary callback, with a boundary pending, bumps every revision exactly once and settles every flag, also when it flushes a batch itself or that batch is refused. |
| BufferInvariants.ReactDropsIff | apps/web/src/App.tsx:161-283 | A handler or callback drops an owed flag, so that the ledger records it, if and only if it is the event timer, or an event of another board without a full refetch, that flushes acceptable live events with a full refetch while no boundary is pending and some flag is owed. |
| BufferInvariants.OnlyStrandsStrands | apps/web/src/App.tsx:190-196 | The buffer comes to hold a live full refetch without its boundary through the refused-batch callback only, and whenever that callback finds one pending. |
| BufferInvariants.LiveEventIsBumpedIff | apps/web/src/App.tsx:175-182 | A live event that touches the board gets its bump from the event timer if and only if no full refetch was left pending; otherwise nothing remains armed that would bump it. |
| BufferRuns.RunsKeepInvariants | apps/web/src/App.tsx:161-283 | After every possible run, timers firing in any order, all invariants hold; once both timers have fired and no batch waits for its boundary, the raised flags that were never bumped are exactly the dropped ones. |
| BufferRuns.NothingIsLostIff | apps/web/src/App.tsx:161-283 | At no moment of a run is anything dropped if and only if no input of the run loses something; then every raised flag has been bumped once the timers have fired and no batch waits for its boundary. |
| BufferRuns.OnlyStrandingLoses | apps/web/src/App.tsx:190-196 | A run in which no refused-batch callback finds a live full refetch pending loses nothing. |
| BufferRuns.StrandingLosesAnEvent | apps/web/src/App.tsx:190-196 | Every run that reaches a refused-batch callback with an acceptable live full refetch pending extends to one that drops the board flag of a live event, with nothing armed and nothing left to a boundary. |
| BufferRuns.SomeRunLosesAnInvalidation | apps/web/src/App.tsx:180-196 | A concrete possible run, from the initial state, that loses an invalidation. |
| BufferRuns.BurstIsOneRefresh | apps/web/src/App.tsx:202-226 | While a boundary is pending no telemetry and no event timer bumps anything; the callback then bumps every revision exactly once, for bursts of any length. |
| BufferRuns.OpeningBumpsNothing | apps/web/src/App.tsx:249-283 | Telemetry of any kind that leaves a boundary pending bumps nothing itself: boundaries, anomalies, mismatched events, full refetches, and events of another board whose predecessors are refused, even when it flushes. |
| BufferLaws.PageShows | apps/web/src/App.tsx:171-174 | The page of accepted pending events shows the first event of each pending id in ascending order, leaves out only ids below a full page of 150, and reading goes on after its last. |
| BufferLaws.EventsAreKeptOrShown | apps/web/src/App.tsx:161-283 | For every input: which pending events stay, in order, and which leave; those that leave are shown by the published batch, or refused with a boundary pending, or given up for a full reading; and no other input touches the batch. |
| BufferLaws.RefreshesAreExact | apps/web/src/App.tsx:101-283 | For every input: which revisions rise, each by one; that a flag is owed exactly from the event that raises it to the rise of its revision; and what stays pending. |
| BufferLaws.BoundariesAreExact | apps/web/src/App.tsx:184-283 | A boundary is pending from the input that opens it to its callback and at no other time: boundary telemetry, a mismatched event, a full refetch, a refused batch. |
| BufferLaws.TimersAreExact | apps/web/src/App.tsx:184-283 | The event timer is set exactly while events are pending; the boundary timer is set by what opens a boundary, waits for the refusing callback if a batch is refused then and for the other one otherwise, and keeps its callback until it fires. |
| BufferHistory.EveryBoundaryIsPaid | apps/web/src/App.tsx:280-283 | Each of the fourteen boundary kinds, from every buffer, leaves a boundary pending with its timer set and nothing else pending; the callback then raises every revision once and settles every flag. |
| BufferHistory.OtherKindsAreIgnored | apps/web/src/App.tsx:250-253 | A live connection, a started or retried recovery and unlisted telemetry change nothing. |
| BufferHistory.AppliedEventIsShown | apps/web/src/App.tsx:161-283 | Over every run: an applied event stays pending until it leaves with all that are pending, for a batch that shows them, a refusal with a boundary, a full reading or a new session. |
| BufferHistory.OwedIsDropped | apps/web/src/App.tsx:161-283 | Over every run in which each recovery or poll event was followed by boundary telemetry: once both timers have fired, what is owed is what was dropped, and nothing if no input lost something. |
| BufferHistory.LiveBurstIsOneRefresh | apps/web/src/App.tsx:161-283 | Any number of acceptable live events of one board, then the event timer: one batch that shows them all, and one rise of exactly the views that some of them makes stale. |
| ExplorerShell.Shell.constructor | apps/web/src/App.tsx:81-99 | The initial refs are the initial buffer, from which the runs start. |
| ExplorerShell.Shell.BumpExplorerRevision | apps/web/src/App.tsx:101-113 | Increments exactly the named revisions and settles exactly those flags. |
| ExplorerShell.Shell.FlushEventBatch | apps/web/src/App.tsx:161-200 | Carries out `Flush` on the whole state, for accepted and refused batches, boundaries, recovery sources and full refetches; what that shows and raises is said by `BufferLaws.FlushShows` and `BufferLaws.FlushPays`. |
| BufferLaws.FlushShows | apps/web/src/App.tsx:161-200 | A flush leaves nothing pending, and shows the pending events or refuses them with a boundary. |
| BufferLaws.FlushPays | apps/web/src/App.tsx:161-183 | A flush raises exactly the pending views if its events are live and acceptable, and otherwise none, and settles exactly those flags. |
| ExplorerShell.Shell.ScheduleBoundaryRefresh | apps/web/src/App.tsx:202-226 | Refines `Schedule`: the boundary and its kind, the flush of timed events, the timer armed at most once. |
| ExplorerShell.Shell.OnBoundaryTimer | apps/web/src/App.tsx:211-225 | Refines the boundary callback on the whole state, including a batch refused during it. |
| ExplorerShell.Shell.OnBatchErrorTimer | apps/web/src/App.tsx:190-196 | Refines the refused-batch callback on the whole state: pending events are left alone. |
| ExplorerShell.Shell.OnEventAppliedTimer | apps/web/src/App.tsx:274-277 | Refines the event timer's callback on the whole state. |
| ExplorerShell.Shell.OnSessionTelemetry | apps/web/src/App.tsx:249-283 | Carries out `OnTelemetry` on the whole state, for every kind of entry and every event, board and source; what that does is said kind by kind by `BufferHistory.EveryBoundaryIsPaid` and `BufferHistory.OtherKindsAreIgnored`, and for events by the laws of `BufferLaws`. |
| ExplorerShell.Shell.OnSessionKeyChange | apps/web/src/App.tsx:228-247 | A changed session key leads back to exactly the initial buffer. |
| Topology.ValidateParameters | crates/kanban-protocol/src/endpoint.rs:414-473 | Accepts exactly trimmed, declared parameters whose names differ, without case for headers, and which are required in a path. |
| Topology.TrimIs | crates/kanban-protocol/src/endpoint.rs:416-434 | Trimming leaves nothing exactly of blank text and changes exactly text that starts or ends with white space, so the two checks on a name are what they are meant to be. |
| Topology.ValidateContractTransport | crates/kanban-protocol/src/endpoint.rs:303-473 | The chain of checks decides the declarative condition on surface, binding, location, direction and parameters. |
| Topology.ValidateInventory | crates/kanban-protocol/src/endpoint.rs:218-232 | Accepts exactly inventories with distinct ids and fitting transports, which the index by id then represents. |
| Topology.ValidateObligation | crates/kanban-protocol/src/endpoint.rs:475-625 | Accepts exactly the obligations that an inventory contract fulfils or that may be left open there. |
| Topology.ValidateSharedLinks | crates/kanban-protocol/src/endpoint.rs:627-670 | Accepts exactly distinct links to shared HTTP contracts of the same surface. |
| Topology.ValidateContractTopology | crates/kanban-protocol/src/endpoint.rs:234-301 | Accepts exactly the catalogues that are described declaratively by `TopologyOk`, with no reference to maps or order. |
| CatalogueLaws.AcceptedTransport | crates/kanban-protocol/src/endpoint.rs:303-412 | An accepted contract is over HTTP exactly on the API and SSE surfaces; it comes in at a path, a query, headers or a body and goes out as a success, an error or an event; errors are shared, exact contracts claim a key. |
| CatalogueLaws.AcceptedObligations | crates/kanban-protocol/src/endpoint.rs:475-625 | Each of the six obligations of an accepted endpoint names an exact contract of its own place, direction, surface and literal key, or is left open where that is allowed. |
| CatalogueLaws.OneNameIff | crates/kanban-protocol/src/endpoint.rs:435-451 | Header names conflict exactly when they differ in the case of ASCII letters only, other parameter names only when equal. |
| CatalogueLaws.PlaceholdersOfRoute | crates/kanban-protocol/src/endpoint.rs:672-693 | From a route that is written with parameters, the validator reads back exactly their names, in order. |
| CatalogueLaws.OverrideIsFirst | crates/kanban-protocol/src/contract_catalog.rs:296-302 | The override of a kind is the first one, and there is none only if none is of that kind. |
| CatalogueLaws.ExactIsFirst | crates/kanban-protocol/src/contract_catalog.rs:303-308 | The child for a place is the first exact one there, and there is none only if no child is. |
| CatalogueLaws.EndpointObligations | crates/kanban-protocol/src/contract_catalog.rs:260-313 | Each obligation of an endpoint is its override, or the exact child at its own place, or not applicable. |
| CatalogueLaws.ChildContract | crates/kanban-protocol/src/contract_catalog.rs:317-345 | A child's contract has its own values, and its parent's surface, and operation and exclusion where it has none. |
| CatalogueLaws.ChildTransport | crates/kanban-protocol/src/contract_catalog.rs:319-330 | A located child travels over HTTP; an exact one claims its own key, else its operation, else its parent's, a shared one none. |
| ProjectionSoundness.ProjectionAcceptedIff | crates/kanban-protocol/src/contract_catalog.rs:241-345 | The validator accepts the projection of a list of declarations, beside contracts declared elsewhere, if and only if the declarations are well formed: a condition on the declarations alone. |
| PublishedCatalogue.PublishedCatalogueAcceptedIff | crates/kanban-protocol/src/endpoint.rs:170-186 | The same for the published catalogue, sorted by one order list and reordered by another: acceptance does not depend on either list. |
| Reorder.ReorderContracts | crates/kanban-protocol/src/inventory.rs:116-125 | The remove-and-append loop computes the recursive reordering that the following lemmas are about. |
| Reorder.ReorderIsStableSort | crates/kanban-protocol/src/inventory.rs:116-125 | On distinct ids the loop is the stable sort by position in the order list, unlisted ids last: the rule that `endpoint_catalog` uses. |
| Reorder.ReorderIsStableSortIff | crates/kanban-protocol/src/inventory.rs:116-125 | The loop is that sort for every order list if and only if ids are distinct or there is a single id. |
| Reorder.StableIsUnique | crates/kanban-protocol/src/endpoint.rs:177-182 | A stable sort by a rank has only one possible result, so the two rules agree as results and not only in kind. |
| SurfaceAudit.AuditOperationEntries | xtask/src/lib.rs:64-128 | Accepts exactly inventories that pass the transport validator and whose entries are named, exactly pathed, paired with fixtures and properly excluded; the map it returns is keyed by id. |
| CatalogueLaws.EntryIs | xtask/src/lib.rs:70-123 | What the accepted entries are, clause by clause, with blankness and wildcards spelled out. |
| SurfaceAudit.AuditSurfaceEntries | xtask/src/lib.rs:130-278 | Accepts if and only if keys are well formed and unique per surface, excluded entries carry only a reason, links are known, distinct and of the same surface, each active entry has an exact contract, and every exact contract has exactly one owner, whose key it claims. |
| CatalogueLaws.DotsIff | xtask/src/lib.rs:660-662 | The wildcard test finds three dots in a row wherever they stand. |
| CatalogueLaws.OwnerIsNamed | xtask/src/lib.rs:252-269 | The owner of an exact contract is an active entry called by the contract's key over HTTP and by its operation elsewhere. |
| SurfaceAudit.AuditedContractsAreLinked | xtask/src/lib.rs:280-312 | With the shared-component audit: every contract is linked on its own surface, an exact one by a single entry. |
| SurfaceCatalogue.SurfaceOperationCatalog | crates/kanban-protocol/src/surface.rs:34-54 | The two passes give each endpoint its own key and references, then the other surfaces. |
| SurfaceCatalogue.OperationKeyIsInjective | crates/kanban-protocol/src/endpoint.rs:695-707 | An operation key determines its method and path. |
| SurfaceCatalogue.ReferencesDistinct | crates/kanban-protocol/src/surface.rs:56-75 | An accepted endpoint never refers to a contract twice, although its references are not deduplicated. |
| SurfaceCatalogue.SurfaceAuditSplits | xtask/src/lib.rs:130-278 | For a catalogue the topology validator accepts, the surface audit passes if and only if endpoints are settled, the other entries are in order and keep their keys apart, and every exact contract is placed: keys, links and ownership among the endpoints follow from the topology. |
| SchemaRegistry.AuditSchemaRegistry | xtask/src/lib.rs:328-407 | Accepts if and only if ids and artifact paths are distinct, every root matches its contract, and every contract with a schema has a root, although the code only compares the two counts. |
| SchemaRegistry.AuditRootMapping | xtask/src/lib.rs:375-407 | The four comparisons decide that a root says what its contract says. |
| SchemaRegistry.CountDecides | xtask/src/lib.rs:365-371 | Among roots that match their contracts and have distinct ids, equal counts mean a root for every contract with a schema. |
| SchemaRegistry.FoundRootIsOwn | xtask/src/web_contracts.rs:173-181 | In an audited registry the first root of a contract's schema id is the contract's own root. |
| InventoryAudit.AuditInventory | xtask/src/lib.rs:55-62 | The audits in sequence accept exactly the catalogues that satisfy the topology, entry, surface, shared-link and schema-root conditions together. |
| InventoryAudit.EverySchemaHasItsRoot | xtask/src/lib.rs:328-407 | In an audited catalogue every contract with a schema finds its own matching root by its schema id. |
| SchemaProjection.RegistryIff | crates/kanban-protocol/src/contract_catalog.rs:349-377 | For a registry that holds the projected roots and those of other sources in any order: the audit passes if and only if ids and artifact paths are distinct over all sources and the other roots match, one by one, the contracts declared elsewhere; the projected roots match theirs by construction. |
| SchemaProjection.RootOfChild | crates/kanban-protocol/src/contract_catalog.rs:349-377 | The projected root is the child's own, part by part. |
| AuditSoundness.AuditAcceptedIff | xtask/src/lib.rs:55-62 | The whole audit accepts the published catalogue if and only if the declarations are auditable: well formed, with settled operations on all surfaces, one owner for every exact contract, every shared component listed, and distinct schema roots; a condition on declarations only, whatever the order lists. |
| InventoryAudit.EveryContractIsLinked | xtask/src/lib.rs:55-62 | In an audited catalogue every contract is linked on its surface, an exact one by an active entry with the key it claims. |
| Selection.EndpointContractIds | xtask/src/web_contracts.rs:480-502 | The ids are exactly those named by obligations or shared components, each once. |
| Selection.ResolveSelection | xtask/src/web_contracts.rs:350-478 | Succeeds exactly when the catalogue passes the audit and the selection is a version 1 list of distinct, known, selectable operations and known extras; the endpoints are those whose operation id is listed, the contracts those of the next rows, and it never fails for a missing root. |
| Selection.SelectedEndpointsAreListed | xtask/src/web_contracts.rs:441-445 | An endpoint is resolved if and only if it is in the catalogue and the file lists its operation id; every listed id has exactly one, which is not excluded and has no obligation still to do, and they stand in catalogue order. |
| Selection.SelectedRootsAre | xtask/src/web_contracts.rs:451-459 | A root is resolved if and only if it is registered and some selected contract has its schema. |
| Selection.SelectionIsClosed | xtask/src/web_contracts.rs:425-450 | The selected contracts are, id by id, exactly those the selected operations name plus the extras, without duplicates and in inventory order: every named id is declared because the topology was accepted. |
| Selection.ChosenAreRooted | xtask/src/web_contracts.rs:451-470 | The roots of a selection offer, for each selected contract with a schema, that contract's own root. |
| Selection.ListOrderDoesNotMatter | xtask/src/web_contracts.rs:373-388 | A selection that lists the same ids in another order fits alike and resolves to the same endpoints, contracts and roots. |
| WebManifest.PathsDistinctIff | xtask/src/web_contracts.rs:1385-1396 | The generated paths of all contracts are distinct if and only if the slugs of the contracts with schemas are: the lossy slug is the only way in which two files can meet. |
| WebManifest.CollectNames | xtask/src/web_contracts.rs:528-556 | From the manifest's entries the loop collects the fixed names and then the four paths of every contract with a schema. |
| WebManifest.SlugIs | xtask/src/web_contracts.rs:1385-1396 | A slug keeps ASCII letters and digits in place and has a dash everywhere else. |
| StringOrder.LessIff | xtask/src/web_contracts.rs:554-554 | The order of the list: a proper prefix first, else the smaller character where two names first differ. |
| WebManifest.AddContracts | xtask/src/web_contracts.rs:170-258 | Succeeds exactly when slugs are distinct and every schema root and fixture is there; then each contract still has its four files with its own contents, and there is an entry for each and a module for each with a schema. |
| WebManifest.EntriesAreOfContracts | xtask/src/web_contracts.rs:248-257 | Each manifest entry says what its contract says, and its paths are those of the contract's files. |
| WebManifest.OperationsAreOfEndpoints | xtask/src/web_contracts.rs:260-274 | Each manifest operation says what its endpoint says. |
| WebManifest.SchemaContractIdsOfBoth | xtask/src/web_contracts.rs:236-241 | The list of modules follows the contracts in order, part by part. |
| WebManifest.ExpectedFiles | xtask/src/web_contracts.rs:160-348 | Succeeds exactly when the catalogue passes the audit, the selection fits it, slugs are distinct, the fixtures of the selected contracts' own roots can be read, and the two SSE contracts are selected with schemas. Then the list in the manifest is strictly ascending and names exactly the files returned; each contract has its four files, by name, from its own root; each of the eight summaries, by name, is made of its own parts of the selection; `generated.sha256` covers exactly the other files; and no contract is ever without a root. |
| DepInfo.ParseDepInfoPrerequisites | xtask/src/package.rs:736-796 | The index loop computes the token-wise parse; it terminates because the index grows on every path. |
| DepInfoLaws.RoundTrip | xtask/src/package.rs:736-796 | For all printable rules, printing with escapes and parsing gives back exactly the prerequisites of all rules, in order. |
| DepInfoLayouts.AnyLayoutParses | xtask/src/package.rs:736-796 | However rules are laid out, with blanks, tabs, carriage returns, comments and empty lines, and however each byte is spelled, plainly, after a backslash, or a `$` doubled or alone, they parse to the prerequisites they spell. |
| DepInfoLaws.ParsesToExactly | xtask/src/package.rs:741-746 | The lists that some content parses to are exactly the lists of non-empty words without line feeds. |
| DepInfoLaws.ContinuationIsTransparent | xtask/src/package.rs:749-763 | Inserting a line continuation at any token boundary never changes the parse, not even after a comment or a lone trailing backslash. |
| JsonNumbers.UnsafeNumberPath | xtask/src/web_contracts.rs:645-664 | The walk reports the first unsafe number in document order, as the escaped path to it. |
| JsonNumbers.FoundIsFirst | xtask/src/web_contracts.rs:649-662 | At every level the reported path leads to the first child that holds an unsafe number. |
| JsonNumbers.UnsafeInteger | xtask/src/web_contracts.rs:646-648 | An integer is unsafe exactly beyond 9007199254740991 on either side. |
| JsonNumbers.UnsafeOther | xtask/src/web_contracts.rs:646-648 | Other finite numbers are never unsafe, non-finite ones always. |
| JsonNumbers.ReportedPathIsExact | xtask/src/web_contracts.rs:645-664 | A path is reported if and only if some number in the tree is unsafe, and it resolves as a JSON Pointer to an unsafe number if and only if the value is not itself a number. |
| JsonNumbers.EscapeReadsBack | xtask/src/web_contracts.rs:657-659 | The two replacements of the escaping are undone, in this order, by the two of RFC 6901, section 4. |
| JsonNumbers.GeneratorAgreesWithRuntime | xtask/src/web_contracts.rs:801-816 | On trees of 64-bit integers the generator refuses exactly the values that the runtime refuses. |
| TaskQuery.EncodePathSegment | crates/kanban-client/src/transport.rs:220-231 | The byte loop computes the encoding that `DecodesBack` undoes. |
| TaskQuery.DecodesBack | crates/kanban-client/src/transport.rs:220-231 | Percent-decoding gives back every byte string. |
| TaskQuery.EncodedByteIs | crates/kanban-client/src/transport.rs:222-229 | An unreserved character stands for itself, any other byte becomes a percent sign and the two upper-case hexadecimal digits of its value. |
| TaskQuery.EncodeIsBytewise | crates/kanban-client/src/transport.rs:222-229 | The encoding of a text is that of its bytes, one after the other. |
| TaskQuery.TaskReadPairs | crates/kanban-client/src/shared.rs:96-118 | The pairs are the fields in order, with repeated filters repeated and absent ones left out. |
| TaskQuery.TaskPairsAre | crates/kanban-client/src/shared.rs:96-118 | Every field stands under its own literal key, with its own value, in the order in which they are sent. |
| TaskQuery.NumbersAre | crates/kanban-client/src/shared.rs:100-102 | Priorities are sent as decimal numbers, in order. |
| TaskQuery.ListTasksPath | crates/kanban-client/src/shared.rs:32-64 | Both task listings build the path that the next two lemmas are about. |
| TaskQuery.TasksPathReadsBack | crates/kanban-client/src/shared.rs:81-128 | Splitting the built path at `?`, `/`, `&` and `=` and decoding gives back the route, the board and the exact list of pairs, for every board and query. |
| TaskQuery.PairsDetermineQuery | crates/kanban-client/src/shared.rs:96-118 | The pair list determines every field of the query. |
| TaskQuery.TasksPathsAreDistinct | crates/kanban-client/src/shared.rs:81-128 | Different boards, queries or routes never share a path. |
| TaskQuery.SearchTasksPath | crates/kanban-client/src/shared.rs:130-158 | The search builds the path that reads back below. |
| TaskQuery.SearchPairsAre | crates/kanban-client/src/shared.rs:131-146 | The same for a search. |
| TaskQuery.SearchPathReadsBack | crates/kanban-client/src/shared.rs:130-158 | Splitting and decoding the search path gives back its route and exact pair list. |
| TaskQuery.SearchPathsAreDistinct | crates/kanban-client/src/shared.rs:130-158 | Different searches or routes never share a path, since the pair list determines every field. |

## Left out

- Symbolic links, file types, permissions, fsync and other file system failures beyond a call that fails: a call goes through, fails, or is the last one; a write may be torn. Rename is atomic.
- Nested directories of a tree: a tree is the map from relative path to bytes; creating its subdirectories is part of writing a file.
- Names that match an owned prefix but are malformed, and the parsing of process id and nonce: they make the code refuse before it acts.
- The order in which files are written or removed: the model allows any order, the code uses that of its map or of the directory.
- `ensure_absent` on the temporary path is modelled, the clock and process id behind the new name are a parameter.
- OutputDirectory.Output.Check: reading is taken to succeed; a read that fails makes the check fail, as `ReplaceSystem` allows at every step.
- ReplaceSystem.CrashSafety: says nothing about a directory that some other program writes to, and fairness is not modelled, so nothing says that a blocked process gets the lock.
- The sync status display, task mutations, the revision bumps of a canonical reload, and the cleanup on unmount. React's scheduling of state updates: a changed session key is a full reset and updates take effect at once.
- The schema parsing and classification of events: an entry carries the parsed event, if any, and an arbitrary plan. The reason text of a refused batch.
- Json.StableCharacterizesContent: is about the key-sorted value, which the code then prints. Printing tells finite values apart but writes a non-finite number as null; events are parsed from JSON text, which has no non-finite numbers.
- BatchLaws.TwoPartsGiveTheSamePage: one direction; the other fails beyond 150 distinct events and is settled by `PartsDetectTheSameConflicts`.
- Schema titles, header profiles and policies of declarations: no validator modelled here reads them. Error texts.
- The comparison of the generated schema ids with the registry in the registry audit: both are read from the same registry, so it always agrees.
- A declaration whose schema lacks an artifact path, title, fixture or generator: projecting its root panics, so the theorems about projected roots assume the parts.
- The concrete catalogue tables: the projection is proved for all declarations.
- `endpoint_catalog` calls a library sort; it is stated by `StablySorts`, which has one solution.
- WebManifest.ExpectedFiles: takes the parsed selection file, the catalogue, the registry and the readable fixtures; schema documents, hashes and generated TypeScript are opaque contents, and failures while printing them are not modelled.
- UTF-8: the dep-info parser works on bytes and its lossy conversion to text is not modelled; query texts are byte strings.
- JSON numbers are reals or non-finite: the walk sees numbers already rounded to doubles, and the model starts there. Rounding a decimal text can make it unsafe, as it does for 9007199254740991.5. Floats in `contains_unsafe_json_number` are never refused, so the agreement is stated for integers.
- TaskQuery.PairsDetermineQuery: fields with a fixed set of wire names are any byte strings here, a larger set.
- The route templates are split at their placeholder: replacing it is concatenation.
- Releases, packages, the rest of the dep-info audit, selectors and configuration: processes and single checks.
