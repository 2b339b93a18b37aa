# Verified models of the library's protocols

Dafny models of the parts of the library server whose correctness rests on an
invariant that no single function shows: the crash-safe restore, the mirror that
triggers keep, annotation sets with tombstones, revisioned registers over folders,
Concepts and tags, the access gate, and the linear scanners. Each model follows the
code branch by branch; methods that change state are proved equal to functions of
the old state, and the properties are proved about those functions over whole runs.

Check everything with `dafny verify dfyconfig.toml`.

## What is modelled

**Restore** (`DirectoryLog`, `RestoreDisk`, `RestoreSteps`, `RestorePass`,
`RestoreTransaction`, `RestoreLimits`). A file has a live name and a name in the rollback tree; its state is a
durable value and a list of unsynced changes, and a machine crash keeps one prefix of
that list for each file. A directory sync empties what it confirms or reports that it was
refused. Every step may raise, or be the last one the process takes. `Storage.Life` is one
restore followed by any number of recoveries, each after a machine crash or after nothing
but the end of a process. Raises, refused syncs and ends of processes all come from
`World.Fault`, which counts them; every method says that what it did not carry through
cost a fault, so each also says what happens without one. Whether the restored database
passes its integrity check and can be bound are parameters.

Assumptions: component paths are disjoint; the `.prks-maintenance` entry is durable at
the start, and so are the parents of the live components; a rename changes both of its
directories as one entry; a sync confirms one component at a time; nobody else writes
live storage between a failed pass and the next recovery; there is one restore at a time;
the removal of the journal is never followed by a directory sync, as in the code; a sync
that answers true is durable, although on a platform without directory syncs the code
answers true as well (`fs_durability.py:110-121`); the rebind to the previous library
after a rollback pass (`backup_restore.py:3246-3254`) may be the last step and writes
none of the files here. A content is only "previous", "restored" or "damaged".

**Mirror** (`WorkViews`, `WorkTriggers`, `WorkTables`, `WorkColumns`, `WorkLibrary`).
`works` is the authority; class `Library` holds the tables and its methods are the triggers and the
statements that fire them. Random row ids are parameters. `WorkColumns` says what the
mirror holds from the raw columns of the Works, without the views.

**Annotations** (`AnnotationStore`, `AnnotationReplace`, `AnnotationAdoption`,
`AnnotationAnswers`, `AnnotationTables`, `AnnotationRuns`, `AnnotationHistory`). Semantic equality is equality of an abstract `meaning`; the classifiers
and normalization of viewer items are data of the item.

**Registers** (`Registers`, `Texts`, `FolderFields`, `FolderTree`, `FolderStore`,
`FolderTables`, `FolderRuns`, `FolderAnswers`, `TagStore`, `TagTables`, `TagRuns`,
`TagAnswers`, `ConceptGraph`, `ConceptStore`, `ConceptTables`, `ConceptAnswers`). `Registers` is the history of one revisioned value;
folder fields, the folder of a Work, tag relations, annotations and the place of a
Concept are shown to be such registers. Folder runs are over operations that passed validation, with texts
in canonical form; `FieldEnvelope` and `CreateEnvelope` connect them to the raw requests.
The modules named `Answers` decide each request on the rows and the payload alone: when
it is refused, with which code, and which rows and revisions an accepted one changes.

**Gate** (`GateSteps`, `GateRuns`, `AccessGate`). Each method is what one thread does
while it holds the lock; the condition variable is the set of threads asleep on it.

**Scanners** (`ByteScan`, `WikiLinks`, `WikiHtml`, `LinkLookup`, `BibEscape`, `BibEntry`,
`BibFormat`, `BibColumns`). Each loop is proved against a reference: scanning the joined chunks, the
lazy match tried at every place, one look-up for each target, a reader that counts
every brace. `WikiHtml` and `BibColumns` read the produced text back: where a link leads
and what it shows, and which column stands under which name.

## Results that limit a claim

The first four are conditions of the all-or-nothing claim, each shown to be needed by an
"if and only if" and by a concrete library it fails for. Three are stated in
`Storage.Tame`; the third is the condition `Confirmed` under which a recovery starts.
Every machine crash establishes it, and `Storage.MayRestart` computes whether it holds
without one.

* A sidecar that the restored database creates before the commit, and that the previous
  database did not have, can survive a crash together with the previous main file:
  nothing syncs its removal before the main file is moved back.
* When the sync behind the return of the database file is refused, its sidecars are moved
  back all the same. A crash may undo the first move and keep the second, and the next
  pass then removes the previous write-ahead log as if it were new.
* A recovery that reads "committed" cleans up without confirming that record, and one that
  finds the database file returned does not know whether that was synced. When a process
  ends, but the machine does not, with an unconfirmed commit, a crash during the clean-up
  can bring back an older journal beside half a rollback tree; when it ends between the
  return of the database file and its sync, with sidecars to move back, the second item
  applies. Every other end of a process is part of `Storage.Life`.
* A database whose main file is missing is not moved, so sidecars it left behind are not
  saved, while recovery removes them.
* The removal of the journal is not synced, so a crash long after a completed recovery can
  bring the journal back. What was written since survives the next recovery if and only if
  no component that is live by then is one whose installation the journal records and that
  did not exist before the restore (`LaterWritesSurvive`).
* Deleting a Work breaks mirror parity if and only if it owns the origin Asset of another
  Work that still needs one. `Library.Run` starts from any tables in parity and stops at
  the first such deletion.
* `add_work_to_folder` files a Work without moving its revision. The folder of a Work is a
  revisioned register in exactly the runs in which that path never attaches it, that is in
  which the Work was filed, or the Work or the folder missing, whenever it was called.
  `AttachLosesUpdate` is an acknowledged filing that replaced a folder its device never saw.
* The revision of a Concept's place counts changes: a place can come back at a higher
  revision (`PlaceMayReturn`), so equal places do not give equal revisions.
* `urldate` is the one BibTeX value that is not escaped. The entry reads back if and only
  if its braces balance, as those of a date without braces do.
* The scanner's documentation says it keeps up to `max_inner + 1` payload bytes; the code
  keeps at most `max_inner` between chunks, and that is what is proved.

## Model

| member | source | states |
|---|---|---|
| DirectoryLog.SyncedNarrows | backend/fs_durability.py:107-135 | a sync of one directory only rules crash outcomes out, and when every unsynced change touched it the file is as the process sees it |
| DirectoryLog.SyncedExactly | backend/fs_durability.py:107-135 | after a sync of one directory a crash leaves exactly the states behind every change that touched it |
| RestoreTransaction.Storage.FsyncDirectory | backend/fs_durability.py:107-135 | a directory sync makes the entries of a component durable, or reports false with nothing changed, or is the last step |
| RestoreTransaction.Storage.FsyncDirectories | backend/fs_durability.py:185-208 | every directory of the set is attempted in order, behind a refusal too, those answered true are synced, and the whole answer is true exactly if each was; then the component is as durable as the process sees it |
| RestoreTransaction.Storage.ReplaceDurably | backend/backup_restore.py:2718-2786 | every rename of a batch is done in order and then both ends are synced; what was done when it stops is a prefix |
| RestoreTransaction.Storage.JournalWrittenDurably | backend/backup_restore.py:2862-2883 | the journal is the old or the new one after a crash, and the new one once the answer is true |
| RestoreTransaction.Storage.RestoreRollbackSidecars | backend/backup_restore.py:2946-2972 | moving the sidecars back keeps every crash outcome recoverable under the same journal and leaves none in the rollback tree; stopped, it made some of the moves, in order |
| RestoreTransaction.Storage.RestoreRollbackComponent | backend/backup_restore.py:2975-2991 | so does moving a component back and then its sidecars |
| RestoreTransaction.Storage.RemoveLiveComponent | backend/backup_restore.py:2936-2943 | removing an installed component and its sidecars in order, even halfway through a directory, never takes away what rollback needs |
| RestoreTransaction.Storage.RollbackComponent | backend/backup_restore.py:2999-3056 | a pass over one component that goes through makes exactly the steps of `Pass`, and one that stops makes the first of them, perhaps half of a removal; the transaction stays recoverable |
| RestoreTransaction.Storage.RollbackFromJournal | backend/backup_restore.py:2994-3057 | a complete pass over the journal that survived is `PassAll` and leaves every component as it was, durable if the answer is true; stopped anywhere, it is a stopped `PassAll` and stays recoverable |
| RestoreTransaction.Storage.MoveOldComponent | backend/backup_restore.py:3066-3108 | the old component is set aside, every step journalled first, and a journal that says "moved" survives only after the moves do |
| RestoreTransaction.Storage.InstallNewComponent | backend/backup_restore.py:3111-3158 | the staged component, or an empty directory, is put in place with the old one still safe in the rollback tree |
| RestoreTransaction.Storage.RollbackOnce | backend/backup_restore.py:3238-3265 | without a fault the previous library is back, and neither journal nor rollback copy is left; whatever fails, the transaction stays recoverable, and journal and tree go only after a durable pass |
| RestoreTransaction.Storage.DiscardRollbackTree | backend/backup_restore.py:3262-3265 | the rollback tree is discarded, even halfway, only when it holds no sole copy, and without a fault all of it |
| RestoreTransaction.Storage.ReplaceLibrary | backend/backup_restore.py:3267-3310 | up to the commit the transaction stays open, whatever the integrity check and the rebind write or raise; it goes through only with a staged database that is sound and can be bound, and without a fault always then, with the phase recorded |
| RestoreTransaction.Storage.Commit | backend/backup_restore.py:3359-3376 | a commit that raises changed nothing, one that answers true is decided, and without a fault it is and nothing of the transaction is left |
| RestoreTransaction.Storage.ApplyRestore | backend/backup_restore.py:3161-3428 | without a fault a good staged database is installed and any other ends with the previous library, in both cases with no journal and no rollback copy; one fault that makes a good restore raise leaves the previous library; with any faults, "durable" is decided, a raise is recoverable to the previous library, and a stop to one of the two |
| RestoreTransaction.Storage.Recover | backend/backup_restore.py:3431-3488 | from any confirmed state, after a machine crash or not, a recovery that completes leaves exactly one whole library: the restored one only if the journal it found said "committed"; without a fault it completes, and leaves no journal and no rollback copy |
| RestoreTransaction.Storage.MachineCrash | backend/fs_durability.py:1-32 | a crash that keeps any prefix of the unsynced changes of each file leaves the transaction open or decided as it was |
| RestoreTransaction.Storage.MayRestart | backend/backup_restore.py:3431-3488 | decides from the journal and the main database file whether a recovery is safe without a machine crash before it |
| RestoreTransaction.Storage.Life | backend/backup_restore.py:3161-3488 | whenever a recovery completes, after any number of machine crashes and ends of processes inside it, live storage is one whole library; and the recoveries that do not complete are no more than the faults |
| RestoreSteps.CrashKeepsOpen | backend/backup_restore.py:2994-3057 | every crash outcome of an open transaction is an open transaction |
| RestoreDisk.LeastCoherent | backend/backup_restore.py:2918-2927 | recovery acts on the least coherent flags that hold what the journal holds |
| RestoreDisk.MoveOutKeepsSole | backend/backup_restore.py:3066-3108 | while files are moved out, each previous file is at exactly one of its two names |
| RestoreDisk.InstallKeepsSole | backend/backup_restore.py:3111-3158 | installing over a moved component keeps the saved copy |
| RestoreDisk.RemoveKeepsGuard | backend/backup_restore.py:2936-2943 | a removal in a rollback pass keeps every crash outcome one that a pass turns back |
| RestoreDisk.ReturnMainKeepsGuard | backend/backup_restore.py:2975-2991 | so does the return of the main file |
| RestoreDisk.ReturnSidecarKeepsGuard | backend/backup_restore.py:2946-2972 | so does the return of a sidecar once the main file's return is confirmed |
| RestoreLimits.CrashIsAllOrNothing | backend/backup_restore.py:3161-3488 | whatever a crash leaves of an open transaction, recovery ends with exactly the previous library, or with the restored one and only if the surviving journal says "committed" |
| RestoreLimits.CrashConserves | backend/backup_restore.py:2946-3108 | no crash loses a previous file from both live storage and the rollback tree |
| RestorePass.ReplayAddsUp | backend/backup_restore.py:2994-3057 | a pass over a component stopped after any of its steps, or halfway through a removal, and then run again ends where one complete pass ends |
| RestorePass.PassIdempotent | backend/backup_restore.py:2994-3057 | a second pass over a component changes nothing |
| RestorePass.PassReturns | backend/backup_restore.py:2994-3057 | a pass leaves at each live name exactly what the recovery predicate promises, and in the rollback tree only what did not exist |
| RestorePass.JournalReplayAddsUp | backend/backup_restore.py:2994-3057 | a pass over a whole journal stopped inside any component and then run again ends where one complete pass ends |
| RestorePass.StoppedThenThrough | backend/backup_restore.py:2994-3057 | so a call of `RollbackFromJournal` that stopped and one that went through did together what one call does |
| RestorePass.JournalReplayIdempotent | backend/backup_restore.py:2994-3057 | replaying one journal any number of times ends in the state of one pass |
| RestoreLimits.ReturnNeedsKnownSidecars | backend/backup_restore.py:3042-3056 | a crash between the return of the database file and its sync is recoverable if and only if the restored database created no sidecar the previous one lacked |
| RestoreLimits.SidecarNeedsConfirmedReturn | backend/backup_restore.py:2975-2991 | moving a sidecar back is recoverable if and only if the return of the database file was synced |
| RestoreLimits.MissingDatabaseNeedsNoSidecars | backend/backup_restore.py:3066-3108 | a database without a main file is recoverable if and only if it has no sidecars |
| RestoreLimits.CleanupNeedsConfirmedCommit | backend/backup_restore.py:3462-3469 | cleaning up after a commit is safe under every crash if and only if the commit record is durable or there was nothing to save |
| RestoreLimits.NewSidecarMixes | backend/backup_restore.py:3042-3056 | the concrete case: a write-ahead log made by the restored database |
| RestoreLimits.UnsyncedReturnLosesLog | backend/backup_restore.py:2975-2991 | the concrete case: a previous write-ahead log and a refused sync |
| RestoreLimits.OrphanLogIsLost | backend/backup_restore.py:3066-3108 | the concrete case: a previous write-ahead log without a database file, on a disk with nothing unsynced, is removed by recovery |
| RestoreLimits.UnconfirmedCleanupMixes | backend/backup_restore.py:3462-3469 | the concrete case: a database and managed PDFs after an unconfirmed commit |
| RestoreLimits.LaterWritesSurvive | backend/backup_restore.py:3043-3051 | after a completed recovery, every crash and one more recovery keep the live files if and only if none belongs to a component the old journal takes for a new installation |
| WorkTriggers.ProjectManifestationParity | backend/db_migrations.py:2614-2624 | projecting the origin Manifestation of the changed Work restores parity for the whole library |
| WorkTriggers.AssetTriggerParity | backend/db_migrations.py:2626-2654 | insert, projection of the Asset and projection of the Manifestation together restore parity |
| WorkTriggers.InsertAssetParity | backend/db_migrations.py:2656-2669 | an inserted origin Asset leaves its Work with the Asset it needs and every other Work current |
| WorkTriggers.TriggerOrderIrrelevant | backend/db_migrations.py:2614-2654 | the two AFTER UPDATE triggers end in the same tables whichever fires first |
| WorkTables.WorkInsertedParity | backend/db_migrations.py:2590-2612 | inserting a Work keeps parity |
| WorkTables.WorkUpdatedParity | backend/db_migrations.py:2614-2654 | updating any columns of a Work keeps parity, also when no mirror trigger fires |
| WorkTables.WorkDeletedParity | backend/db_migrations.py:2398-2474 | deleting a Work keeps parity if and only if it owns no origin Asset another Work still needs |
| WorkLibrary.UnmovedAllowsDeletion | backend/db_migrations.py:2398-2474 | where every origin Asset stayed with its Work, every deletion is allowed and none moves one |
| WorkTables.DeletionCanBreakParity | backend/db_migrations.py:2398-2474 | the concrete case: an origin Asset moved to the Work that is deleted |
| WorkTables.CascadeExactly | backend/db_migrations.py:2219-2356 | with a Work go its Manifestations, Assets, inferred URL and annotations, and no row of another Work |
| WorkTables.EarlyProjection | backend/db_migrations.py:2453-2474 | a Manifestation projected before its Asset has its final URL if and only if the update does not turn a document into a stream or back, or shows no URL |
| WorkTables.TriggersPassGuards | backend/db_migrations.py:2564-2588 | the read-only guards let the triggers' own writes pass |
| WorkTables.GuardsExactly | backend/db_migrations.py:2564-2588 | in parity the guards refuse exactly the writes that would change an origin row its Work still owns |
| WorkTables.GuardedManifestationWrite | backend/db_migrations.py:2564-2574 | a write the guard lets pass keeps parity, and leaves an owned origin Manifestation as it was |
| WorkTables.GuardedAssetWrite | backend/db_migrations.py:2576-2588 | the same for Assets |
| WorkLibrary.ValueHasAsset | backend/db_migrations.py:2626-2654 | a Work with an asset value has an origin Asset |
| WorkColumns.ParityMirrors | backend/db_migrations.py:2398-2474 | in parity every owned origin Asset and Manifestation holds what the raw columns say: a stream if and only if it says video, or does not say PDF, has no file and a URL with a provider, provider id or inferred URL; its URL, managed file name, media type and copied columns; and an Asset is there if the columns need one |
| WorkColumns.VideoAndPdf | backend/db_migrations.py:2430-2438 | a Work that says video streams its URL and its Manifestation shows none; one that says PDF is a managed file and its Manifestation shows the URL |
| WorkLibrary.Library.DoInsertWork | backend/db_migrations.py:2590-2612 | when the statement is refused, the rows it makes, and that origin Manifestation and Asset then hold what the columns say |
| WorkLibrary.Library.DoUpdateWork | backend/db_migrations.py:2614-2654 | the same for an update, with either trigger first: an Asset is added exactly if the new columns need one and none began with the Work |
| WorkLibrary.Library.DoInsertAnnotation | backend/db_migrations.py:2671-2688 | an annotation without an Asset ends on the origin Asset of its Work if the Work owns it, which is made if the library has none |
| WorkLibrary.Library.DoInsertRevision | backend/db_migrations.py:2690-2716 | a new revision scope makes the Asset it needs, once |
| WorkLibrary.Library.DoInsertInferred | backend/db_migrations.py:2718-2746 | a new inferred URL projects the Asset and the Manifestation |
| WorkLibrary.Library.DoDeleteInferred | backend/db_migrations.py:2748-2777 | so does a removed one |
| WorkLibrary.Library.DoDeleteWork | backend/db_migrations.py:2748-2777 | the deletion's whole effect with its cascades, and parity after it exactly if no other Work needs an Asset it owns |
| WorkLibrary.Library.Run | backend/db_migrations.py:2398-2777 | each statement of a run has its whole effect or is refused, from any tables in parity, origin Assets moved or not, and parity holds after each up to the first deletion that would break it, of which there is none while Assets stay with their Works; at the end every Work is mirrored by its columns, and where each owned its origin Manifestation a Work with an asset value has its origin Asset |
| AnnotationStore.IdsAgree | backend/pdf_annotation_adopt.py:95-105 | the id the tombstone check reads is the id that is inserted |
| AnnotationAdoption.AdoptionIs | backend/pdf_annotation_adopt.py:375-493 | an adoption is refused if and only if the first user-markup item to ask for some new id cannot have it or cannot be normalized, at the first such item and with its code; otherwise the rows gained are exactly those ids, each with the content of the first item that asked |
| AnnotationAdoption.ApplyAdoptIs | backend/pdf_annotation_adopt.py:375-493 | the same with the Work missing or stale, and the generation moved by one exactly if a row was gained |
| AnnotationReplace.ReplaceEqualsSingles | backend/db_manager.py:3728-3870 | a full-list replace succeeds if and only if the run of SET, CREATE and DELETE with current bases does, ends with the same rows and revisions, moves the generation once if anything changed, and otherwise changes nothing |
| AnnotationReplace.ItemsEqualSingles | backend/db_manager.py:3796-3853 | item by item the replace and the single operations reach the same rows and revisions or both meet a used id |
| AnnotationReplace.DeletesEqualSingles | backend/db_manager.py:3855-3865 | deleting the missing annotations one by one deletes them all, each with its revision moved |
| AnnotationAnswers.ReplaceExactly | backend/db_manager.py:3728-3870 | which full-list replaces are refused, by five rules in order; an accepted one leaves exactly the listed annotations, keeps those that say the same, moves revisions where a meaning changed or an annotation went, and the generation exactly if a row changed |
| AnnotationAnswers.CreateExactly | backend/pdf_annotation_sync.py:370-424 | a new id is always taken, a repeated creation acknowledged, and nothing else accepted or changed |
| AnnotationAnswers.SetExactly | backend/pdf_annotation_sync.py:439-475 | a change from the current revision is always stored, what is there already is acknowledged from any known revision, and nothing else is accepted or changed |
| AnnotationAnswers.DeleteExactly | backend/pdf_annotation_sync.py:489-535 | from the current revision an annotation always goes, one that is not there is acknowledged, and nothing else is accepted or changed |
| AnnotationAnswers.ClaimExactly | backend/db_manager.py:3632-3649 | a claim is accepted at the current generation alone, and marks it |
| AnnotationAnswers.MarkExactly | backend/pdf_materialization.py:101-130 | a mark is accepted from zero to the current generation, and is stored |
| AnnotationTables.Tables.Create | backend/pdf_annotation_sync.py:370-424 | the handler's effect and answer on every branch |
| AnnotationTables.Tables.SetAnnotation | backend/pdf_annotation_sync.py:439-475 | the handler's effect and answer on every branch |
| AnnotationTables.Tables.Delete | backend/pdf_annotation_sync.py:489-535 | the handler's effect and answer on every branch |
| AnnotationTables.Tables.ReplaceItems | backend/db_manager.py:3796-3853 | the loop does what the fold over the list does, and its flag says whether anything changed |
| AnnotationTables.Tables.Replace | backend/db_manager.py:3728-3870 | the whole replacement in one transaction, rolled back when an id was used before |
| AnnotationTables.Tables.Adopt | backend/pdf_annotation_adopt.py:375-493 | the loop with its seen and present sets adopts each id asked for by user markup once, as `AdoptionIs` decides, or refuses with no change |
| AnnotationTables.Tables.ClaimAndMark | backend/db_manager.py:3632-3649 | a claim is accepted only at the current generation, and then marks it |
| AnnotationTables.Tables.Mark | backend/pdf_materialization.py:101-130 | marking is refused outside zero to the current generation |
| AnnotationRuns.GenerationDeterminesSet | backend/pdf_materialization.py:62-77 | over every run the generation never goes back, and two moments with the same generation have the same annotations |
| AnnotationRuns.MaterializedWithinCanonical | backend/pdf_materialization.py:101-130 | the materialized generation never passes the canonical one |
| AnnotationRuns.NotStaleMeansClaimed | backend/pdf_materialization.py:80-98 | after an accepted claim "not stale" holds exactly while the generation is the claimed one, and then the annotations are those the client embedded |
| AnnotationRuns.NoResurrection | backend/pdf_annotation_sync.py:210-222 | an annotation a Work once had and has no longer is never in that Work again, by any of the four write paths |
| AnnotationHistory.StepFollows | backend/pdf_annotation_sync.py:177-231 | an annotation that stays changes its meaning exactly when its revision moves, and then by one, whichever path writes it |
| AnnotationHistory.RowHistory | backend/pdf_annotation_sync.py:439-475 | within its lifetime an annotation is a revisioned register under SET, full replace, adopt and the rest |
| AnnotationHistory.SetNoLostUpdate | backend/pdf_annotation_sync.py:439-475 | an acknowledged SET that changed something replaced what its device saw |
| AnnotationHistory.SetAtMostOnce | backend/pdf_annotation_sync.py:439-475 | an acknowledged SET delivered again changes nothing |
| AnnotationRuns.DeadStaysDead | backend/pdf_annotation_sync.py:407-413 | a used and absent id stays used and absent |
| Registers.SameRevisionSameValue | backend/folder_sync.py:153-181 | revisions never go back, and equal revisions mean equal values |
| Registers.SameRevisionUnchanged | backend/folder_sync.py:153-181 | equal revisions mean that the value was the same at every moment between |
| Registers.NoLostUpdate | backend/folder_sync.py:360-398 | an acknowledged change replaced exactly the value its device saw at the base revision |
| Registers.AtMostOnce | backend/folder_sync.py:360-398 | an acknowledged operation delivered again changes nothing |
| FolderFields.CanonicalOnce | backend/folder_sync.py:56-67 | the canonical spelling is canonical already, and the title compared with siblings is the key the table is indexed by |
| FolderTree.MoveKeepsForest | backend/folder_sync.py:141-150 | re-parenting keeps an acyclic forest if and only if the new parent exists and is neither the folder nor below it |
| FolderTree.NoCycle | backend/folder_sync.py:141-150 | in a forest no folder is its own ancestor |
| FolderTree.RemoveKeepsForest | backend/folder_sync.py:237-257 | removing a folder without subfolders keeps the forest |
| FolderTables.Tables.Descendants | backend/folder_sync.py:113-118 | the recursive query returns exactly the folders below |
| FolderTables.Tables.WriteFieldHere | backend/folder_sync.py:153-181 | which rule refuses a write, and its whole effect otherwise |
| FolderTables.Tables.ApplyFieldHere | backend/folder_sync.py:360-398 | the handler's effect and answer on every branch, from the raw value |
| FolderAnswers.FieldExactly | backend/folder_sync.py:141-181 | the same for a rename, a move or another field: each refusal if and only if its rule, the folder itself aside, and otherwise only the named column and its revision change |
| FolderTables.Tables.ApplyCreateHere | backend/folder_sync.py:325-342 | the handler's effect and answer on every branch |
| FolderAnswers.CreateExactly | backend/folder_sync.py:297-342 | a creation is refused for its title if and only if a folder under that very parent has it, ASCII case aside; an accepted one stores each text of the payload, stripped, in its own column, with the placeholder for a blank title |
| FolderTables.Tables.ApplyDeleteHere | backend/folder_sync.py:458-470 | only an empty folder goes; a missing one is acknowledged |
| FolderAnswers.DeleteExactly | backend/folder_sync.py:237-257 | a folder goes if and only if no Work is filed in it and no folder is under it |
| FolderTables.Tables.SetWorkFolderHere | backend/folder_sync.py:213-234 | the Work is in the desired folder and no other, with its revision moved if that changed |
| FolderTables.Tables.ApplyWorkFolderHere | backend/folder_sync.py:414-448 | the handler's effect and answer on every branch |
| FolderAnswers.FilingExactly | backend/folder_sync.py:401-448 | a filing is accepted from the current revision into an existing folder or none, acknowledged where the Work already is, and moves that Work and no other |
| FolderRuns.FieldEnvelope | backend/folder_sync.py:345-398 | a write that passes validation is a canonical step, one that does not changes nothing |
| FolderRuns.CreateEnvelope | backend/folder_sync.py:297-342 | the same for a creation |
| FolderRuns.RunKeepsHierarchy | backend/folder_sync.py:113-257 | over every run the hierarchy is an acyclic forest without dangling parents, sibling titles differ, and each Work is in at most one existing folder |
| FolderRuns.FieldHistory | backend/folder_sync.py:153-181 | within one lifetime of a folder each field is a revisioned register |
| FolderRuns.FieldNoLostUpdate | backend/folder_sync.py:360-398 | an acknowledged field change replaced what its device saw |
| FolderRuns.FieldAtMostOnce | backend/folder_sync.py:360-398 | an acknowledged field write delivered again changes nothing |
| FolderRuns.FieldChangesOnce | backend/folder_sync.py:153-181 | a write that changed something never does again, even after the folder was deleted and created anew |
| FolderRuns.FilingNoLostUpdate | backend/folder_sync.py:414-448 | an acknowledged filing that changed something replaced the folder its device saw, in every run in which the unrevised path never attaches the Work |
| FolderRuns.FilingAtMostOnce | backend/folder_sync.py:414-448 | an acknowledged filing delivered again changes nothing, in the same runs |
| FolderRuns.FilingChangesOnce | backend/folder_sync.py:414-448 | a filing that changed something never does again, over every run, unrevised attachments included |
| FolderRuns.WorkHistory | backend/folder_sync.py:213-234 | while a Work exists its folder is a revisioned register if and only if the unrevised path never attaches it |
| FolderRuns.AttachMovesNoRevision | backend/db_manager.py:4141-4174 | the unrevised attachment keeps the register in order if and only if its guard stops it: the folder or the Work is missing, or the Work is filed |
| FolderRuns.AttachLosesUpdate | backend/db_manager.py:4141-4174 | the concrete case: a filing based on revision 0, where its device saw no folder, is acknowledged and replaces the folder attached since |
| TagStore.ImageOfMoved | backend/db_manager.py:5159-5164 | moving every owner of the source gives the image of the relation |
| TagTables.Tables.SetStateHere | backend/folder_tag_sync.py:28-46 | the relation row is set or cleared and its revision moves exactly if that changes it |
| TagTables.Tables.MoveRelation | backend/db_manager.py:5159-5164 | the loop over affected owners does what the closed form says, for rows and revisions |
| TagTables.Tables.Merge | backend/db_manager.py:5137-5229 | the whole effect on tags, lifecycle and the three relations, or the refusal |
| TagAnswers.MergeExactly | backend/db_manager.py:5137-5229 | which merges are refused; an accepted one ends the source, redirects it and all that was merged into it, gives its owners to the target in all three relations, and moves the revisions of exactly the pairs that came or went |
| TagTables.Tables.ResolveLifecycle | backend/work_tag_sync.py:42-57 | following targets takes one hop and never meets a cycle |
| TagTables.Tables.EditHere | backend/folder_tag_sync.py:88-130 | the handler's effect and answer on every branch |
| TagAnswers.EditExactly | backend/folder_tag_sync.py:88-130 | an edit is accepted from the current revision, and from an older one where nothing is left to change, and changes that pair alone |
| TagTables.Tables.CreateHere | backend/tag_sync.py:95-110 | a live tag is acknowledged as it stands, a taken label and a tag id used before are refused, and otherwise the tag is live and active |
| TagAnswers.CreateExactly | backend/tag_sync.py:95-110 | a creation takes a new id with a free label, and an id that was ever used stays used |
| TagRuns.OneHopIsTheEnd | backend/db_manager.py:5165-5169 | over every run a merged tag's recorded target is the end of its chain of merges and a live tag |
| TagRuns.EndIsOne | backend/db_manager.py:5165-5169 | a chain of merges has one end |
| TagRuns.RelationsAreTheImage | backend/db_manager.py:5159-5182 | between two moments without edits the Work, Folder and staged-file relations become exactly their image under the lifecycle table |
| TagRuns.PairHistory | backend/folder_tag_sync.py:28-46 | each relation of an owner to a tag is a revisioned register, merges included |
| TagRuns.PairNoLostUpdate | backend/folder_tag_sync.py:88-130 | an acknowledged change replaced what its device saw |
| TagRuns.PairAtMostOnce | backend/folder_tag_sync.py:88-130 | an acknowledged edit delivered again changes nothing |
| ConceptGraph.GuardIsExact | backend/research_network.py:442-460 | rewriting the parents keeps the graph acyclic if and only if none of them is the Concept or below it |
| ConceptTables.Tables.ParentCycle | backend/research_network.py:442-460 | the depth-first check answers exactly whether a cycle would close |
| ConceptTables.Tables.SetParentsHere | backend/concept_sync.py:215-247 | the refusals in order, the rewritten edges, and both ends of every changed edge advanced |
| ConceptTables.Tables.ApplyParentsHere | backend/concept_sync.py:486-513 | the handler's effect and answer on every branch |
| ConceptAnswers.ParentsExactly | backend/concept_sync.py:215-247 | a change of parents is refused by four rules and no other; an accepted one sets exactly those parents and moves the revision of every Concept whose place changed, by one, and of no other |
| ConceptTables.Tables.DeleteHere | backend/concept_sync.py:250-270 | the deletion, its edges, and the revisions of its neighbours |
| ConceptAnswers.DeleteExactly | backend/concept_sync.py:250-270 | a Concept goes unless notes refer to it, with its edges, and exactly its neighbours' revisions move |
| ConceptStore.RunKeepsHierarchy | backend/concept_sync.py:215-270 | over every run the hierarchy has no cycle and no dangling end |
| ConceptStore.PlaceFollows | backend/concept_sync.py:215-270 | a step moves the parents revision of a Concept, by one, exactly when its parents or children change |
| ConceptStore.PlaceHistory | backend/concept_sync.py:215-270 | within one lifetime the parents revision never goes back, equal revisions mean equal parents and children, and revisions are equal exactly when those were the same at every moment between |
| ConceptStore.PlaceMayReturn | backend/concept_sync.py:215-270 | the concrete case: a parent added and removed again, the same place two revisions later |
| ConceptStore.ParentsChangeOnce | backend/concept_sync.py:486-513 | a change happens only at its base revision and an acknowledged one never again |
| GateSteps.StepKeepsValid | backend/concurrency.py:111-193 | every step under the lock keeps the counters exact, the scopes exclusive and every sleeper blocked |
| GateRuns.ScopesCompatible | backend/concurrency.py:111-193 | over every interleaving, exceptions while waiting included, two threads are never inside scopes that exclude each other |
| GateRuns.AdmittedExactly | backend/concurrency.py:111-193 | a thread that asks or looks again goes in if and only if nobody is inside a scope that excludes its own and nobody waits who goes before it |
| GateRuns.CountersCount | backend/concurrency.py:144-193 | the waiting counters are the numbers of threads that wait |
| GateRuns.TurnIsTaken | backend/concurrency.py:111-193 | when nobody is inside, every waiter whose turn it is has been woken and gets in when it runs |
| GateRuns.NoDeadlock | backend/concurrency.py:111-193 | when threads wait and nobody is inside, some woken thread can go in |
| GateRuns.RestoreIsNotPassed | backend/concurrency.py:111-193 | while a restore waits, the open scopes of other kinds only become fewer |
| GateRuns.BackupIsNotPassed | backend/concurrency.py:125-167 | while a backup waits, no mutation goes in |
| AccessGate.LibraryAccessGate.Arrive | backend/concurrency.py:111-193 | a thread that asks for a scope, counted if it waits, sleeps or goes in |
| AccessGate.LibraryAccessGate.Resume | backend/concurrency.py:111-193 | a woken thread looks again |
| AccessGate.LibraryAccessGate.Interrupt | backend/concurrency.py:144-193 | an exception while waiting withdraws the thread, and a backup or restore notifies |
| AccessGate.LibraryAccessGate.Leave | backend/concurrency.py:111-193 | leaving releases the scope and wakes everybody |
| ByteScan.WholeBuffer | backend/pdf_byte_mentions.py:19-46 | the whole-buffer scan finds what the reference finds |
| ByteScan.PayloadsAre | backend/pdf_byte_mentions.py:19-46 | what is found are the insides of the markers, each from the first opening behind the last marker to the first closing, without the long ones and those with a bracket |
| ByteScan.Chunked | backend/pdf_byte_mentions.py:49-99 | for every cutting into chunks and every bound, the same payloads in the same order as the scan of the joined chunks |
| ByteScan.OneBuffer | backend/pdf_byte_mentions.py:66-99 | between chunks at most `max_inner` payload bytes and one carried byte are held, and what was read is enough to go on |
| WikiLinks.WikiLinkSpans | backend/db_manager.py:532-557 | the one-pass scan finds the spans of the lazy match tried at every place, with at most three times the text examined |
| WikiLinks.MarkersAre | backend/db_manager.py:532-540 | the spans are markers closed at the first close with no newline inside, and every place a marker could open at is inside one |
| WikiLinks.RenderWikiLinks | backend/db_manager.py:560-598 | the text outside the markers woven with what each trimmed target resolved to, each distinct target looked up once |
| WikiLinks.TextIsWoven | backend/db_manager.py:591-598 | the text outside woven with the original markers is the text, so rendering leaves it unchanged |
| WikiLinks.TargetsAre | backend/db_manager.py:575 | the targets looked up are distinct and are exactly the trimmed inners |
| WikiLinks.TargetsInOrder | backend/db_manager.py:575 | they come in the order they first occur |
| WikiHtml.EscapedReadsBack | backend/db_manager.py:580-589 | the escaped text reads back as it was |
| WikiHtml.EscapedIsHarmless | backend/db_manager.py:580-589 | it holds no angle bracket and no quotation mark |
| WikiHtml.ResolvedReads | backend/db_manager.py:580-587 | a resolved marker is a link to the kind and id of its row, which shows its name |
| WikiHtml.UnresolvedReads | backend/db_manager.py:588-589 | any other shows its trimmed target in double brackets, and is no link |
| LinkLookup.FirstMatches | backend/db_manager.py:3876-3894 | for every table order, target list and chunk size each target gets the first row that has it as id or key |
| LinkLookup.ResolveTargets | backend/db_manager.py:3896-3914 | batched resolution equals one look-up for each target, a Work before a Person |
| LinkLookup.ResolvesExactly | backend/db_manager.py:3896-3914 | a target resolves to the first Work with that id or title, else to the first Person with that id or last name, else to nothing |
| BibEscape.BibtexEscapeField | backend/db_manager.py:5561-5589 | the two loops and the stack compute the escaped field |
| BibEscape.EscapedBalances | backend/db_manager.py:5561-5589 | for every value, counting every brace, the escaped field never goes below depth zero and ends at zero |
| BibEscape.ReadsBack | backend/db_manager.py:5566-5569 | a value ends at the brace written after it if and only if it balances |
| BibEscape.EscapeLosesNothing | backend/db_manager.py:5561-5589 | the value can be read off the escaped field |
| BibEscape.EscapedSymbols | backend/db_manager.py:5561-5589 | a lone brace is written as its symbol, a pair as escaped braces, a percent sign escaped |
| BibEntry.EntryReadsBack | backend/db_manager.py:5604-5742 | an entry is read field by field as it was written if and only if every value balances |
| BibFormat.FormatBibtex | backend/db_manager.py:5604-5742 | the text built line by line is the entry of the listed fields |
| BibColumns.FieldsExport | backend/db_manager.py:5604-5742 | each exported column stands once under its own name with a value that unescapes to it, absent or unexported ones do not, the people of each role are those of their role in order, and the year, place, author, entry type and URL rules hold |
| BibColumns.GenerateBibtex | backend/db_manager.py:5591-5601 | the text of a record whose exported date balances is read back with all of that, and no record gives no text |
| BibFormat.FormattedReadsBack | backend/db_manager.py:5604-5742 | for every Work, credit list and profile the entry reads back if and only if an exported date balances |
| BibFormat.BraceInDateEndsField | backend/db_manager.py:5726-5738 | the concrete case: an exported date that begins with a closing brace, with which the entry does not read back as it was written |

## Left out

- Reading and writing ZIP files, hashing, free-space checks, progress, expiry of staged uploads: input and output, not the protocol.
- Symbolic links, junctions and descriptor-anchored removal: removing a maintenance child is one step that may fail or stop.
- `clear_derived_storage`, reindexing and the managed-PDF clean-up after an install: derived state. The rebind and the integrity check are steps that may raise and may write sidecars.
- The names of staging and rollback directories, and a sweep of trees of other transactions: one transaction is modelled.
- A process that ends without a machine crash while `Confirmed` does not hold, that is with an unconfirmed commit, or with previous sidecars and the return of the database file unsynced: `CleanupNeedsConfirmedCommit` and `SidecarNeedsConfirmedReturn` show why the claim excludes it.
- RestoreTransaction.Storage.FsyncDirectory: a true answer is durable here; on a platform without directory syncs the code answers true and promises nothing more, and neither does this model.
- The SQL text, full-text search, timestamps and the database engine: tables are maps and sets, a transaction is one step that may roll back.
- Migrations before and after schema 17, and the pointer triggers beyond the ownership they guard.
- Direct deletion of an origin Asset, and the statements that move origin rows to other Works: runs start from tables in which they were moved.
- Semantic annotation equality and normalization, and the viewer-item classifiers: abstract data of the items.
- Deletion of Works in annotation runs, and of annotations by it.
- Tag deletion, names, colours and aliases; a merge's effect on aliases. Whether a new label is taken is a parameter.
- Deletion of the owners of tag relations, which drops relations without moving revisions.
- Concept names, aliases and fields, and how research notes refer to a Concept, which is a parameter.
- Playlists and roles that are written when a Work is created.
- `request_access_mode`, `snapshot` and `wait_until` of the gate: a routing table and observers.
- Fairness of the scheduler: `NoDeadlock` says a woken thread can go in, not that it is scheduled.
- Decoding and label normalization after the byte scan.
- How a BibTeX cite key is made: it is a parameter without commas, as its cleaning guarantees, and an entry type has no brace, as its whitelist guarantees.
- The two Python string operations `find` and `strip` are functions here; only their results are modelled, and for `find` the characters they look at.
