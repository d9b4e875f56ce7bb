# Crash-safe deployment, chunking, batching, evidence and row digests: a model

This project models the parts of the repository whose promises are hardest to see
from the code, and proves those promises in Dafny.

## The deployment transaction

`tools/offline_env.py` prepares a deployment (directories, secrets, the `.env` file) as
a write-ahead-logged transaction over the file system; `tools/offline_deployment_state.py`
keeps its journal, and `tools/offline_recovery.py` undoes or cleans up whatever an
interrupted run left behind.

The managed tree is a map from paths to nodes (identity, kind, content digest,
authority); the journal is the set of durable records beside it. Every atomic step of
the disk (a record written, a rename, an exchange, a deletion, a directory made or
removed, a mode changed) is guarded by `Power.Tick`, which may find that power is gone;
the step then does not happen and the run ends with `Crash`. Every method promises its
invariant on each of its exits, so every such promise speaks of every crash point, and
a resumed run starts from the durable state only. `Conflict` is the source's
fail-closed exception. Mutable objects of the source are classes here, its
write-ahead records are fields written one step at a time, and rollback is proved
against `Image`, the tree that some set of executed operations makes of the starting one.

| module | what it models |
|---|---|
| `Wrappers` | outcomes, and the power supply that may fail between any two steps |
| `Disk`, `Operations` | the tree; journalled operations, how the disk shows whether they ran, how they are undone, in which order |
| `Environment` | publication of `.env` and its rollback by exchange, each with its own record; `exchanges` says which of the two backends does the publication |
| `Journal` | the journal, and what holds of it in every reachable state |
| `Transaction` | the forward run, reopening, and the rollback loop |
| `Recovery` | whole runs: a deployment and its recovery interrupted any number of times |
| `Windows`, `Secrets` | exactly when recovery gives up, with inputs; where every secret is in every reachable state |
| `Rotations` | what the rotation window means for plans that rotate |
| `Directories`, `Plan` | planning from an inspected tree |
| `Bootstrap`, `Cleanup` | the two directories made before the journal has a place; removal of what a finished transaction leaves |
| `FinalTree`, `Deployment` | the whole of a preparation: planning, creation, run, recovery and cleanup together, and the tree it ends with |
| `ControlSagas` | `clear_start_marker` and `acknowledge_repaired` |

Presupposed: replacing a record, renaming and exchanging are atomic and durable; the lock
keeps other writers out; equal digests mean equal content; POSIX metadata is checked.

Where the code does not meet the unconditional promise, the model keeps what the code
does, and the condition is part of the theorem:

- A rotation whose rollback is interrupted after its first old secret is back, and before
  the rollback is complete, is refused for good (`Windows.WindowExactly`,
  `Windows.SecondCrashStopsARotation`). Every plan that rotates can end so
  (`Rotations.EveryRotationHasTheWindow`). Old secrets that have not come back by then are
  missing from their places and only in the companion (`Windows.WindowLeaves`).
- In general a refusal gives nothing back: the tree is the starting one exactly if nothing
  of it is left to undo (`Operations.StartingTree`). What a refusal does keep is stated by
  `FinalTree.Suspended`: every managed object is in its earlier or its new state, every old
  secret is at one of its two places, and nothing else has been touched.
- Reopening refuses a companion in which a backed-up secret is not mode 0600
  (`Operations.ReopenableWhenPrivate`, `Windows.PublicSecretStopsReopening`).
- So do the scan and the cleanup after a commit: rotating a secret of, say, mode 0644
  succeeds, and then its old version stays in the companion for good, with every later
  scan failing (`FinalTree.CompanionEnds`, `Cleanup.CommittedThroughCrashes`,
  `Windows.PublicSecretStopsCleanup`). `Deployment.PrepareDeployment` calls this ending
  `Uncleaned` and promises it exactly for such secrets.
- A failure between the two records of an intent is repaired by reopening, but refused
  by a rollback in the same process (`Windows.TornIntentStopsRollback`). As soon as that
  rollback is on record nothing can open the journal any more, whether or not its failure
  gets on record too (`Windows.TornIntentIsStranded`, `Recovery.DeployThroughCrashes`).
- A publication candidate created but not completely written is refused
  (`Windows.UnfinishedCandidateStopsRecovery`).
- A bootstrap directory created a moment before its identity was recorded stops its
  cleanup (`Bootstrap.UnrecordedDirectoryIsStuck`), and the failure then recorded beside
  the cleanup metadata makes the scan itself fail (`Cleanup.FailureBesideMetadataIsRefused`).
- A gate that fails on the resumption of `clear_start_marker` between the move of the
  marker and its record deletes the only copy (`ControlSagas.ClearStartMarker.Clear`,
  `ControlSagas.LoseMarker`). After other interruptions of a withdrawal the
  marker is kept, but the command refuses to go on (`ControlSagas.Jammed`).

## Text, requests, evidence, digests

| module | what it models |
|---|---|
| `Sequences`, `TextOrder` | flattening, the order of strings |
| `TextSpans` | `split_text_spans`: natural boundaries, overlap, coverage |
| `Chunking` | `chunk_docx_blocks`, table cell ranges, and the chunk a fact is found in |
| `Batching` | the request document and its size, contiguous greedy batches, and the synchronous embedding client |
| `RankedHits` | `merge_ranked_hits` over any number of rounds |
| `Evidence` | `filter_relevant_hits` against a reference definition |
| `RowDigest` | the canonical row encoding and the order-free observation of a table |

Filtering evidence twice is filtering once except in two places. In the lexical fallback
a second pass can drop what the first kept (`Evidence.LexicalEvidenceMayVanish`,
`Evidence.FilteringTwiceByWords`). And negative scores keep the stricter floors for
probabilities away; where none of them is kept, the second pass applies those floors
(`Evidence.EvidenceMayVanishWithNegatives`, `Evidence.FilteringTwiceExactly`).

The minimum length of a chunk is computed in double precision, which makes it 125 and not
126 where 360 characters are left beside a table header (`TextSpans.MinimumLengthInUse`).

## Model

| member | source | states |
|---|---|---|
| `Operations.EnabledInImage` | tools/offline_recovery.py:1490-1624 | An operation that has not run can run next in every tree a run can leave, and is then recognised as not run |
| `Operations.UndoStep` | tools/offline_recovery.py:1711-1817 | In every reachable tree an executed operation nothing depends on any more is classified executed, can be reversed, and reversing it gives the tree without it |
| `Operations.NotRunIsSafe` | tools/offline_recovery.py:1820-1846 | An operation that has not run, or no longer has its effect, passes the check that lets a resumed rollback skip it |
| `Operations.ReversesExactly` | tools/offline_recovery.py:1490-1817 | In any tree, whoever changed it: an operation is reversed exactly if the disk shows its effect with kind, mode, owner and group as recorded, and passed over exactly if it shows what was there before |
| `Operations.ReversalTakesBack` | tools/offline_recovery.py:1711-1817 | In any tree a reversal touches the operation's own paths only, running the operation again gives the same tree, and it is never done twice |
| `Operations.EnvironmentExactly` | tools/offline_recovery.py:1573-1609 | The environment file is taken for the earlier or the new one exactly if it is that one, content, mode, owner and group |
| `Operations.RollbackOrder` | tools/offline_recovery.py:1849-1863 | The journal sorted for rollback: every operation once, by kind, deepest directory first, then latest first |
| `Operations.UndoAllRestores` | tools/offline_recovery.py:1849-1863 | Any order that undoes dependents first, from any set of operations that can have run, gives back the starting tree without a conflict |
| `Operations.KindOrderEqualsReverseSequence` | tools/offline_recovery.py:1849-1863 | Undoing by kind and undoing in reverse sequence order end in the same tree, the starting one |
| `Operations.ParentStands` | tools/offline_env.py:1053-1119 | When the next directory is to be created, its parent is there, because missing ancestors come first |
| `Operations.ReopenableWhenPrivate` | tools/offline_deployment_state.py:3477-3493 | A tree in the middle of a run can be reopened exactly when every secret moved to the companion had mode 0600 |
| `Operations.MovedFile` | tools/offline_env.py:1800-1859 | A moved file stays at its target, by identity, whatever else the run did |
| `Environment.EnvironmentStore.CreateOrVerifyCandidate` | tools/offline_recovery.py:444-491 | The replacement is created, accepted when a previous run finished it, rewritten when it did not, refused when it is not a private file |
| `Environment.EnvironmentStore.Exchange` | tools/offline_recovery.py:637-804 | The exchange happens once: from either side of it, and from no other state, the recorded files end up swapped and recorded so; a displaced file with other content is given back |
| `Environment.EnvironmentStore.VacatePath` | tools/offline_recovery.py:821-1077 | When there was no file before, the stand-in and nothing else is moved out of the way under records of its own, and what proves not to be it is put back |
| `Environment.EnvironmentStore.RestoreEnvironment` | tools/offline_recovery.py:1079-1143 | From every crash point the earlier file (or its absence) is restored, the private directory and the record gone, or the run stops at a crash point; from any state at all a pass means restored, and only files a rollback may delete are deleted |
| `Environment.EnvironmentStore.PublishEnvironment` | tools/offline_env.py:289-355 | A publication passes only through states recovery understands and ends with the new file in place and nothing left beside it; from any state at all only the recorded file is replaced |
| `Environment.EnvironmentStore.FinishPublication` | tools/offline_env.py:540-576 | After the move the earlier file is removed only by its recorded identity, then the record |
| `Environment.ForwardExactly` | tools/offline_recovery.py:1391-1477 | Whatever stands at the two paths, recovery of a publication goes on exactly if the record accounts for both files, and then removes the one beside the environment file if it is there |
| `Environment.EnvironmentStore.ResumeForward` | tools/offline_recovery.py:1372-1487 | Recovery of an interrupted publication never touches the environment file, leaves no candidate and no record, and refuses exactly a candidate that was created but not finished under a record that does not name it |
| `Journal.ManifestNamesUnlinkOnce` | tools/offline_recovery.py:1785-1796 | The manifest names the path of an unlink exactly once, as its reversal demands |
| `Journal.ManifestRecordsOriginals` | tools/offline_deployment_state.py:2167-2305 | Every operation has its entry, which holds the mode, owner and group that an object at its path was found with, and nothing of any other |
| `Journal.CopyIsKept` | tools/offline_deployment_state.py:3078-3098 | As long as the replacement of the environment file is on record there is a complete copy of what the file held |
| `Journal.ObservedState` | tools/offline_recovery.py:2180-2196 | What the disk shows of the operation next to be undone is exactly whether it ran |
| `Journal.ReversalKept` | tools/offline_recovery.py:2199-2208 | Reversing an operation that is on record as intended keeps the write-ahead invariant |
| `Journal.DoneKept` | tools/offline_deployment_state.py:2572-2591 | Recording an operation that no longer has its effect as undone keeps the invariant, after either of the two records |
| `Journal.CompletedCheck` | tools/offline_recovery.py:2154-2158 | An operation on record as undone passes its re-check unless it publishes a secret whose backup has been undone as well |
| `Journal.WindowPosition` | tools/offline_recovery.py:2154-2158 | In the rotation window a resumed rollback reaches the refused operation having changed nothing |
| `Journal.AllUndone` | tools/offline_recovery.py:2209-2209 | When every operation is on record as undone, tree and environment file are the starting ones |
| `Journal.IntentRecorded` | tools/offline_deployment_state.py:2437-2479 | An intent, once durable in both records, changes nothing on disk and keeps the manifest the image of the operations |
| `Journal.MutationKept` | tools/offline_env.py:1764-1859 | The mutation behind the last intent can run and keeps the write-ahead invariant |
| `Journal.PublicationKept` | tools/offline_env.py:1912-1950 | The operation on the environment file counts as executed exactly when the new file stands in its place, through the whole publication |
| `Journal.UnobstructedMeans` | tools/offline_recovery.py:2128-2219 | Without rotated secrets and with private ones no rotation window opens and the companion can always be reopened |
| `Transaction.TransactionJournal.WritePhase` | tools/offline_deployment_state.py:2090-2120 | A phase that ends the transaction is refused while the environment file is under way; otherwise exactly the phase changes |
| `Transaction.TransactionJournal.RecordIntent` | tools/offline_deployment_state.py:2437-2479 | Manifest first, operation second: interrupted between the two it leaves one trailing entry and nothing else |
| `Transaction.TransactionJournal.RecordDone` | tools/offline_deployment_state.py:2481-2504 | Done is recorded once, for the operation that ran, never while its publication is under way |
| `Transaction.TransactionJournal.RecordRollbackDone` | tools/offline_deployment_state.py:2572-2591 | Done is recorded before the intent is dropped, in two steps |
| `Transaction.TransactionJournal.PersistEnvBackup` | tools/offline_deployment_state.py:2955-2978 | The saved copy names the content of the environment file; every interruption leaves a coherent one |
| `Transaction.TransactionJournal.RepairManifest` | tools/offline_deployment_state.py:2329-2356 | Exactly one trailing entry in a forward phase is repaired, anything else refused |
| `Transaction.TransactionJournal.RepairEnvBackup` | tools/offline_deployment_state.py:3006-3069 | A saved copy left in preparation is settled without a conflict |
| `Transaction.TransactionJournal.Reopen` | tools/offline_deployment_state.py:1577-1739 | Opening restores exact equality of manifest and operations and refuses exactly a companion that is not private and a manifest torn before a rollback that is on record |
| `Transaction.WhatRunsShows` | tools/offline_env.py:1764-1859 | What the file system lets through has its effect in full: parents stand, modes and files are the recorded ones |
| `Transaction.TransactionJournal.Perform` | tools/offline_env.py:1807-1829 | One operation: on record, run, done on record; interrupted anywhere it can be rolled back |
| `Transaction.TransactionJournal.Execute` | tools/offline_env.py:1693-1957 | The forward run ends committed with every planned change in place, or interrupted anywhere in a state that can be rolled back |
| `Transaction.TransactionJournal.ReverseOperation` | tools/offline_recovery.py:1711-1817 | One step of the disk that takes exactly this operation's effect away |
| `Transaction.TransactionJournal.UndoOperation` | tools/offline_recovery.py:2159-2208 | One operation is undone from wherever a previous run left it, without a conflict |
| `Transaction.TransactionJournal.ResolveForward` | tools/offline_recovery.py:1372-1487 | An interrupted publication is settled first, refused exactly when it was left unfinished |
| `Transaction.TransactionJournal.UndoInOrder` | tools/offline_recovery.py:2149-2208 | The rollback loop undoes everything unless it starts in the rotation window, where it refuses with nothing changed |
| `Transaction.TransactionJournal.ResumeRollback` | tools/offline_recovery.py:2128-2219 | A rollback, fresh or resumed, restores tree and environment file, or fails exactly where it must with both unchanged; its first step puts it on record; a failure on record is never left |
| `Recovery.RecoverOnce` | tools/offline_recovery.py:2128-2219 | One attempt after a restart refuses exactly what is blocked and then changes no file |
| `Recovery.RecoverThroughCrashes` | tools/offline_recovery.py:2128-2219 | However often recovery is interrupted it ends with everything given back or refused; a refused tree is one a run can leave, and the starting one exactly if nothing of it is left to undo; without rotated secrets it is refused exactly for an unfinished publication or an intent torn behind a rollback |
| `Recovery.DeployThroughCrashes` | tools/offline_env.py:1693-1986 | For every crash point of a deployment, of the rollback in the same process that answers its failure, and of its recoveries: committed with everything planned in place, or everything given back, or refused in a state of the run, which the conservation of secrets covers; the journal can never be opened again exactly if that rollback went on record behind a torn intent; left alone, that rollback gives everything back exactly when no intent is torn and no publication unfinished |
| `Windows.WindowExactly` | tools/offline_recovery.py:1825-1836 | The rotation window is open exactly while a backup is undone whose publication is on record as undone |
| `Windows.WindowLeaves` | tools/offline_recovery.py:1849-1863 | What the window leaves, in every journal: no new secret in place, every old one not yet back missing from its place and only in the companion, and the starting tree exactly if nothing is left to undo |
| `Windows.SecondCrashStopsARotation` | tools/offline_recovery.py:2154-2158 | For every rotation: one atomic step, the return of the first old secret, turns a recoverable state into one every later recovery refuses, with all other old secrets missing from their places |
| `Rotations.EveryRotationHasTheWindow` | tools/offline_env.py:1343-1350 | Every plan that rotates secrets runs into it, with one old secret back and another only in the companion |
| `Rotations.RotationOfAPair` | tools/offline_env.py:1343-1350 | An input: a deployment with one pair of secrets and its rotation |
| `Operations.StartingTree` | tools/offline_recovery.py:1849-1863 | A tree that a run can leave is the starting one exactly if nothing but the environment file's replacement counts as executed |
| `Windows.PublicSecretStopsReopening` | tools/offline_deployment_state.py:3488-3491 | An input: a backed-up secret of mode 0644 keeps the journal from being reopened although undoing would restore the tree |
| `Windows.PublicSecretStopsCleanup` | tools/offline_deployment_state.py:3467-3468 | The same input after its commit: the scan fails before cleanup has begun, and the old secret is in the companion |
| `Windows.TornIntentStopsRollback` | tools/offline_deployment_state.py:2423-2431 | For every intent, the state between its two records is refused by a rollback that does not reopen, while the state before is not |
| `Windows.TornIntentIsStranded` | tools/offline_deployment_state.py:2335-2347 | For every intent, once that rollback is on record the journal is refused for good, although a step earlier it was not |
| `Windows.FirstIntentOfARotation` | tools/offline_env.py:1800-1829 | An input for both: the first intent of a rotation |
| `Windows.UnfinishedCandidateStopsRecovery` | tools/offline_recovery.py:1446-1459 | An input: a forward candidate created but not written is refused |
| `Secrets.SecretsConserved` | tools/offline_env.py:1800-1859 | In every reachable state each old secret is at exactly one of its active and backup paths, each new one at exactly one of its staging and active paths |
| `Secrets.CompanionIsExpendable` | tools/offline_recovery.py:2088-2089 | Deleting the companion loses no old secret after a rollback and no new one after a commit |
| `Directories.MissingAncestors` | tools/offline_env.py:1063-1070 | Exactly the missing directories between a target and its closest existing ancestor |
| `Directories.SortByDepth` | tools/offline_env.py:1114-1119 | The same directories, by depth and then by name |
| `Directories.DirectoryPlan` | tools/offline_env.py:1053-1119 | A plan is made exactly when what exists of every target is the account's own directory and, if something is missing, neither group nor others may write there; it lists exactly the targets and the missing directories on the way, each as found |
| `Directories.WritableDigits` | tools/offline_env.py:1077-1077 | In octal digits of a mode: others may write exactly if the digit of the group or of the others is 2, 3, 6 or 7 |
| `Directories.ParentsComeFirst` | tools/offline_env.py:1086-1119 | Every directory to be created has its parent on disk or earlier in the plan |
| `Plan.PublishNamesAre` | tools/offline_env.py:1343-1350 | Secrets are chosen by complete pairs, each once; without rotation none that exists, with rotation all |
| `Plan.HalfAPairIsRefused` | tools/offline_env.py:1343-1350 | Planning stops exactly for a pair of which only one secret exists |
| `Plan.BootstrapAdds` | tools/offline_deployment_state.py:1495-1562 | Creating the journal adds private directories and changes nothing outside the secret root |
| `Plan.OperationsApart` | tools/offline_env.py:1764-1896 | Operations of a plan touch different paths, unless the second publishes what the first backed up |
| `Plan.PlanHasShape` | tools/offline_env.py:1764-1950 | Every operation of every plan can run, on paths of its own, parents first |
| `Plan.PlanFits` | tools/offline_env.py:1179-1425 | Every plan satisfies what the whole-run statements presuppose |
| `Plan.PlanIsPlain` | tools/offline_env.py:1796-1829 | Without rotation nothing is backed up, so only an unfinished publication can be refused |
| `Deployment.MakePlan` | tools/offline_env.py:1179-1425 | Of what is modelled, planning is refused exactly for half a pair of secrets, a secret that is not the account's own regular file, a rotation after the start, an unusable directory, or a place where the journal cannot be created; nothing is created where group or others may write |
| `Deployment.AcceptedExactly` | tools/offline_env.py:1179-1425 | What is accepted, condition by condition, in kinds, owners and modes |
| `FinalTree.UndoneIsInspected` | tools/offline_recovery.py:2047-2125 | With everything outside the companion given back and both bootstrap directories as found, the tree is the inspected one |
| `FinalTree.SecretSaved` | tools/offline_env.py:1800-1829 | A replaced secret is in the companion until cleanup, the file it was |
| `FinalTree.CompanionEnds` | tools/offline_deployment_state.py:3467-3468 | After the commit of any plan the companion can be deleted exactly if every secret that was replaced had mode 0600 |
| `FinalTree.RunIsPrepared` | tools/offline_env.py:1693-1957 | What a run amounts to without mention of its steps: new secrets in place, kept ones and managed directories private, nothing else of the inspected tree touched |
| `FinalTree.StopIsSuspended` | tools/offline_env.py:1693-1986 | Wherever a transaction stops: every managed object is in its earlier or its new state, every old secret at exactly one of its two places, and nothing else of the inspected tree touched |
| `FinalTree.StopHoldsEnvironment` | tools/offline_recovery.py:1079-1143 | Wherever a transaction stops the environment file is the earlier one or absent as it was, the new one, or, where there was none, the empty stand-in |
| `Deployment.AbandonCreation` | tools/offline_recovery.py:1957-2044 | An interrupted creation leaves the inspected tree, or stops exactly for a directory it never recorded, with nothing managed touched |
| `Deployment.RunTransaction` | tools/offline_env.py:1693-1986 | Transaction, recovery and cleanup of a plan end with the prepared tree, the inspected tree, or a refusal, exactly where it must be without rotation; a refusal keeps every old secret and touches nothing that is not managed |
| `Deployment.PrepareDeployment` | tools/offline_env.py:2130-2184 | From the first inspection to the end, whatever interrupts creation, run, rollback, recovery and cleanup: the prepared tree and nothing left over; or the prepared tree and the old secrets that were not private still in the companion, exactly if there are any; or the very tree that was inspected; or a refusal, with every managed object in its earlier or new state and no old secret lost |
| `Bootstrap.BootstrapDirectories.PrepareEntry` | tools/offline_deployment_state.py:1513-1553 | Directory first, identity on record second, as a prefix; every interruption leaves a state cleanup understands |
| `Bootstrap.BootstrapDirectories.Create` | tools/offline_deployment_state.py:1495-1562 | Both directories private and recorded before the companion and its own directories exist |
| `Bootstrap.BootstrapDirectories.CleanEntry` | tools/offline_recovery.py:1975-2040 | One directory gets its mode or its absence back and is then marked; refused exactly if it was never recorded or holds something else |
| `Bootstrap.BootstrapDirectories.FinishCleanup` | tools/offline_recovery.py:1957-2044 | From any interruption both directories return to what was found, or cleanup stops exactly where it must; no directory without its recorded identity is removed |
| `Bootstrap.UnrecordedDirectoryIsStuck` | tools/offline_recovery.py:1931-1940 | An input: a directory created a moment before its identity was recorded stops cleanup |
| `Cleanup.ScanExactly` | tools/offline_deployment_state.py:3759-3941 | Whatever there is: the scan finds nothing exactly if nothing is left, and accepts what is left exactly if each part has what belongs to it |
| `Cleanup.NeverLost` | tools/offline_deployment_state.py:3759-3941 | At every point of either cleanup the scan reports the transaction, and ceases to exactly when nothing is left; it fails exactly while the companion holds something not private |
| `Cleanup.FailureBesideMetadataIsRefused` | tools/offline_deployment_state.py:3847-3859 | Once a bootstrap conflict is recorded beside the cleanup metadata the scan itself fails |
| `Cleanup.PrivateDirectory.Remove` | tools/offline_deployment_state.py:3449-3474 | Entries go one by one, each when nothing is below it, and the directory last; refused exactly when something is not private, which then stays |
| `Cleanup.TransactionRemains.FinalizeCommitted` | tools/offline_recovery.py:2267-2363 | Cleanup after a commit can be resumed from every interruption and ends with the receipt complete and nothing else left, exactly if the companion is private; else it is on record as required and what was refused stays |
| `Cleanup.TransactionRemains.FinalizeRolledBack` | tools/offline_recovery.py:2047-2125 | Cleanup after a rollback can be resumed from every interruption and ends with nothing left, or stops exactly for the bootstrap directories or a companion that is not private, each with its own record |
| `Cleanup.CommittedThroughCrashes` | tools/offline_recovery.py:2267-2363 | Interrupted any number of times it ends clean exactly if the companion was private; else every later scan fails and everything not private is still there |
| `Cleanup.RolledBackThroughCrashes` | tools/offline_recovery.py:2047-2125 | Interrupted any number of times it ends clean with both directories as found, exactly unless one cannot be given back or the companion is not private |
| `ControlSagas.ControlJournal.Create` | tools/offline_recovery.py:2606-2649 | A new log at its first phase or the one that is there; a directory without a log is refused |
| `ControlSagas.ControlJournal.Advance` | tools/offline_recovery.py:2704-2724 | A phase is kept or followed by the next one |
| `ControlSagas.ClearStartMarker.Withdraw` | tools/offline_recovery.py:3427-3454 | A failed gate puts a marker back that is on record as moved; in the window the only copy is deleted |
| `ControlSagas.ClearStartMarker.Clear` | tools/offline_recovery.py:3370-3519 | The marker is at exactly one place or accounted for by the receipt, unless a gate fails in the window, where it is lost; elsewhere a failing gate lets nothing through and leaves the marker in its place; left alone and with nothing against it the command succeeds |
| `ControlSagas.ClearThroughCrashes` | tools/offline_recovery.py:3370-3519 | Over any attempts and interruptions the marker is at one place or accounted for, unless an attempt begun in the window met a failing gate, and is lost if such an attempt was left alone; a receipt is only written by an attempt whose gates held |
| `ControlSagas.LoseMarker` | tools/offline_recovery.py:3435-3484 | A run for every marker: a first attempt that stops after its fourth step, and one more that meets a failing gate, lose it |
| `ControlSagas.AcknowledgeRepaired.Acknowledge` | tools/offline_recovery.py:3522-3649 | The transaction, by identity, is at exactly one of source and quarantine, and the receipt is bound to that identity and the evidence; unsound or differing evidence moves and writes nothing |
| `TextSpans.NaturalBreakPositions` | backend/app/docx_parser.py:150-173 | The loop finds the boundaries of the reference definition, strictly increasing and within the text |
| `TextSpans.EveryBreakIsFound` | backend/app/docx_parser.py:150-173 | After every breaking character there is a boundary past its closing punctuation and newlines, and one right after every full stop |
| `TextSpans.EveryBoundaryHasABreak` | backend/app/docx_parser.py:150-173 | Every boundary ends such a run or follows a full stop |
| `TextSpans.LatestBoundary` | backend/app/docx_parser.py:176-185 | The latest boundary of the window, absent exactly when the window has none |
| `TextSpans.SemanticOverlapStart` | backend/app/docx_parser.py:188-207 | The boundary closest to the wanted overlap among those within twice of it, else exactly the overlap |
| `TextSpans.MinimumLengthInUse` | backend/app/docx_parser.py:121-121 | The minimum length in double precision: 35 per cent of 600, one less than that of 360 |
| `TextSpans.LatestWhitespace` | backend/app/docx_parser.py:210-218 | The latest white space of the second half of the window |
| `TextSpans.SplitTextSpans` | backend/app/docx_parser.py:78-147 | For every text, length and overlap: starts strictly increase, ends never decrease, spans are non-empty and bounded, no gap, the whole text covered, every cut at the best place of its window, every start at the boundary closest to the wanted overlap |
| `TextSpans.TilingCovers` | backend/app/docx_parser.py:78-147 | Every position of the text lies in a span |
| `Chunking.TableCellRange` | backend/app/docx_parser.py:580-587 | The range of a cell slices the joined row back to the cell |
| `Chunking.BoundedText` | backend/app/docx_parser.py:409-418 | At most the limit, keeping both ends; unchanged if it fits |
| `Chunking.AppendRow` | backend/app/docx_parser.py:338-359 | A row that fits keeps its text at the beginning and gets the longest header context there is room for |
| `Chunking.ChunkForRange` | backend/app/docx_parser.py:590-612 | The first span that holds the whole value, else one that shows most of its characters, then one with its beginning, then the first |
| `Chunking.ChunkBlocks` | backend/app/docx_parser.py:274-393 | Every chunk is within 600 characters and shows what its span names; every row below a header and every long block is shown as planned, with the excerpt of its table's last header row; a chunk holds nothing else and has the locators of the blocks it shows, in order |
| `Chunking.NeighboursShare` | backend/app/docx_parser.py:376-386 | A short block is in its predecessor's chunk exactly if what is in there by then leaves room for it |
| `Chunking.FactFindsItsChunk` | backend/app/docx_parser.py:590-612 | A non-empty value always maps to a chunk that shows some of it, and to one that shows all of it whenever a span holds it |
| `Batching.EscapingGrowsSixfold` | backend/app/embedding_contracts.py:242-252 | JSON escaping grows a text at most sixfold in bytes |
| `Batching.EscapeTakes` | backend/app/embedding_contracts.py:242-252 | A quote, a backslash and five controls take two bytes, other controls six, every other character its own in UTF-8 |
| `Batching.RequestReadBack` | backend/app/embedding_contracts.py:242-252 | Every request document is read back as the texts and the purpose it was made of, whatever the texts contain |
| `Batching.RequestSizeIs` | backend/app/embedding_contracts.py:242-252 | The size of a request is that of its texts and a fixed envelope |
| `Batching.SplitBatches` | backend/app/embedding_client.py:434-451 | The batches are the input in order, each of 1 to 64 texts in up to 262144 bytes and closed only when the next text would be one too many or too much; refused exactly for a text that does not fit alone |
| `Batching.SplitIsShortest` | backend/app/embedding_client.py:434-451 | No division that keeps the order needs fewer requests |
| `Batching.ValidatedTextsSplit` | backend/app/embedding_client.py:415-431 | After validation the error for a single oversized request cannot occur |
| `Batching.SyncEmbeddingClient.Embed` | backend/app/embedding_client.py:268-322 | Vector number i belongs to text number i; a closed client refuses; texts are refused exactly if there is none or one is blank or above 16384 bytes; the requests are the greedy division, up to the first without an answer of this purpose, model and size, whose failure is the one reported |
| `Batching.SyncEmbeddingClient.Close` | backend/app/embedding_client.py:324-330 | The transport is closed once |
| `RankedHits.WinsAt` | backend/app/agent.py:279-284 | The map of the merge holds exactly the hits that count: the listed one unless the round has a better one, then the first best of the round |
| `RankedHits.MergeRankedHits` | backend/app/agent.py:271-306 | The highest-ranked of the hits that count, numbered from one, by falling score, then by name in the order of its first differing character, then by place; nothing left out comes before anything listed |
| `RankedHits.TopIsUnique` | backend/app/agent.py:286-289 | The ranking leaves no choice |
| `RankedHits.RoundsForgetNothing` | backend/app/agent.py:271-306 | Dropping what is not at the top between rounds changes nothing at the top |
| `RankedHits.MergeRounds` | backend/app/agent.py:1048-1048 | Merging round after round gives the first best hit of each chunk over everything found, ranked and cut off: the same list as one merge of it all |
| `Evidence.EvidenceNeedsAnchors` | backend/app/agent.py:468-613 | There is evidence exactly when there are anchors, and all of it comes from a source that has one |
| `Evidence.FilteringTwice` | backend/app/agent.py:326-622 | Outside the lexical fallback, filtering twice is filtering once as long as the scale stays: no score is negative, or some exceeds 1, or a negative one is kept |
| `Evidence.FilteringTwiceExactly` | backend/app/agent.py:326-622 | Unless words decide at first, filtering twice is filtering once exactly if every kept hit is an anchor of what was kept or stands by one, whichever way the second pass finds its anchors |
| `Evidence.EvidenceMayVanishWithNegatives` | backend/app/agent.py:467-475 | Inputs with a negative score where a second pass drops what the first kept |
| `Evidence.FilteringTwiceByWords` | backend/app/agent.py:476-512 | In the lexical fallback, for a named subject or an untied choice, filtering twice is filtering once exactly if a kept hit reaches the fallback's own floor |
| `Evidence.LexicalEvidenceMayVanish` | backend/app/agent.py:476-512 | Inputs in the lexical fallback where a second pass drops what the first kept |
| `Evidence.FilterRelevantHits` | backend/app/agent.py:326-622 | The filter computes the reference definition, ranked anew, and refuses negative settings |
| `Evidence.EvidenceInScores` | backend/app/agent.py:467-598 | Where some score reaches the cutoff: the evidence is exactly what comes from a source that counts and reaches it, or stands by a hit that does |
| `Evidence.EvidenceByDefault` | backend/app/agent.py:467-598 | The same under the default floors, in numbers: 0.1 of the top score and 0.03 on probabilities, 0.05 and 0.01 otherwise, one place up or down |
| `Evidence.CutoffIsLargest` | backend/app/agent.py:468-474 | The score to meet is the largest of the floors that apply |
| `Evidence.EvidenceInWords` | backend/app/agent.py:476-510 | Where no score reaches the cutoff and a subject is named: the evidence is what shares words with the question and what stands by it, if the top score is 0.005 at least |
| `Evidence.EvidenceByBestWords` | backend/app/agent.py:476-510 | Without a subject only the first of the highest-scored hits that share words counts, and what stands by it |
| `Evidence.SourceInScores` | backend/app/agent.py:536-560 | A single source is chosen, if one is wanted, unless scores are probabilities of which none is at least 0.7 and ahead by 0.15 |
| `Evidence.LongerReferenceWins` | backend/app/agent.py:399-419 | Of a file reference and a longer one that ends in it, the longer one limits the question as soon as it names a file that was found |
| `Evidence.OtherFieldsAreOut` | backend/app/agent.py:428-436 | A question for a field shuts out exactly the hits about another |
| `RowDigest.RowRoundTrip` | backend/app/clickhouse_gateway.py:382-409 | Every row can be read back from its encoding |
| `RowDigest.EncodingByByte` | backend/app/structured_ingestion.py:633-656 | NULL is N; and the text ab is V2:ab; byte by byte; ten bytes have a length of two digits |
| `RowDigest.EncodingIsUnique` | backend/app/structured_ingestion.py:633-656 | Equal payloads mean equal rows: NULL is never taken for a value and no value runs into the next |
| `RowDigest.ObservationIgnoresOrder` | backend/app/clickhouse_gateway.py:375-379 | The observed sums and exclusive ors are the same for every permutation of the rows |
| `RowDigest.ObservationIgnoresBatches` | backend/app/clickhouse_gateway.py:375-379 | And for every division into batches |
| `RowDigest.ByteWeight` | backend/app/clickhouse_gateway.py:412-416 | Byte k of a lane counts 256^k fold |
| `RowDigest.LanesDetermine` | backend/app/clickhouse_gateway.py:412-416 | The four lanes determine the digest |
| `RowDigest.RowIsObserved` | backend/app/clickhouse_gateway.py:374-379 | Two rows are observed alike exactly if their digests are equal |
| `RowDigest.ExchangeShows` | backend/app/clickhouse_gateway.py:374-379 | In any table, one row exchanged for another shows exactly if their digests differ |
| `RowDigest.RowsAreCounted` | backend/app/clickhouse_gateway.py:355-356 | Every row is counted |
| `RowDigest.SumsAreTotals` | backend/app/clickhouse_gateway.py:375-379 | The sums are those of the lanes' numbers, modulo 2^64 |
| `RowDigest.Ingest` | backend/app/structured_ingestion.py:165-238 | One pass writes batches within both limits that are the rows in order, and makes the observation of all rows |
| `RowDigest.TableMatchesIngestion` | backend/app/clickhouse_gateway.py:274-280 | A table that holds the inserted rows in any order is observed as ingestion observed them |

## Left out

- `adopt_existing`, and the migration of version 1 bootstrap records.
- The text of `.env` (`_load_env_text`, `_render_env_values`): its content is a digest.
- Ownership, link and descriptor checks, `fsync`, and input or output errors other than power loss.
- What other programs do to the disk between two steps: conflicts that only they can cause are branches of the model, but no run reaches them. What recovery makes of a tree or environment file that others have changed is stated by `Operations.ReversesExactly`, `Operations.EnvironmentExactly` and `Environment.ForwardExactly`.
- Lock timing, subprocesses, Docker, HTTP probes, the command line, diagnostics.
- Record formats: a record is well formed or was never written; a validator decides whether a secret's content is acceptable.
- The steps of a plan are computed once from the tree it was made for, instead of looking each file up again right before its step.
- Managed directories other than the secret root are presupposed not to lie below it; the code does not check this.
- Operations.UndoStep: `unlink` is recognised and undone like the other kinds, but no plan records one.
- Environment.EnvironmentStore.CreateOrVerifyCandidate: a new file has its owner and mode at once and its content in one step; where the account's group or umask differ from what is to be restored, an interruption before the mode is set is refused on resumption.
- Environment.EnvironmentStore.PublishEnvironment: the same of the publication candidate, which is either empty or complete.
- Deployment.PrepareDeployment: creation begins with the record of the bootstrap directories; an interruption before it leaves a journal directory without that record. With rotation, what is refused is stated by `Recovery`, not once more here.
- Deployment.MakePlan: the content of existing secrets and the settings of the environment are not examined.
- Deployment.AbandonCreation: the rollback of a journal with nothing on record is one step.
- FinalTree.RunIsPrepared: identities of files and directories that a run creates carry no meaning.
- Cleanup.TransactionRemains.FinalizeRolledBack: of a conflict it promises the recorded failure and a failing scan, not what a later attempt does.
- ControlSagas.ClearStartMarker.Clear: what the examinations of the deployment look at is a parameter, and so is the order in which the control directory is emptied.
- TextSpans.SplitTextSpans: which characters are white space is a parameter.
- Chunking.ChunkBlocks: a chunk's identifier is its index; the overlap is in characters of the model, one per code point; fact extraction and header detection are not modelled.
- Chunking.ChunkForRange: two spans of one block with the same start and end are told apart by their index instead of the text of their chunk's identifier.
- Batching.SyncEmbeddingClient.Embed: answers come from a parameter; timeouts, the fields of the metadata and the numbers inside a vector are not modelled. The asynchronous client has the same loop.
- RankedHits.MergeRankedHits: a score is a real number or unusable; rounding and infinities are not modelled.
- Evidence.FilterRelevantHits: among hits that tie for their words the first in the list is chosen, which is the one of lowest rank where the list is ranked; lexical overlap, field and subject matching are predicates of the hit; scores are exact.
- The routing of the agent between search and answer, and all calls to language models.
- RowDigest.Ingest: SHA-256 is a parameter, of which nothing but its type is used; the queries that compute the observation are modelled by what they add up.
- ClickHouse validation beyond the content digest.
