# Verification of the protocols of the devsy command line

This project models the parts of the devsy CLI in which several durable or shared resources must
stay consistent while operations fail, processes crash, or streams arrive in arbitrary pieces. Each
module stands beside one part of the program:

- `context_stores`, `context_snapshot`, `context_deletion`, `context_recovery`, `context_runs`: deleting
  a context is a write-ahead transaction over the secret store, the environment store, `config.yaml`
  and the context directory. Every store operation may fail in any way its contract allows, and
  `history` lists the durable state after every operation, failed or not. States within one operation
  are not listed: a crash there leaves a state that a failure of the same operation can leave. The main
  theorem speaks about all sequences of deletions, crashes, recoveries and other commands: without a
  durable intent the last deletion changed nothing or finished completely. A driver that performs the
  commands and crashes is proved to be such a sequence. Recovery converges, and the reported outcome is
  truthful.
- `provider_rename`, `provider_lookup`, `option_paths`: a chain of writes with reverse compensation, exactly
  when its rollback succeeds, and exactly when that restores the initial state.
- `provider_locks`: any number of concurrent provider commands take locks in one order and never
  deadlock.
- `inactivity`, `machine_daemon`: the shutdown decision of the machine daemon, safety over whole patrol
  traces, and an event log that replays to the daemon's knowledge.
- `workspace_import`: the merge of a staged tree whose record is committed last.
- `value_stores`, `secret_conversion`, `binding_invariants`, `bindings`: environment values, secrets and their bindings under
  every sequence of commands, including the conversion of one kind of value into the other.
- `transcript`, `transcript_lines`, `log_tailer`, `bounded_buffer`: three stream processors, each equal to a simple function
  of the whole stream however it is cut.
- `gpg_tunnel`: the invariants of a session's GPG agent tunnel.
- `secret_refs`, `basics`: references and shared definitions.

Code that updates fields is a class whose methods are proved against functions and predicates of the
state; loops keep their loops. Operations of stores, files and remote peers choose their outcome
nondeterministically. The fields `history`, `faults` and `raised` record the durable states after each
operation, the operations that failed and the errors they reported; how many failed says for each outcome
that no step was skipped. Ghost parameters carry the initial state.

Results where the code does not do what one might expect, each with its exact condition and a
concrete case:

- The rollback of a provider rename switches the workspaces back before the provider has its old name
  again, and switching looks the provider up. So once a workspace has been switched the rollback always
  reports an error, and every switched workspace is left naming a provider that no longer exists, while
  the default, the machines and the provider itself go back. The exception is another directory whose
  `provider.json` gives the old name. A rollback whose own operations do not fail is thus clean if and
  only if no workspace had been switched or the old name is found elsewhere.
- A provider rename that fails and rolls back without reporting an error restores the initial state if
  and only if nothing was torn and no option mentions the new directory outside its mentions of the
  provider's own directory. A failure is torn when a write fails after replacing its file, or when a
  compensating step whose error is dropped does not take effect. At most one record is left behind.
- Deleting the context that the configuration names as its default resets the default to `default`, even
  if no context of that name is registered in the file. The persisted default then names no context
  until loading provides one in memory. A finished deletion leaves the default registered if and only if
  it was not the target or `default` is registered.
- Attaching a secret checks only for its catalog entry. An entry whose value was lost by an
  indeterminate deletion can be bound, and then a bound name has no value. Every other command keeps
  the values of all bound names.
- Deleting a secret removes only the binding that is spelled exactly like its name. Another binding of
  the same secret, for instance with white space around the name, is left dangling. Configurations
  written by the commands alone never hold one.
- Every line of output in a transcript stands behind the label of its own stream. The line of a hook
  invocation is one line if and only if it prints no newline, which the key of a hook may hold.

To verify the whole project, run `dafny verify dfyconfig.toml` in this directory.

## Model

| member | source | states |
|---|---|---|
| ContextStores.Stores.DeleteSecret | cmd/context/cleanup.go:163-176 | contract of the secret store: a failed delete may or may not have removed the entry or its value, and touches no other secret |
| ContextStores.Stores.RestoreSecret | cmd/context/cleanup.go:272-279 | a successful restore reinstates value, owner and last use; a failed one creates and removes nothing |
| ContextStores.Stores.DeleteEnvs | cmd/context/cleanup.go:177-184 | one atomic replacement of the environment file: a failure changes nothing and missing names are tolerated |
| ContextStores.Stores.SaveConfig | cmd/context/cleanup.go:185-195 | the configuration file is replaced atomically and every failure precedes the replacement |
| ContextStores.Stores.WriteIntent | pkg/config/context_deletion.go:145-199 | a failure that does not report a pending deletion left no intent behind; any other failure may leave it in either state |
| ContextStores.Stores.ClearIntent | pkg/config/context_deletion.go:215-243 | the intent is gone after success and may be in either state after a failure |
| ContextSnapshot.SnapshotContextSecret | cmd/context/cleanup.go:223-254 | reading one binding changes no value; it finds the local secret it names, or that it names none; it stops only for an unparsable binding, a lost value, an owner that cannot be proven, or a failing operation |
| ContextSnapshot.SnapshotContextValues | cmd/context/cleanup.go:202-221 | the snapshot holds exactly the stored secrets that some local binding names, each once however often it is bound, and every environment value |
| ContextDeletion.SnapshotIntent | cmd/context/deletion_intent.go:32-79 | the intent built from a snapshot names exactly what the deletion manages, and the snapshot suffices to undo it |
| ContextDeletionSpec.GoneIffNothingRemains | cmd/context/cleanup.go:149-200 | in every state the protocol can leave, the context is completely gone with no intent if and only if nothing recorded remains |
| ContextDeletion.DeleteKeepsBetween | cmd/context/cleanup.go:163-176 | deleting one recorded secret, successfully or not, leaves a state that recovery can complete |
| ContextDeletion.DeleteStep | cmd/context/cleanup.go:163-176 | only the attempted secrets may differ from the original; after success the first k + 1 are gone |
| ContextDeletion.RestoreKeepsUndoing | cmd/context/cleanup.go:272-279 | restoring one secret, successfully or not, keeps the state recoverable |
| ContextDeletion.RestoredEverything | cmd/context/cleanup.go:264-289 | once every attempted secret and the environment values are back the state is the original one |
| ContextDeletion.EnvsRestored | cmd/context/cleanup.go:264-271 | restoring the snapshotted environment values over a cleared store gives exactly the original store |
| ContextDeletion.RestoreSecrets | cmd/context/cleanup.go:272-279 | restores the attempted secrets in reverse order, going on after failures: every secret is back as it was captured except those whose own restoration failed |
| ContextDeletion.RollbackContextValues | cmd/context/cleanup.go:264-289 | every state it leaves is safe to crash in; every attempted secret and the environment values are back unless their own restoration failed; it reports the plain cause if nothing failed, the joined errors of its operations with recovery pending if a restoration failed, and otherwise the failed removal of the intent |
| ContextDeletion.FinishIsSafe | cmd/context/deletion_intent.go:101-119 | removing the directory and then the intent never leaves a partial deletion without an intent |
| ContextDeletion.DeleteSnapshottedSecrets | cmd/context/cleanup.go:163-176 | deletes in order until a failure, which counts as attempted |
| ContextDeletion.DeleteRemaining | cmd/context/cleanup.go:177-200 | from the point where all secrets are gone: success means complete deletion, an unmarked error means everything restored, a remaining intent is always reported, and the result is determined by the errors that the operations reported |
| ContextDeletion.DeleteContextValues | cmd/context/cleanup.go:149-200 | the truthful outcome: nil means completely gone and no intent; an error not matching the pending sentinel means everything as before and no intent; the first reported error is the cause, and a pending deletion is reported exactly for further errors in the rollback, for an error that reports it itself, or after the configuration was saved; every intermediate durable state is all-original, all-gone, or recoverable with its intent; without failing operations, and with recorded owners, it succeeds if every binding parses and names no secret that lost its value, and it never succeeds otherwise |
| ContextDeletion.ToldPendingIff | cmd/context/cleanup.go:264-289 | a reported error matches the pending sentinel if and only if a further operation failed in the rollback, the first error matches it itself, or the configuration was already saved |
| ContextDeletion.SavedIsNotOriginal | cmd/context/cleanup.go:185-189 | saving the configuration without a registered context always changes it |
| ContextRecovery.OwnersAgree | cmd/context/deletion_intent.go:214-229 | the backend check never refuses in a state that the protocol itself produced |
| ContextRecovery.DeleteRecordedContextSecret | cmd/context/deletion_intent.go:214-229 | refuses, changing nothing, exactly when the stored owner contradicts the recorded one |
| ContextRecovery.SecretStep | cmd/context/deletion_intent.go:139-164 | one recovered secret keeps the run safe and convergent |
| ContextRecovery.DeleteRecordedSecrets | cmd/context/deletion_intent.go:139-164 | the recorded secrets are gone unless an operation failed, and every state on the way is safe and has no more left than the one before |
| ContextRecovery.CompleteRecovery | cmd/context/deletion_intent.go:139-164 | after the secrets: environment, configuration, directory, intent, each keeping the run safe and convergent |
| ContextRecovery.ResumeContextDeletion | cmd/context/deletion_intent.go:139-181 | completes exactly what the intent records and refuses a changed fingerprint untouched; in every state the protocol leaves, each step is safe and nothing comes back, it succeeds if and only if no operation reports an error, and otherwise reports the first one as pending |
| ContextRuns.DeleteRegisteredContext | cmd/context/delete.go:68-83 | the default and unregistered contexts are refused without any effect; otherwise the outcome of the deletion is the outcome of the command; without failing operations, and with recorded owners, it succeeds if and only if the context is registered, is not the default, and all its bindings can be read |
| ContextRuns.LockAndLoad | cmd/context/delete.go:45-66 | unless reading fails the lock is granted if and only if no intent is pending or it is for the named context |
| ContextRuns.Run | cmd/context/delete.go:45-66 | one run of the delete command, fresh or resuming, keeps every promise at each durable state it visits, succeeds without failures, and reports exactly the errors of its operations |
| ContextRuns.StepKeepsWorldOk | cmd/root.go:449-461 | a delete run crashed at any durable effect, or any other command admitted without an intent, keeps the system invariant |
| ContextRuns.NoIntentMeansAllOrNothing | cmd/context/cleanup.go:149-289 | over every sequence of deletions, crashes, recoveries and other commands: without a durable intent the last deletion changed nothing or completely finished |
| ContextRuns.PendingOnlyShrinks | cmd/context/deletion_intent.go:139-164 | across any number of crashes and resumes of one pending deletion, what is left to delete never grows |
| ContextRuns.DefaultAfterDeletion | cmd/context/delete.go:100-107 | a finished deletion leaves the persisted default naming a registered context if and only if that default was not the target or "default" is registered |
| ContextRuns.DeletedOnlyContext | cmd/context/delete.go:100-107 | deleting the only registered context leaves a default that only loading provides |
| ContextRuns.UnregisteredDefaultIsSaved | pkg/config/config.go:296-321 | a default that was never registered becomes registered when another context is deleted |
| ContextRuns.DefaultSurvives | cmd/context/delete.go:68-107 | where "default" is registered and the default names a registered context, every state a deletion can leave keeps that |
| ContextRuns.DefaultAlwaysRegistered | cmd/context/delete.go:68-107 | and so does every sequence of deletions, crashes and recoveries among other commands that keep it |
| ContextRuns.DeleteOrCrash | cmd/context/delete.go:45-66 | one run of the delete command, returning or killed at any durable state it visited, is a step of the system |
| ContextRuns.Drive | cmd/context/delete.go:45-66 | any sequence of commands and crashes that the program performs is a run of the system and keeps the write-ahead guarantee |
| ContextRuns.OthersUntouched | cmd/context/cleanup.go:202-254 | in every such state other contexts, their secrets, values and directories, and secrets that no local binding names, are untouched |
| SecretRefs.ParseRefInvertsRefString | pkg/secrets/reference.go:21-82 | writing any parsed reference canonically and parsing it again gives the same reference |
| SecretRefs.QualifiedParses | pkg/secrets/reference.go:39-76 | a qualified spelling parses to its type, source and name |
| OptionPaths.RewritingIsElsewhere | pkg/provider/move.go:99-109 | rewriting later occurrences of a directory neither makes nor removes an occurrence of its sibling here |
| OptionPaths.ReversesIffClear | pkg/provider/move.go:99-109 | rewriting a directory to its sibling and back restores a value if and only if the sibling does not occur outside the left-to-right occurrences of the directory |
| OptionPaths.UnmentionedIsClear | pkg/provider/move.go:99-109 | a value that never mentions the sibling is clear of it |
| OptionPaths.InnerOccurrenceReverses | pkg/provider/move.go:99-109 | a concrete value in which the sibling occurs only inside an occurrence of the directory is restored |
| OptionPaths.PathsFollow | pkg/provider/move.go:99-109 | a path below the directory follows it to the new one, and a value that does not mention it stays |
| ProviderRename.Stores.MoveProvider | pkg/provider/move.go:14-43 | success moves directory, stored name and entry; a failure undoes the steps before it and, as their errors are dropped, leaves everything as before if and only if none was torn |
| ProviderLookup.AscendingAgree | pkg/workspace/provider.go:262-290 | a directory has one sorted listing, so that the lookup is determined by it |
| ProviderLookup.FoundByListing | pkg/workspace/provider.go:262-290 | whether a name is found does not depend on which listing is considered |
| ProviderLookup.FoundIsFindable | pkg/workspace/provider.go:93-105 | a name that is found is configured with a directory, or some directory gives it |
| ProviderLookup.FoundIsGiven | pkg/workspace/provider.go:262-336 | a found name is configured with a directory, or given by a directory that is neither configured nor hidden |
| ProviderRename.Stores.FindProvider | pkg/workspace/provider.go:93-105 | without a failure a name is found if and only if it is known from the configuration or from the directories in their order; with failures never a name that none of them gives |
| ProviderRename.Stores.SwitchProvider | pkg/workspace/provider.go:559-610 | a workspace is switched or its record is as before, unless the failure was torn: a write that replaced the file, or a revert that did not; without a failure it is switched if and only if the lookup finds the new provider |
| ProviderRename.Stores.SwitchWorkspaces | cmd/provider/rename.go:162-176 | stops at the first failure with exactly the counted prefix switched, and one record more if that failure was torn; without a failure it switches all if and only if there are none or the provider is found, and none otherwise |
| ProviderRename.Stores.SwitchMachines | cmd/provider/rename.go:181-193 | the same for machine records, each a single write |
| ProviderRename.AppliedPartlyBack | cmd/provider/rename.go:224-250 | with two groups of records switched and the first switched back, exactly the second names the new provider |
| ProviderRename.AppliedAll | cmd/provider/rename.go:162-193 | switching every listed record is redirecting every record that names the provider |
| ProviderRename.RenamedMovesNames | cmd/provider/rename.go:291-335 | redirecting everything makes each record and the default name the new provider exactly if it named the old one |
| ProviderRename.OptionsReverseIffClear | pkg/provider/move.go:74-109 | the options come back if and only if none mentions the new directory outside the mentions of the own one |
| ProviderRename.UnmentionedPathsReverse | pkg/provider/move.go:74-109 | options that never mention the new directory come back |
| ProviderRename.PathsNeedNotReverse | pkg/provider/move.go:74-109 | an option that already points into the new directory is a concrete case that does not come back |
| ProviderRename.MovedBack | cmd/provider/rename.go:224-250 | moving the provider there and back touches only its own entry and directory |
| ProviderRename.ReturnedIffNothingLeft | cmd/provider/rename.go:224-250 | what a clean rollback leaves is the initial state if and only if no record is left, the stored name was right and the paths are clear |
| ProviderRename.UndoneLeaves | cmd/provider/rename.go:224-250 | undoing leaves exactly the torn record, and leaves the switched workspaces too if they are not switched back |
| ProviderRename.FoundOnlyElsewhere | pkg/workspace/provider.go:93-105 | once the provider has moved, a lookup of its old name finds nothing unless another directory gives that name |
| ProviderRename.SwitchedWorkspacesAreStranded | cmd/provider/rename.go:224-250 | if no other directory gives the old name, a rollback without failures of its own reports an error if and only if a workspace had been switched, and every switched workspace then names a provider that does not exist |
| ProviderRename.FirstOfTwoIsStranded | cmd/provider/rename.go:224-250 | a concrete state in which the second of two workspaces fails and the first is left naming the new provider |
| ProviderRename.StrayDirectoryIsFound | pkg/workspace/provider.go:306-320 | a concrete unconfigured directory with which the lookup of the rollback succeeds |
| ProviderRename.StrayWorkspaceStays | cmd/provider/rename.go:162-176 | a concrete state in which a clean rollback leaves a workspace naming the new provider |
| ProviderRename.RestoreProviderState | cmd/provider/rename.go:224-250 | a rollback that reports no error reverts default, workspaces, machines and the provider; each of these steps has its effect unless it failed itself, whatever happened to the others; without failures it reports none if and only if no workspace is recorded or the old name is found, and otherwise reverts everything but the workspaces; only what belongs to the provider differs |
| ProviderRename.RenameProvider | cmd/provider/rename.go:291-335 | on success each record and the default name the new provider exactly if they named the old one, and the entry, its options and its directory have moved; without a failing operation it succeeds unless a directory is missing or in the way; a rollback without failures of its own is clean if and only if no workspace had been switched or the old name is found elsewhere, its final state is given exactly in both cases, and it is the initial state if and only if the rollback is clean, nothing was torn and the paths are clear; in every outcome nothing else changes |
| ProviderRename.Run | cmd/provider/rename.go:41-70 | without a failing operation the command is refused if and only if the names, the configuration or the lookup forbid the rename; a refusal changes nothing |
| ProviderLocks.NamesAreSorted | cmd/provider/add.go:355-376 | every command locks its provider names in strictly increasing order, equal names once |
| ProviderLocks.NamesAreTouched | cmd/provider/add.go:355-376 | the locks of a command are exactly those of the providers it reads or writes, each once |
| ProviderLocks.ProgramIsOrdered | cmd/provider/rename.go:71-100 | every command acquires each lock after, in one fixed order, all the locks it then holds, and releases all of them |
| ProviderLocks.UpdatesAreProtected | cmd/provider/rename.go:71-100 | at every configuration update a command holds the locks of all the providers it reads or writes and no other |
| ProviderLocks.UpdatesAreMade | cmd/provider/rename.go:71-100 | a command takes the configuration lock as often as it updates |
| ProviderLocks.NextKeepsInv | cmd/provider/add.go:355-376 | every step of any number of concurrent commands, including giving up, keeps mutual exclusion and lock order |
| ProviderLocks.LastWaiter | cmd/provider/add.go:355-376 | among blocked commands one waits for a lock that is greatest in the order |
| ProviderLocks.InvMeansNoDeadlock | cmd/provider/add.go:355-376 | a state that satisfies the invariant is not deadlocked |
| ProviderLocks.NeverDeadlocked | cmd/provider/use.go:15-45 | in no reachable state of any number of add, rename, use and delete commands is every unfinished one blocked |
| ProviderLocks.Locker.LockProviders | cmd/provider/add.go:355-376 | success holds exactly the new provider and the one it copies from, in name order; it fails only if an acquisition fails, and then has released every lock acquired before it |
| ProviderLocks.Locker.LockAndReload | cmd/provider/rename.go:71-100 | success holds exactly both names, in order; a failed lock or reload holds nothing |
| Inactivity.Evaluate | cmd/internal/agent_daemon.go:693-753 | a workspace blocks shutdown if and only if it is not due; every blocking status has a reason, and every other one the deadline at a whole timeout after its last activity |
| Inactivity.StateMeans | cmd/internal/agent_daemon.go:693-753 | each state of a workspace has exactly its condition; a busy one gets twenty minutes more |
| Inactivity.EvaluateWorkspaces | cmd/internal/agent_daemon.go:642-656 | one status per listed workspace, in order |
| Inactivity.FirstWorkspaceBlocker | cmd/internal/agent_daemon.go:666-673 | the reason of the first blocking workspace, or none |
| Inactivity.LatestEligibleWorkspace | cmd/internal/agent_daemon.go:675-691 | the selected workspace has the latest deadline, and the smallest ID among those |
| Inactivity.BestIsLatest | cmd/internal/agent_daemon.go:675-691 | when all are due the best status has the latest of all deadlines |
| Inactivity.BestIsUnique | cmd/internal/agent_daemon.go:675-691 | the reported ID and deadline do not depend on the order of the configurations |
| Inactivity.EvaluateMachineInactivity | cmd/internal/agent_daemon.go:621-640 | a workspace is selected for shutdown if and only if there is one and all are due; the candidate has the latest deadline of all and the smallest ID among those; otherwise the first blocking workspace gives the reason |
| Inactivity.EligibilityPersists | cmd/internal/agent_daemon.go:743-752 | without new activity a due machine stays due at every later time and in every listing order, with the same candidate |
| MachineDaemon.ReplayAppends | cmd/internal/agent_daemon.go:388-435 | replaying an event log in two parts is replaying it at once |
| MachineDaemon.AnnouncedReports | cmd/internal/agent_daemon.go:388-417 | the reported events are exactly the newly present and the newly invalid workspaces |
| MachineDaemon.AnnouncedOnce | cmd/internal/agent_daemon.go:388-417 | with distinct workspace IDs no event is reported twice |
| MachineDaemon.Daemon.RecordWorkspaceTransitions | cmd/internal/agent_daemon.go:388-435 | replaying the log gives the known workspaces; configuration errors are reported exactly on entry to the invalid state since the last completed patrol |
| MachineDaemon.Daemon.PatrolOnce | cmd/internal/agent_daemon.go:331-386 | a failed patrol reports itself and changes nothing else; a completed one starts a shutdown if and only if every workspace is due, for the best candidate |
| MachineDaemon.Daemon.PatrolLogged | cmd/internal/agent_daemon.go:331-386 | a patrol logs its failure alone, or the changes, followed exactly when all are due by the shutdown of the workspace with the latest deadline and its true outcome |
| MachineDaemon.Daemon.InitialTouch | cmd/internal/agent_daemon.go:550-563 | every listed file that can be touched gets the current time, and nothing else changes |
| MachineDaemon.TouchLasts | cmd/internal/agent_daemon.go:550-563 | file times that never go back stay at or after the startup touch |
| MachineDaemon.NoEarlyShutdown | cmd/internal/agent_daemon.go:693-753 | in any course of patrols a shutdown comes no earlier than the startup touch plus the timeout of every touched workspace still present |
| MachineDaemon.Daemon.Patrol | cmd/internal/agent_daemon.go:221-241 | over a whole life of the daemon the log is the ready event and then the part of each patrol in order, it replays to the known set, shutdowns start exactly when all workspaces are due, and never early |
| WorkspaceImport.ListStagedEntries | cmd/workspace/import.go:394-410 | lists every staged path but the record, each directory before what it holds |
| WorkspaceImport.MergingStep | cmd/workspace/import.go:418-429 | one move extends the overlay and leaves the local record and unstaged paths alone |
| WorkspaceImport.MoveEntry | cmd/workspace/import.go:418-429 | one entry moves, or is blocked by a file in place of a directory or the reverse |
| WorkspaceImport.MergeStagedWorkspace | cmd/workspace/import.go:412-439 | at every operation the record is the local one unless everything else is in place; success is the local tree overridden by the stage; it fails only on an operation failure or a file and directory clash |
| WorkspaceImport.CommitStagedWorkspace | cmd/workspace/import.go:372-388 | a new workspace appears in one step or not at all; an existing one is merged |
| WorkspaceImport.ImportTwice | cmd/workspace/import.go:224-257 | the imported record belongs to the destination, and importing the same data again changes nothing |
| WorkspaceImport.ImportedIsOwned | cmd/workspace/import.go:224-257 | the same workspace keeps its labels and SSH config locations, another gets the acceptable labels and no locations; everything else of the record is the destination or the export |
| WorkspaceImport.CommitImportedWorkspace | cmd/workspace/import.go:183-207 | nothing changes before validation; unless an operation fails it succeeds if and only if a snapshot reference is usable, the ID is free or the workspace is the same, and no file and directory clash; success leaves every staged path and the record as the destination owns it, and failure the local record with staged or local paths |
| ValueStores.Values.DeleteSecret | pkg/secrets/store.go:83-85 | an ordinary error left the original state; an indeterminate one may have lost the entry or its value |
| ValueStores.LoadingSelects | pkg/config/config.go:295-321 | loading selects the context of the flag, the persisted default or "default", registers it in memory and keeps all others |
| ValueStores.FlagIsNotSavedIff | pkg/config/config.go:333-349 | saving what was loaded for a context flag keeps the persisted default if and only if the file has one or the flag is absent or "default" |
| SecretConversion.SecretRestoration | cmd/secrets/set_conversion.go:44-60 | finds the value to put back, or that the secret did not exist |
| SecretConversion.RestorationLosesNothing | cmd/secrets/set_conversion.go:36-40 | undoing the write while the plaintext remains loses nothing, and gives the original state when it succeeds |
| SecretConversion.SetSecretValue | cmd/secrets/set_conversion.go:17-42 | no intermediate state loses a value; success leaves only the new secret; an error after a restored secret leaves everything as before, and only a second failure prevents the restoration; the plaintext is never lost on failure; without a failure only a secret that lost its value stops it |
| BindingInvariants.CanonicalDenotes | cmd/secrets/bind.go:89-103 | a canonical binding denotes a name if and only if the reference is local and has that name |
| BindingInvariants.BindingEnvIsFine | cmd/env/bind.go:31-62 | a variable bound after the conflict and existence checks clashes with no secret binding |
| BindingInvariants.BindingSecretIsFine | cmd/secrets/bind.go:71-135 | a secret bound after the checks clashes with no variable |
| BindingInvariants.ValuesKeepFine | cmd/secrets/bind.go:71-135 | changing the value of one key keeps the bindings in order unless it takes the value of a bound name away |
| Bindings.AttachedLocalSecret | cmd/env/bind.go:135-151 | recognises exactly the canonical and the legacy bindings of a local secret |
| Bindings.EnvAttach | cmd/env/bind.go:31-90 | unless an operation fails it succeeds if and only if the variable has a value and no local secret is bound under its name; success appends it once to the variables that the context loads with, and changes nothing else; failure changes nothing |
| Bindings.SecretAttach | cmd/secrets/bind.go:71-135 | unless an operation fails it succeeds if and only if the reference parses, is verified and names no bound variable; success appends its canonical spelling once to the secrets that the context loads with, and changes nothing else; failure changes nothing; every bound name keeps its value if and only if the entry it binds still has one |
| Bindings.AttachedIsAppended | cmd/env/bind.go:52-59 | after saving, the same context loads with one binding more, and all else as before |
| Bindings.AttachedSecretIsValuedIff | cmd/secrets/bind.go:33-46 | attaching leaves every bound name with its value if and only if the entry of the secret still has its value |
| Bindings.HollowSecretCanBeAttached | cmd/secrets/bind.go:33-46 | a secret whose value an indeterminate deletion lost is a concrete one that can be bound without a value |
| Bindings.VerifySecretReference | cmd/secrets/bind.go:48-69 | unless resolution fails, a reference verifies if and only if it is external, or local with a catalog entry; a local source of another type never verifies |
| Bindings.EnvDetach | cmd/env/bind.go:104-133 | removes the first binding of the name and nothing else |
| Bindings.SecretDetach | cmd/secrets/bind.go:155-187 | removes the first canonical binding and nothing else |
| Bindings.UnboundIsRemoved | cmd/internal/managedvalue/delete.go:150-161 | after saving, the same context loads without the first binding of the name, and all else as before |
| Bindings.AssignmentsParse | cmd/env/set.go:77-91 | the value is all that follows the first equals sign, or the separate one, but not both |
| Bindings.EnvSet | cmd/env/set.go:42-75 | unless an operation fails the parsed value is stored if and only if no secret is bound under the name |
| Bindings.SecretSet | cmd/secrets/set.go:82-125 | unless an operation fails it succeeds if and only if the name is valid, not bound as a variable and convertible; no value is lost at any point |
| Bindings.RestoredUndoesRemovalIff | cmd/internal/managedvalue/delete.go:163-180 | putting a binding back restores the list if and only if it was bound once |
| Bindings.DeleteManaged | cmd/internal/managedvalue/delete.go:78-148 | without a failure the value is deleted after its binding; one failure keeps it with its binding unless the store lost track; only a second failure leaves it detached |
| Bindings.DeletesKeepFine | cmd/internal/managedvalue/delete.go:78-148 | if no other binding refers to the value, every state that its deletion passes through is in order |
| Bindings.TidyIsSole | cmd/internal/managedvalue/delete.go:150-161 | in a configuration as the commands write it, no other binding ever refers to the value |
| Bindings.DeletedIsBoundIff | cmd/internal/managedvalue/delete.go:150-161 | after a deletion every bound secret is in the catalog if and only if none of the remaining bindings refers to the name, whether or not one was spelled like it |
| Bindings.SpacedBindingDangles | cmd/internal/managedvalue/delete.go:150-161 | a binding with white space around the name, beside the plain one or alone, is a concrete one that is left dangling |
| Bindings.SecretDelete | cmd/secrets/delete.go:37-73 | unless an operation fails it removes the entry, if there is one, and the first binding spelled exactly like it; a single failure that loses nothing leaves it bound; success leaves every bound secret in the catalog if and only if no remaining binding refers to it |
| Bindings.EnvDelete | cmd/env/delete.go:32-65 | unless an operation fails it removes the variable, if it has a value, and its first binding; a single failure leaves it bound |
| Bindings.Execute | cmd/secrets/bind.go:71-135 | one command from a state in order leaves only such states, whatever fails; if nothing fails it has exactly its effect or is refused without any |
| Bindings.RunAll | cmd/secrets/bind.go:71-135 | over every sequence of commands and failures no durable state binds a name both ways, a variable without a value, or a secret that is not in the catalog; unless a command binds a secret whose value is lost, every bound secret has its value; and without failures every command has its effect or is refused |
| Transcripts.StripDistributes | cmd/workspace/setup_logs.go:764-772 | control characters can be removed before or after joining texts |
| Transcripts.StripOne | cmd/workspace/setup_logs.go:764-772 | of single characters exactly the controls other than newline and tab are removed |
| Transcripts.RenderAppends | cmd/workspace/setup_logs.go:690-716 | rendering text a and then b is rendering their concatenation, with the same line state |
| Transcripts.UnlabelRender | cmd/workspace/setup_logs.go:690-716 | removing the labels returns the rendered text |
| Transcripts.PlainWriter.WriteText | cmd/workspace/setup_logs.go:700-715 | the line-by-line loop writes exactly the rendering of the whole text |
| Transcripts.PlainWriter.WriteOutput | cmd/workspace/setup_logs.go:690-716 | a stream change or an elision starts a new line, then the text follows |
| Transcripts.PlainWriter.WritePage | cmd/workspace/setup_logs.go:671-688 | a page has the effect of its records in order |
| Transcripts.PageSplitInvisible | cmd/workspace/setup_logs.go:671-675 | where the history is cut into pages does not show |
| Transcripts.RecordSplitInvisible | cmd/workspace/setup_logs.go:690-716 | where one stream is cut into records does not show |
| Transcripts.RunPrintsAsOne | cmd/workspace/setup_logs.go:690-716 | any run of records of one stream prints like a single record |
| Transcripts.TranscriptRoundTrip | cmd/workspace/setup_logs.go:690-716 | removing the labels from the transcript of one stream gives its text without control characters |
| Transcripts.LabelsNameStreams | cmd/workspace/setup_logs.go:700-700 | the label of each stream |
| Transcripts.HookLineParts | cmd/workspace/setup_logs.go:741-762 | the parts of the line of a hook in their order, those without a value left out |
| Transcripts.FailedHookLine | cmd/workspace/setup_logs_test.go:289-289 | the line of a hook that failed with an exit code |
| Transcripts.HookEndsLine | cmd/workspace/setup_logs.go:681-688 | the line of a hook ends the open line of the output before it |
| Transcripts.ElisionPrints | cmd/workspace/setup_logs.go:696-699 | an elision says behind the label of its stream how many bytes are missing, on a line of its own |
| TranscriptLines.AddingText | cmd/workspace/setup_logs.go:700-715 | adding text to the lines is printing its rendering |
| TranscriptLines.AddingRecords | cmd/workspace/setup_logs.go:671-723 | the printed transcript and its lines stay in step over any records |
| TranscriptLines.EveryLineHasItsSource | cmd/workspace/setup_logs.go:671-723 | the transcript is a sequence of lines; each line of output is one physical line behind the label of its own stream, per stream the lines carry exactly what its records show, and the hook lines are the invocations in order |
| TranscriptLines.StreamShowsItsText | cmd/workspace/setup_logs.go:690-716 | without elisions a stream shows its text without control characters |
| TranscriptLines.SplitsIntoLinesIff | cmd/workspace/setup_logs.go:671-762 | splitting the transcript at its newlines gives these very lines if and only if no invocation prints a newline |
| TranscriptLines.NewlineInHookKey | cmd/workspace/setup_logs.go:741-762 | any hook key that holds a newline, in a record that is valid otherwise, breaks its line in two |
| LogTailers.LinesRebuild | cmd/workspace/task_tail.go:71-82 | lines and pending bytes rebuild the stream, and neither holds a newline |
| LogTailers.LinesOfAppend | cmd/workspace/task_tail.go:71-82 | splitting can resume from the pending bytes alone |
| LogTailers.AllLinesJoin | cmd/workspace/task_tail.go:58-69 | the lines of a finished stream, with the cut-off last one, are the whole stream |
| LogTailers.LogTailer.Emit | cmd/workspace/task_tail.go:71-82 | each line that the chunk completes goes to exactly one destination, in order, and the rest is kept |
| LogTailers.LogTailer.Poll | cmd/workspace/task_tail.go:32-54 | for every way the bytes are cut into reads and polls, what was routed is the newline split of what was read, each line by what it is recognised as; it stops short only for a missing file or a failed read |
| LogTailers.LogTailer.Flush | cmd/workspace/task_tail.go:58-69 | every line of the stream, the cut-off last one included, has then gone where it belongs exactly once; a second flush routes nothing |
| BoundedBuffers.TailAfterWrite | cmd/mcp/buffer.go:22-36 | each of the three ways a write keeps bytes keeps the tail of the whole stream |
| BoundedBuffers.BoundedBuffer.Write | cmd/mcp/buffer.go:22-36 | the buffer holds the last min(capacity, total) bytes of everything written |
| BoundedBuffers.BoundedBuffer.Truncated | cmd/mcp/buffer.go:39 | true if and only if more than the capacity was written |
| BoundedBuffers.BoundedBuffer.String | cmd/mcp/buffer.go:46-51 | shows the tail behind a count of exactly the dropped bytes |
| BoundedBuffers.DroppedAreCounted | cmd/mcp/buffer.go:46-51 | the note holds the decimal digits of the number of dropped bytes, and the last bytes follow |
| Basics.DecimalDenotes | cmd/mcp/buffer.go:46-51 | printing a number gives the digits that denote it, without leading zeros |
| BoundedBuffers.WriteAll | cmd/mcp/buffer.go:22-51 | the result depends only on the concatenation of the writes |
| BoundedBuffers.ChunksDoNotMatter | cmd/mcp/buffer.go:22-36 | keeping the tail after every write is keeping the tail of the whole |
| GpgTunnels.NoticesAreSeparated | cmd/workspace/gpg_tunnel.go:127-162 | two failure notices always have a live tunnel between them |
| GpgTunnels.GpgTunnel.BindReverseForwards | cmd/workspace/port_forward.go:279-308 | one new listener for each mapping, or no listener left open |
| GpgTunnels.GpgTunnel.StartReverseForwards | cmd/workspace/port_forward.go:219-259 | a started loop owns the first of the new listeners; a failure starts and opens nothing |
| GpgTunnels.GpgTunnel.ReconcileForward | cmd/workspace/gpg_tunnel.go:376-391 | an exited loop is forgotten, a running one is kept |
| GpgTunnels.GpgTunnel.EnsureForwardBound | cmd/workspace/gpg_tunnel.go:345-374 | a running owned loop is kept; otherwise one is started for the agent socket, together with the user mappings until they have been bound once |
| GpgTunnels.GpgTunnel.EnsureTunnel | cmd/workspace/gpg_tunnel.go:127-162 | the result is live exactly if the tunnel ran before, its setup succeeded, or another terminal has it running; a failure is announced exactly when none has been since the tunnel was live and the session goes on |
| GpgTunnels.GpgTunnel.SignalReadyOnce | cmd/workspace/gpg_tunnel.go:395-429 | does nothing once readiness has been signalled, and otherwise signals it unless the write fails |
| GpgTunnels.GpgTunnel.StopForward | cmd/workspace/gpg_tunnel.go:459-470 | no managed loop is left running without having been cancelled |
| GpgTunnels.GpgTunnel.RunTunnel | cmd/workspace/gpg_tunnel.go:105-125 | over a whole session with any failures and loop exits: notices are separated, the ready byte and the user mappings at most once, at most one managed loop owned, none left at the end; without failures every check finds the tunnel live, readiness is signalled and nothing is announced; a disabled tunnel does nothing |

## Left out

- Blobs of secret backends below the catalog: a failed write or restore can leave a value behind that no catalog entry names. The models see catalog entries only.
- Intent file details: name and size validation, path checks and the store roots it records. An intent removed but not yet synced when the machine loses power may reappear; the model lets a successful clear be durable.
- The digest of a context's configuration is modelled by the configuration itself, so hash collisions are not captured.
- Migration of legacy environment entries out of the secret catalog, and catalog entries that are not sensitive.
- `ContextRuns.NoIntentMeansAllOrNothing`: other commands are admitted only without a pending intent, and what they do is arbitrary.
- `ProviderRename.Stores.SwitchProvider`: listing, locking and stopping the workspace are an arbitrary failure. Its presentation merge on save is not modelled.
- `ProviderRename.Stores.FindProvider`: every provider directory holds a `provider.json`; one that cannot be loaded is a failed operation. Looking up the initialization state is left out.
- `ProviderRename.Run`: whether a provider belongs to the platform is an input, and other programs do not change the configuration meanwhile.
- `ProviderRename.Stores.MoveProvider`: of provider.json only the name is modelled, and a directory is renamed at once.
- Workspace, machine and presentation locks outside the provider locks; time limits of lock acquisition are the arbitrary failure of an acquisition.
- `MachineDaemon.Daemon.Patrol`: patrols read the clock once; the snapshot file and its fields other than the last patrol, last success and last error are not modelled. The course of file times is a condition of the safety statement, not of the daemon.
- Names that a path suggests for an unreadable workspace, and the parsing of durations: both are inputs of the model.
- `WorkspaceImport.ListStagedEntries`: the walk may list siblings in any order, and extraction and removal of the stage are not modelled. What a snapshot reference composes and the validation of labels and IDs are inputs.
- `Bindings.SecretAttach`: whether an external source resolves is arbitrary.
- `Bindings.RunAll`: a deletion error that does not report an indeterminate state left the value in place, as the store documents.
- `Transcripts.PlainWriter.WriteOutput`: text is a sequence of characters, so a rune split between records is not captured. The closing availability notices are not modelled.
- `LogTailers.LogTailer.Poll`: bytes are characters, and the recognition of status lines and log envelopes is any predicate on a line.
- `BoundedBuffers.BoundedBuffer.Write`: the byte count is unbounded; the wrap-around of a 64-bit counter is not captured.
- `GpgTunnels.GpgTunnel.RunTunnel`: sockets, remote commands and the text of notices are arbitrary outcomes; loops exit between the steps of the health check, not within one.
- Rendering, prompts, flags, remote commands, container and cluster calls, and the platform installer.
