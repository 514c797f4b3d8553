# Verified model of Heniek's protocols

Heniek drives coding agents over several repositories. This project models the parts of it
whose correctness depends on many steps going together: a file lock shared by processes, a
journal that survives being cut off, forge operations whose replies get lost, stage attempts
that are cancelled while they work, canonical JSON text and JSON Pointers, a dependency
search, a streaming decoder, a matching, a secret store and an evidence cache. Every theorem
is about all inputs or all runs of the model.

`dafny verify dfyconfig.toml` checks everything.

## How the model is laid out

| file | what it models |
|---|---|
| `OperationLock`, `OperationLockProgress`, `OperationLockFailures` | the operation lock of the runtime manager, as interleaved filesystem steps of any number of callers with crashes, what an undisturbed caller obtains, and the interleavings that break it |
| `ActivationJournal` | activation, upgrade, adoption and rollback of a runtime: attestations, activation records and the descriptor, cut off at any filesystem boundary |
| `RuntimeInstall` | staging and publishing an installed version, cut off at any filesystem boundary |
| `RuntimeManager` | the calls of the runtime manager on both: what is published and what the descriptor names |
| `ForgeServer`, `CreateOrAdopt`, `BodyMarker`, `IssueForge`, `PullRequestForge` | create-or-adopt against a server that may lose requests and replies, and the body marker that is its key |
| `IssueUpdate` | updating issues, and what creating and updating together keep |
| `ForgeSnapshots` | the texts behind observed versions and linkage digests |
| `BranchRefs` | creating and moving a branch by compare-and-set among other writers |
| `PullRequestUpdate` | the two-step update of a pull request with retries |
| `Integration` | the integration attempt, its worker interleaved with cancel, deadline and other ref writers |
| `Completion`, `CommandRunner`, `ApprovalRunner` | the completion check, command attempts and approval attempts under any call sequence |
| `Texts`, `JsonText`, `CanonicalJson`, `JsonGrammar`, `ObjectGraph` | code-unit order and sorting, JSON scalars, the two canonical printers, the grammar their texts follow, and the walk over an object graph with its ancestor set |
| `JsonPointer` | escaping, joining, splitting and resolving JSON Pointers |
| `SetupGraph` | the setup-dependency diagnostics |
| `IndexDecoder` | the chunked NUL-record decoder and its two limits |
| `Detection` | recognising a registered codebase |
| `SecretStore` | the file store of secrets against the in-memory store |
| `CapabilityCache` | the capability catalogue and the selection check |

Operations that change files, server state or attempt fields are classes with methods. A
sequence of method calls is a run; the `Run`, `Retry` and `Lockstep` methods state what holds
of every such sequence. Concurrency is modelled by making each method, or each `Step`, what
happens between two points where others can come in.

## Where the code falls short of what it is for

Each of these has a concrete run or input and an exact condition.

- The lock: a reclaim judges an empty lock file stale, so a caller that is between creating
  and writing its lock can lose it to a reclaimer (`TornCreateBreaksExclusion`), and a rename
  that moves another file than the one read opens a gap before the link-back
  (`MisaimedClaimBreaksExclusion`). `ExclusionBrokenExactly` says which steps do harm:
  reclaim renames executed while some live caller is engaged, and no others.
  `SecondHolderExactly` says which step then lets a second caller in.
- A release unlinks whatever stands at the lock path once it has read its own token there; if
  that file was moved and another linked back in between, a live owner's record loses its
  last name (`MisaimedReleaseDeletesRecord`). Keeping the record needs the aimed release as a
  premise, besides creation and write being one step; `RecordLostExactly` says which releases
  do harm, and no other step does.
- An activation whose directory sync fails reports a failure and is active all the same
  (`FailedYetActive`); the contract of `Promote` gives the exact condition. The same holds
  for an installed version (`RefusedYetInstalled`), with the exact condition in `Install`.
- A retry of an issue or pull request whose body ends in a marker, or of an issue with a
  repeated label, is refused as a conflict with what the first call created
  (`MarkedBodyConflicts` of both kinds, `RepeatedLabelConflicts`); `RetryIssue` and
  `RetryPullRequest` give the exact conditions.
- An update of an issue that is not linked, with a text that ends in a marker, makes a second
  carrier of that digest (`UpdateCanForge`); `SecondCarrierExactly` gives the exact condition.
- Auto-merge requested for what stays a draft never succeeds, after the draft flag may already
  have been changed (`DraftIsNeverMerged`); `PullRequestUpdate.Server.Retry` gives the exact
  condition.
- Two requirements that list words can be reported under one key (`KeysCollide`);
  `KeySharedExactly` gives the exact condition.
- A command stage that requires anything but a result envelope never succeeds, since
  collecting adds no other evidence that a requirement can ask for; `CommandRunner.SuccessExactly`
  gives the exact condition and `CommandNeverProves` a run.
- An integration whose swap took effect and then threw leaves no result for the write it made
  (`MovedWithoutResult`); by `Integration.Run` a finished attempt that wrote lacks its result
  exactly after such a swap.

## Model

| member | source | states |
|---|---|---|
| OperationLock.MutualExclusion | packages/runtime-claudexor/src/manager.ts:492-595 | In every interleaving of any number of callers with crashes, in which each reclaim rename moves the text it read and no file still being written, at most one live caller is between creating the lock and giving it up, and its own file is at the lock path |
| OperationLock.ExclusionBrokenExactly | packages/runtime-claudexor/src/manager.ts:510-537 | The next step takes a live owner's file off the lock path if and only if it is a reclaim rename while some live caller is engaged |
| OperationLock.SecondHolderExactly | packages/runtime-claudexor/src/manager.ts:539-552 | While at most one live caller is engaged, the next step engages a second one if and only if it opens the lock path, finds it free, and another live caller is engaged |
| OperationLock.SoundClaimMovesNobody | packages/runtime-claudexor/src/manager.ts:515-520 | A reclaim that meets its premises never moves the file of a live engaged caller |
| OperationLock.ExclusiveStep | packages/runtime-claudexor/src/manager.ts:539-590 | Every step of the protocol that meets the premises keeps each engaged caller's file at the lock path |
| OperationLock.BookStep | packages/runtime-claudexor/src/manager.ts:539-562 | Every step at all keeps: one creator per file, unique tokens and stale names, and what each stage implies about the file's text |
| OperationLock.RecordNeverDeleted | packages/runtime-claudexor/src/manager.ts:510-537 | Even when renames move the wrong files, the complete record of a live owner keeps a name, the lock path or a stale one, in every interleaving without half-written files and with releases that unlink what they read |
| OperationLock.RecordLostExactly | packages/runtime-claudexor/src/manager.ts:554-562 | The next step leaves a live owner's file without a name to keep if and only if a release unlinks the lock path while that is the only such name of another live owner's file |
| OperationLock.KeptStep | packages/runtime-claudexor/src/manager.ts:521-536 | Each step keeps every owner's record named outside of what a claimant is about to unlink |
| OperationLock.GivesUpAfterThree | packages/runtime-claudexor/src/manager.ts:539-595 | In every interleaving a caller gives up only on finding the lock in the hands of a live process, and has then tried exactly three times |
| OperationLock.TriesBounded | packages/runtime-claudexor/src/manager.ts:539-595 | In every interleaving no caller tries for the lock more than three times before it holds it or gives up |
| OperationLockProgress.Obtains | packages/runtime-claudexor/src/manager.ts:539-553 | From every reachable state, a live caller that nobody disturbs obtains a lock that is free, or blank, unreadable or of a dead process, as long as it has the tries this takes: it ends holding, with its own complete record at the lock path, and all others and their files are as they were |
| OperationLockProgress.ObtainsExactly | packages/runtime-claudexor/src/manager.ts:539-590 | An undisturbed caller that has just begun can come to hold the lock if and only if the lock is free or stale |
| OperationLockProgress.GivesUp | packages/runtime-claudexor/src/manager.ts:574-590 | From every reachable state with a live owner's record at the lock path, an undisturbed caller gives up and has changed nothing |
| OperationLockProgress.UnlinkFrees | packages/runtime-claudexor/src/manager.ts:554-562 | In every run, the unlink of a release leaves no file at the lock path and changes nothing else |
| OperationLockProgress.ReleaseFrees | packages/runtime-claudexor/src/manager.ts:554-562 | After every sound interleaving a holder has its own record at the lock path, and its undisturbed release leaves the lock path free |
| OperationLockProgress.HandsOver | packages/runtime-claudexor/src/manager.ts:539-562 | After every sound interleaving the holder can release and another waiting caller can then obtain the lock |
| OperationLockProgress.FailedWriteFrees | packages/runtime-claudexor/src/manager.ts:563-572 | A caller that fails once its record is written removes it again and leaves the lock path free |
| OperationLockProgress.FailedCreateLeavesStale | packages/runtime-claudexor/src/manager.ts:563-577 | A caller that fails before it has written leaves an empty file behind, which counts as stale |
| OperationLockFailures.TornCreateBreaksExclusion | packages/runtime-claudexor/src/manager.ts:544-549 | An interleaving with two live holders when creation and write are two steps |
| OperationLockFailures.MisaimedClaimBreaksExclusion | packages/runtime-claudexor/src/manager.ts:522-533 | An interleaving with two live holders when a reclaim rename moves another complete record than the one read |
| OperationLockFailures.MisaimedReleaseDeletesRecord | packages/runtime-claudexor/src/manager.ts:554-562 | An interleaving in which a release and a claimant's own unlink leave a live owner's record without a name |
| ActivationJournal.RunSound | packages/runtime-claudexor/src/manager.ts:852-947 | After any series of promotions and rollbacks, each cut off between any two writes, the descriptor is readable and everything it names is attested by a stored passing report for exactly that identity and journalled by an activation record |
| ActivationJournal.Serve | packages/runtime-claudexor/src/manager.ts:852-1092 | The disks that any series of calls on the manager goes through, each call stopped anywhere, form such a run, so each of them is sound; each call changes the descriptor, to the requested one, exactly if its checks hold on the disk of the moment and nothing stops it up to the rename, and succeeds exactly if moreover the directory sync goes through, with its whole plan on disk |
| ActivationJournal.HistoryKept | packages/runtime-claudexor/src/manager.ts:858-902 | What any earlier descriptor rested on, its reports and its activation record, is still on disk at every later moment |
| ActivationJournal.OldOrNew | packages/runtime-claudexor/src/manager.ts:298-329 | Wherever an operation is cut off, the descriptor is the old one until the last write and exactly the new one after it, and the disk is sound |
| ActivationJournal.RecordPrecedesCommit | packages/runtime-claudexor/src/manager.ts:875-921 | The matching activation record is complete on disk while the old descriptor still stands |
| ActivationJournal.OperationKeeps | packages/runtime-claudexor/src/manager.ts:852-937 | Every operation, complete or cut off, keeps soundness and every whole report and record |
| ActivationJournal.ReadyBeforeRename | packages/runtime-claudexor/src/manager.ts:858-909 | Before the rename both identities of the new descriptor are attested, its record is whole and only additions have been made |
| ActivationJournal.PassesReport | packages/runtime-claudexor/src/manager.ts:628-677 | The check by a table from name to status accepts exactly the reports for that identity in which the last entry of each of the fourteen required checks passed |
| ActivationJournal.NewerExactly | packages/runtime-claudexor/src/manager.ts:990-999 | Versions are ordered by major, then minor, then patch number, and the comparison agrees |
| ActivationJournal.SafeIdExactly | packages/runtime-claudexor/src/manager.ts:41 | An identifier is one or more letters, digits, dots, underscores and hyphens, and so holds no slash |
| ActivationJournal.Directory.WriteNewJson | packages/runtime-claudexor/src/manager.ts:277-296 | A new file is absent, torn or whole depending on which boundary stopped it; success exactly if the name was free and nothing stopped it; an existing file is never touched |
| ActivationJournal.Manager.WriteDescriptor | packages/runtime-claudexor/src/manager.ts:298-329 | The descriptor changes exactly if every step up to the rename went through; a temporary file stays only when the process died |
| ActivationJournal.Manager.Commit | packages/runtime-claudexor/src/manager.ts:875-928 | Record, then descriptor: the disk is a prefix of the planned writes, with the exact condition for a change of the descriptor and for success |
| ActivationJournal.Manager.Promote | packages/runtime-claudexor/src/manager.ts:852-947 | The result is one cut-off operation; the descriptor changes exactly under the stated condition on the inputs, and then names the identity, what was current before, and their reports; the call succeeds exactly if moreover the last directory sync went through, with the record of this action, time, identities and report on disk; it fails for integrity exactly if the file was touched or the running entry reports another version or build; an existing report is accepted only if it is the same, and a torn one is unreadable |
| ActivationJournal.Manager.RollBack | packages/runtime-claudexor/src/manager.ts:1013-1092 | The descriptor is swapped, field by field, exactly under the stated condition, with a record that says it was a rollback; on a sound disk a rollback is never refused for its report, and for want of a target only when there is no previous |
| ActivationJournal.Manager.RollBackTwice | packages/runtime-claudexor/src/manager.ts:1013-1092 | Two successful rollbacks restore the descriptor exactly, and after one the second is not refused for want of a target or a report |
| ActivationJournal.FailedYetActive | packages/runtime-claudexor/src/manager.ts:320-328 | A concrete first activation that commits although its directory sync fails |
| RuntimeInstall.Installer.Install | packages/runtime-claudexor/src/manager.ts:679-834 | A version is published once, whole, exactly under the stated condition, and never touched again; what is published and what success names has the version, its path, the build and archive hashes of the manifest and the digest of the unpacked entry; once everything is staged the answer is determined; the version is new and the call has not succeeded exactly if only the last directory sync was stopped; staging is left clean unless the process died |
| RuntimeInstall.RefusedYetInstalled | packages/runtime-claudexor/src/manager.ts:799-833 | A concrete installation that is refused because its last directory sync failed, and is installed all the same |
| RuntimeInstall.Installer.Publish | packages/runtime-claudexor/src/manager.ts:799-829 | The rename publishes exactly the staged directory or leaves the existing version alone |
| RuntimeInstall.Installer.Stage | packages/runtime-claudexor/src/manager.ts:741-798 | The staging directory is a whole installation exactly if no boundary stopped it and the archive had a regular daemon entry |
| RuntimeInstall.Installer.CompareExisting | packages/runtime-claudexor/src/manager.ts:804-822 | Reinstalling succeeds exactly if the recorded identity is the same and is a conflict otherwise |
| RuntimeInstall.Installer.CleanStaging | packages/runtime-claudexor/src/manager.ts:483-490 | Cut off after any number of removals in any order: nothing but directories named by a staging identifier is gone, what remains is unchanged, it tells whether any is left, and one removal is enough when there is at most one |
| RuntimeInstall.RunInstalls | packages/runtime-claudexor/src/manager.ts:679-834 | In any series of cut-off installations every version is whole and none is ever replaced, a version appears exactly when a request gets as far as its rename, with the identity its manifest and archive give it, every answer is the determined one, at most the last attempt's leftovers remain, and so a single removal always lets the next installation start |
| RuntimeManager.Run | packages/runtime-claudexor/src/manager.ts:978-1126 | In any series of installations, activations, upgrades, adoptions and rollbacks, each cut off anywhere, at every moment all that the descriptor names is attested and journalled and, unless adopted, is a published whole version with exactly its record and its entry file; no version is ever replaced; and each call does to versions and descriptor what it should |
| RuntimeManager.Manager.Upgrade | packages/runtime-claudexor/src/manager.ts:990-1011 | Only for a version newer than the active one, if there is one, is anything installed, and what was installed is then promoted: the descriptor changes exactly if the installation succeeds and the promotion gets as far as its rename, and what is newly active is the published version |
| RuntimeManager.Manager.Activate | packages/runtime-claudexor/src/manager.ts:982-988 | A version without record is refused; the recorded one is promoted, and its installed entry file is always found whole unless someone else touched it |
| RuntimeManager.InstallThenActivate | packages/runtime-claudexor/src/manager.ts:618-626 | What was installed passes the identity check of its activation exactly if the running entry reports that version and the build of the manifest, and nobody touched the entry file |
| RuntimeManager.Manager.RollBack | packages/runtime-claudexor/src/manager.ts:1013-1092 | A rollback never fails for want of the files it returns to, since what was active before is still published, unless someone else touched them |
| RuntimeManager.NamesPublished | packages/runtime-claudexor/src/manager.ts:901-907 | After any call the descriptor names what it named before or what the promotion asked for, so what is published stays what is named |
| BodyMarker.RoundTrip | packages/forge-github/src/backend.ts:116-124 | A posted body reads back as the cleaned body and the same digest, for every body, kind and digest |
| BodyMarker.CleanExactly | packages/forge-github/src/backend.ts:120-124 | A linkage is found exactly when the body ends in a marker, and only then does cleaning drop more than trailing space |
| BodyMarker.MarkedUnique | packages/forge-github/src/backend.ts:38 | A text has at most one trailing marker |
| BodyMarker.ExecFinds | packages/forge-github/src/backend.ts:38 | The leftmost match of the pattern is the trailing marker, together with the two line feeds before it when they are there |
| BodyMarker.Replaced | packages/forge-github/src/backend.ts:116-118 | Marking a marked body replaces the marker |
| BodyMarker.MarkerText | packages/forge-github/src/backend.ts:38 | The marker in full, for issues and for pull requests |
| CreateOrAdopt.Server.List | packages/forge-github/src/backend.ts:223-248 | The paged listing returns all entries, and a malformed-response error exactly beyond ten thousand |
| CreateOrAdopt.Server.Adopt | packages/forge-github/src/backend.ts:456-495 | A lookup answers none, the only carrier if it fits, or a conflict |
| CreateOrAdopt.Server.Create | packages/forge-github/src/backend.ts:507-536 | The entry is added exactly if the request was applied; every outcome of a call that found nothing is determined, and success names that entry |
| CreateOrAdopt.Server.CreateOrAdopt | packages/forge-github/src/backend.ts:497-537 | At most one entry is added and only if none carried the key; every success names the only carrier |
| CreateOrAdopt.Server.Retry | packages/forge-github/src/backend.ts:497-537 | Over any number of lossy retries at most one entry is added, every success names it, and after an applied create each answered call adopts it or reports a conflict as its comparison says |
| IssueUpdate.AtMostOneIssue | packages/forge-github/src/backend.ts:475-592 | In every history of create calls, of updates whose text forges no marker, and of other writers that write no marker, at every moment at most one issue carries any one digest |
| IssueUpdate.LinkageKeptExactly | packages/forge-github/src/backend.ts:558-568 | An update keeps the linkage of an issue exactly unless the issue was not linked and the new text ends in a marker |
| IssueUpdate.SecondCarrierExactly | packages/forge-github/src/backend.ts:558-568 | An applied update makes two issues carry one digest exactly if it gives an issue that was not linked a text that ends in a marker with the digest of another issue |
| IssueUpdate.DesiredExactly | packages/forge-github/src/backend.ts:545-549 | An applied update is recognised as done exactly if its text ends in no marker and it repeats no label |
| IssueUpdate.UpdateIssue | packages/forge-github/src/backend.ts:539-592 | Only the issue in question changes, and only if it is what the caller saw and its title, cleaned body, state or set of labels differs from what is asked for; it then shows exactly what was asked for and keeps its linkage; it is reported unchanged exactly if nothing differs; success means it is as wanted; an answered call has a determined outcome |
| IssueUpdate.RetryUpdate | packages/forge-github/src/backend.ts:539-592 | Over any number of lossy retries the issue is the original or the patched one, and an answered call succeeds exactly for plain patches or when there was nothing to do |
| IssueUpdate.UpdateCanForge | packages/forge-github/src/backend.ts:563-566 | An update that makes a second carrier of a digest |
| ForgeSnapshots.VersionsDecide | packages/forge-github/src/backend.ts:341-373 | Two pull requests have the same version text exactly if nothing that is observed of them differs |
| ForgeSnapshots.LinkageDecides | packages/forge-github/src/backend.ts:126-128 | Different kinds or idempotency keys never share a linkage text |
| IssueForge.MatchesExactly | packages/forge-github/src/backend.ts:392-403 | A created issue passes the comparison of its own request exactly if the body ends in no marker and no label is repeated |
| IssueForge.MatchesMeans | packages/forge-github/src/backend.ts:392-403 | A linked issue passes the comparison exactly if its title and cleaned body are the requested ones, no label was requested twice, and its labels are the requested set |
| IssueForge.LabelsEqualExactly | packages/forge-github/src/backend.ts:388-390 | The label comparison of a list with itself succeeds exactly if it has no repeats |
| IssueForge.SameLabelsExactly | packages/forge-github/src/backend.ts:388-390 | The label comparison succeeds exactly if both are the same set and none was requested twice |
| IssueForge.CreateOrAdoptIssue | packages/forge-github/src/backend.ts:497-537 | The call adds at most the posted issue, open, with the requested title, labels and linked body; the only carrier is adopted if its title, cleaned body and set of labels are the requested ones, and is a conflict otherwise; pull requests are never taken for issues; every success names the only carrier |
| IssueForge.RetryIssue | packages/forge-github/src/backend.ts:497-537 | After an applied create every answered retry returns that issue, exactly for bodies without trailing marker and labels without repeats; otherwise it is a conflict |
| IssueForge.MarkedBodyConflicts | packages/forge-github/src/backend.ts:392-403 | The issue created for a body that ends in a marker is refused on every later lookup |
| IssueForge.RepeatedLabelConflicts | packages/forge-github/src/backend.ts:388-403 | The issue created for a request with a repeated label is refused on every later lookup |
| PullRequestForge.MatchesExactly | packages/forge-github/src/backend.ts:405-420 | A created pull request passes the comparison of its own request exactly if the body ends in no marker |
| PullRequestForge.CreateOrAdoptPullRequest | packages/forge-github/src/backend.ts:797-867 | Nothing is added unless the source branch is at the expected head; what is added has that head, the requested title and linked body, and is a draft unless asked otherwise; the only carrier is adopted if head, draft flag, title and cleaned body are the requested ones, and is a conflict otherwise; every success names the only carrier |
| PullRequestForge.RetryPullRequest | packages/forge-github/src/backend.ts:821-867 | After an applied create every answered retry adopts that pull request exactly if its body ends in no marker |
| PullRequestForge.MarkedBodyConflicts | packages/forge-github/src/backend.ts:405-420 | The pull request created for a body that ends in a marker is refused on every later lookup |
| BranchRefs.Branch.CreateOrAdopt | packages/forge-github/src/backend.ts:679-710 | Whatever others do, the call writes exactly if it read no branch and there still was none when its write arrived; the head is then the target or what others made of it, and otherwise where others had it; success means the target was the last head seen; alone and answered, the outcome is determined |
| BranchRefs.Branch.Update | packages/forge-github/src/backend.ts:712-747 | Whatever others do, the call writes exactly if it read the expected head and that still stood when its write arrived; the head is then the target or what others made of it, and otherwise where others had it; success means the target was the last head seen; alone and answered, the outcome is determined |
| BranchRefs.Branch.RetryUpdate | packages/forge-github/src/backend.ts:712-747 | Over any run among other writers each call replaces the expected head by the target or leaves the head to the others, and a success leaves the target; without other writers the head moves at most once, from the expected head to the target, and answered calls succeed exactly at one of the two |
| BranchRefs.Branch.RetryCreate | packages/forge-github/src/backend.ts:679-710 | Over any run among other writers each call fills an absent head with the target or leaves the head to the others; without other writers an existing branch is never moved, and answered calls succeed exactly without a branch or with one at the target |
| BranchRefs.Branch.WriteAndObserve | packages/forge-github/src/backend.ts:694-709 | The write takes effect exactly if it arrives and finds the given head; the head is then the new one, or the one found, or what others make of that before the last read; success means the new head was seen |
| BranchRefs.Branch.MutateRef | packages/forge-github/src/backend.ts:654-677 | The compare-and-set takes effect exactly if it arrives and the head is the one given |
| PullRequestUpdate.Server.Update | packages/forge-github/src/backend.ts:884-965 | With other writers before every request: the draft flag is set exactly if the checks hold of what the call saw, it was not as wanted and the request arrives; auto-merge exactly if the draft step went through, what was last seen still needs it and is no draft where it is switched on, and the request arrives, at the expected head where it is switched on; each change is recorded with the pull request it was made on, and where the call leaves the pull request and when it succeeds is determined; unless a flag already matched, only the very pull request whose version the caller sent passes the checks; success means both flags are as wanted; alone, an answered call fails exactly on a failed check or on auto-merge for a draft |
| PullRequestUpdate.Server.RetryAmongOthers | packages/forge-github/src/backend.ts:884-965 | Over any number of calls among other writers each one leaves the pull request and succeeds as determined, a success shows both flags as wanted, and all that this client ever set is what was asked for, auto-merge being switched on only at the expected head |
| PullRequestUpdate.Server.Check | packages/forge-github/src/backend.ts:887-908 | The checks let a call go on exactly if the pull request is open at the expected head and has the expected version or one flag as wanted |
| PullRequestUpdate.Server.Mutate | packages/forge-github/src/backend.ts:910-955 | The mutations that are needed are made in order, draft first, then a new read, each at most once and on the pull request that others left; auto-merge is not asked for on what was last seen as a draft |
| PullRequestUpdate.Server.Retry | packages/forge-github/src/backend.ts:884-965 | Over all retries with the original version each flag changes at most once, the pull request is always on the way to what was asked, and an answered call succeeds exactly unless auto-merge is asked for on a draft |
| PullRequestUpdate.DraftIsNeverMerged | packages/forge-github/src/backend.ts:910-955 | A pull request to be made a draft and merged automatically: every answered retry is a conflict, and the draft flag has been set |
| Integration.Run | packages/runner/src/integration.ts:83-266 | In every interleaving with cancel, deadline and other writers the attempt goes as the replay of the events: at most one write, by a swap from the expected target to the candidate of the awaited merge prepared before any cancel or deadline, and the target is otherwise where others left it; the result and the answer to the last finalising are exactly those the events decide; a finished attempt lacks a result for its write exactly if that swap threw after taking effect |
| Integration.AtMostOneWrite | packages/runner/src/integration.ts:172-234 | Without a write of the attempt the target is where others left it; otherwise the one write is a swap that found the expected target, of the candidate that answered the merge the worker waited for, before any cancel or deadline |
| Integration.ResultsAreTrue | packages/runner/src/integration.ts:229-266 | A stored result says exactly whether the target was moved; success means a write, or that the merge the worker waited for was already applied, and a finalising with no cancel before it |
| Integration.VerdictExactly | packages/runner/src/integration.ts:83-266 | In every interleaving the worker has ended, and with which result, exactly as the awaited answers decide: stale source, stale target, conflict, already applied with its SHA, integrated with the candidate, an external fault for a failed read or a cancel or deadline before the check, and none after a throw |
| Integration.OutcomeExactly | packages/runner/src/integration.ts:480-559 | In every interleaving the last finalising succeeds exactly if the completion is valid, the result so far is integrated or already applied, and neither a cancel nor a deadline without result came before; it is cancelled exactly if one did |
| Integration.MovedWithoutResult | packages/runner/src/integration.ts:229-265 | A run whose swap throws after taking effect: the target has moved and no result says so |
| Integration.Attempt.OnTargetRead | packages/runner/src/integration.ts:105-170 | The merge is prepared exactly if both refs are as expected and no cancel was seen; otherwise the result says which of these failed first |
| Integration.Attempt.OnMergePrepared | packages/runner/src/integration.ts:172-227 | The swap is attempted exactly for a candidate without cancel; an applied merge is reported with its SHA, a conflict as one, and a throw ends the worker without result |
| Integration.Attempt.OnSwap | packages/runner/src/integration.ts:229-234 | The target changes exactly if it is still the expected one, and then to the candidate |
| Integration.Attempt.OnSwapReturns | packages/runner/src/integration.ts:236-265 | The stored result tells the reply of the swap: integrated at the candidate, stale target, or none if it threw |
| Integration.Attempt.OnDeadline | packages/runner/src/integration.ts:407-418 | A deadline marks the attempt as timed out and cancels it exactly if there is no result yet |
| Integration.Attempt.DoFinalize | packages/runner/src/integration.ts:480-559 | Success exactly for a successful result without cancel and timeout and with a valid completion; cancelled exactly if cancelled |
| Completion.ValidateStageCompletion | packages/runner/src/validate.ts:109-166 | A stage is valid exactly if every write is bound, every requirement has evidence, the envelope fits and some satisfied evidence is not an exit code |
| Completion.CompleteIsMonotone | packages/runner/src/validate.ts:109-149 | More outputs and more evidence with the same envelope never undo validity |
| Completion.ExitCodesNeverComplete | packages/runner/src/validate.ts:136-149 | Exit codes alone never complete a stage |
| Completion.MissingEvidence | packages/runner/src/validate.ts:123-134 | Exactly the keys of requirements without evidence are reported, and of the envelope requirement also when the envelope does not fit |
| Completion.ProvedExactly | packages/runner/src/validate.ts:59-97 | A requirement is met exactly by satisfied evidence of the kind its key starts with, and a named artifact, schema or verdict only under its name or its key |
| Completion.ReportedKeyHeals | packages/runner/src/validate.ts:34-97 | Evidence of the kind a reported key starts with, given under that key, would have met the requirement |
| Completion.KeysDecide | packages/runner/src/validate.ts:34-57 | The key under which a missing requirement is reported names exactly that requirement, among all requirements that list no words or at least one word and none with the separator in it |
| Completion.KeySharedExactly | packages/runner/src/validate.ts:34-57 | A requirement shares its key with another one exactly if it lists words and these are not a single, non-empty word without the separator |
| Completion.JoinedSharedExactly | packages/runner/src/validate.ts:44-47 | A list of words is joined to the same text as another list exactly unless it is a single, non-empty word without the separator |
| Completion.KeysCollide | packages/runner/src/validate.ts:44-45 | Two lists of sections that are reported under one key |
| CommandRunner.Run | packages/runner/src/command.ts:267-453 | In every call sequence finalising answers as the replay of the calls says, and with success exactly under that condition; in particular only if an earlier collection found a schema-valid envelope and one found an artifact for it, every write was found by some collection, the last recorded exit code is absent or zero, and no cancel or timeout came before |
| CommandRunner.SuccessIsEarned | packages/runner/src/command.ts:267-453 | The same of the replay: a success is earned by the calls before it |
| CommandRunner.SuccessExactly | packages/runner/src/command.ts:267-453 | Finalising succeeds exactly if what was collected up to the validation found every write and, last, a schema-valid envelope, some envelope named an artifact, nothing but a result envelope is required, the recorded exit code is absent or zero, and no cancel or timeout came before |
| CommandRunner.Attempt.Finalize | packages/runner/src/command.ts:408-453 | Success exactly if what was validated is complete, the attempt was not ended and no non-zero exit code is recorded |
| CommandRunner.Attempt.Collect | packages/runner/src/command.ts:267-385 | Collecting only adds outputs and evidence, binds every artifact found, and records the exit code, or 1 after the attempt was ended |
| CommandRunner.CompleteHasGrounds | packages/runner/src/command.ts:290-372 | Complete without a cancel or timeout implies a schema-valid envelope and every write bound |
| ApprovalRunner.Run | packages/runner/src/approval.ts:175-262 | In every call sequence the replies and the attempt are those of the replay: at most one answer is recorded, its decision stays and no timeout is seen beside it; finalising succeeds exactly on a valid completion with exactly one recorded approval against the first revision and no cancel, timeout or other returned answer before it |
| ApprovalRunner.DecisionStands | packages/runner/src/approval.ts:175-249 | No decision means no answer was recorded; otherwise exactly one was, its decision stands, and no observation was a timeout |
| ApprovalRunner.SuccessRestsOnApproval | packages/runner/src/approval.ts:309-385 | Each success rests on one recorded approval against the first revision, with no cancel, timeout or other returned answer before that success |
| ApprovalRunner.SuccessExactly | packages/runner/src/approval.ts:309-385 | Finalising succeeds exactly if the completion is valid and one recorded approval against the first revision, with no cancel, timeout or other returned answer, came before |
| ApprovalRunner.Attempt.Answer | packages/runner/src/approval.ts:219-249 | An answer is recorded exactly if it is the first, for this interaction and revision, before cancel and timeout |
| ApprovalRunner.Attempt.Observe | packages/runner/src/approval.ts:175-217 | A timeout happens only without decision, stale answer, cancel and result |
| ApprovalRunner.Attempt.Finalize | packages/runner/src/approval.ts:309-385 | Success exactly for a recorded approval without cancel and timeout and with a valid completion |
| CanonicalJson.PrintDecidesEquality | packages/config/src/json.ts:98-142 | Two values print to the same text, in either style and at any depth, exactly when they are equal as trees with unordered keys |
| CanonicalJson.SnapshotDecidesEquality | packages/config/src/json.ts:94-96 | The indented snapshot text decides equality of trees with unordered keys |
| CanonicalJson.CanonicalDecidesEquality | packages/forge-github/src/canonical.ts:4-12 | The compact text behind every digest and observed version decides equality of trees with unordered keys |
| CanonicalJson.PrintInjective | packages/config/src/json.ts:98-142 | Normalised values with the same text are the same, whatever text follows |
| CanonicalJson.PrintNorm | packages/config/src/json.ts:60-64 | Printing sorts: a value and its normal form print alike |
| JsonGrammar.PrintIsJson | packages/config/src/json.ts:98-142 | In either style and at any depth, what is printed is a JSON text, by the grammar of RFC 8259, of the value with its keys in order at every level |
| JsonGrammar.CanonicalTextsAreJson | packages/forge-github/src/canonical.ts:4-12 | The snapshot text and the digested text are JSON texts of the value |
| JsonGrammar.QuotedPaired | packages/config/src/json.ts:109-111 | A quoted string holds no lone surrogate, whatever the string holds |
| JsonGrammar.ShortestForm | packages/config/src/json.ts:109-111 | A unit is written as it is, or by its two-character escape, or, for other control characters and lone surrogates, by its hexadecimal escape |
| JsonGrammar.IndentedPieces | packages/config/src/json.ts:119-136 | The indented style puts one entry to a line, two spaces deeper than its brackets, with a space after the colon |
| JsonGrammar.CompactPieces | packages/forge-github/src/canonical.ts:6-11 | The compact style has no white space |
| Texts.AtMostExactly | packages/config/src/json.ts:60-64 | Keys are ordered by code units: a prefix first, and otherwise by the first unit that differs |
| JsonText.QuotedInjective | packages/config/src/json.ts:109-111 | Quoted strings (section 7 of RFC 8259, lone surrogates escaped) are read back uniquely from any continuation |
| JsonText.IntegerInjective | packages/config/src/json.ts:109-111 | Integers are read back uniquely from any continuation |
| ObjectGraph.Printer.Stringify | packages/config/src/json.ts:98-142 | The recursive walk with the mutable ancestor set ends on every finite graph, restores the set, and computes the reference walk |
| ObjectGraph.WalkSucceedsExactly | packages/config/src/json.ts:99-118 | The walk prints exactly the graphs in which no cycle, non-finite number or undefined value is reachable through array slots and object properties |
| ObjectGraph.CycleReportedExactly | packages/config/src/json.ts:112-115 | Without other faults, a cycle is reported exactly when one is reachable, never for shared nodes |
| ObjectGraph.WalkPrints | packages/config/src/json.ts:119-142 | The walk succeeds exactly if the graph unfolds to a tree, every slot of every array and every property of every object, and then prints that tree |
| ObjectGraph.CanonicalStringify | packages/config/src/json.ts:94-96 | The snapshot text of the tree that the graph unfolds to, or a fault that is really there |
| JsonPointer.PointerRoundTrip | packages/pipeline/src/parse.ts:139-147 | Splitting and unescaping the pointer built from any list of strings gives the list back |
| JsonPointer.PointersInjective | packages/config/src/json.ts:158-160 | Different lists of segments give different pointers |
| JsonPointer.RebuildExactly | packages/codebase/src/configuration.ts:164-170 | Rebuilding a pointer from its segments gives it back exactly if it follows the grammar of section 3 of RFC 6901 |
| JsonPointer.UnescapeEscape | packages/config/src/json.ts:149-151 | Unescaping undoes escaping for every string |
| JsonPointer.SegmentEscapes | packages/config/src/json.ts:149-151 | A tilde is escaped as `~0` and a slash as `~1`, and both are undone |
| JsonPointer.ResolvePointer | packages/pipeline/src/parse.ts:117-137 | For every pointer, whether or not it follows the grammar, the walk returns the position of the longest prefix of its path that has one, and nothing if none has; the root counts as a prefix exactly for pointers that are empty or start with a slash |
| JsonPointer.CutPaths | packages/pipeline/src/parse.ts:130-135 | Cutting any text again and again at its last slash drops one segment of its path each time |
| SetupGraph.SetupGraphDiagnostics | packages/codebase/src/configuration.ts:99-150 | Nothing is reported exactly if every dependency names another configured repository and a setup order exists; each reported cycle is one, and each cycle has a reported repository on it |
| SetupGraph.Search.Visit | packages/codebase/src/configuration.ts:127-147 | The search ends on every graph, restores the set of open repositories, and reports only repositories on cycles |
| SetupGraph.CyclesReported | packages/codebase/src/configuration.ts:127-148 | Once every repository is finished, each cycle passes through a reported one |
| SetupGraph.OrderExcludesCycles | packages/codebase/src/configuration.ts:127-148 | In a graph with a setup order nothing lies on a cycle |
| SetupGraph.NameDiagnostics | packages/codebase/src/configuration.ts:105-124 | Exactly the self-dependencies and unconfigured dependencies are reported |
| IndexDecoder.IndexChunks | packages/codebase/src/analysis.ts:230-293 | The result is a function of the concatenated bytes, however they are cut into chunks: accepted exactly if the exit code is zero, nothing is left over and every record parses |
| IndexDecoder.AcceptedExactly | packages/codebase/src/analysis.ts:273-293 | A stream is accepted exactly if the exit code is zero, the stream is empty or ends with a NUL, and every record parses; all its records are counted |
| IndexDecoder.CutAnywhere | packages/codebase/src/analysis.ts:251-266 | The records and the rest of a stream can be computed part by part |
| IndexDecoder.RecordsRebuild | packages/codebase/src/analysis.ts:251-266 | The records, each closed by a NUL, and the rest are the stream |
| IndexDecoder.NoNulInside | packages/codebase/src/analysis.ts:253-256 | Neither a record nor the rest holds a NUL |
| IndexDecoder.IndexFacts | packages/codebase/src/analysis.ts:237-249 | Kept entries are an in-order subsequence within both limits, the emitted bytes are the sum of their sizes, and truncated holds exactly when one was left out, which is exactly when not all fit |
| IndexDecoder.KeptExactly | packages/codebase/src/analysis.ts:242-248 | An entry is left out exactly when it would break a limit after those kept before it |
| IndexDecoder.Decoder.Data | packages/codebase/src/analysis.ts:251-266 | After each chunk the decoder's fields are those of the bytes received so far |
| IndexDecoder.Decoder.Consume | packages/codebase/src/analysis.ts:237-249 | Counters and kept entries follow the reference for one entry more |
| IndexDecoder.Decoder.Close | packages/codebase/src/analysis.ts:273-293 | The answer is the meaning of the whole stream |
| Detection.RegisteredIsBijection | packages/codebase/src/detect.ts:130-157 | When detection reports registered, every observation gets a stored id, every stored id is given, and with distinct stored ids no two observations get the same |
| Detection.MatchIsOneToOne | packages/codebase/src/detect.ts:58-83 | The positions selected for a matching registration are all positions, each once |
| Detection.MatchExactly | packages/codebase/src/detect.ts:58-83 | A registration matches exactly when what answers to what is a one-to-one assignment of stored to observed repositories |
| Detection.CandidatesAgree | packages/codebase/src/detect.ts:58-104 | The two matching functions find the same stored repositories |
| Detection.DetectExactly | packages/codebase/src/detect.ts:130-139 | Ambiguous exactly if some registration is ambiguous or two match, registered exactly if otherwise one matches |
| Detection.SharesRemoteMeans | packages/codebase/src/detect.ts:66-77 | Repositories share a remote exactly if some stored URL is the normalised form of an observed one |
| Detection.ByCommonDirectory | packages/codebase/src/detect.ts:114-120 | One observation is kept per common directory, the one with the first path |
| SecretStore.Lockstep | packages/secrets/src/file-store.ts:174-278 | For every series of operations with writes cut off anywhere, the in-memory store answers and ends as the script says with each write having fully happened or not at all, the store on disk gives the same answers except to a caller that died, and holds the same entries; a write happens only if it reaches its rename, and always then if its temporary name is free |
| SecretStore.FileStore.Write | packages/secrets/src/file-store.ts:182-205 | A write takes effect exactly if the rename is reached; its answer is determined, and a reported failure changed nothing |
| SecretStore.FileStore.Read | packages/secrets/src/file-store.ts:207-249 | A read returns the entry as last written, never a partial one |
| SecretStore.FileStore.Remove | packages/secrets/src/file-store.ts:251-262 | A removal takes the entry away and says whether it was there |
| SecretStore.FileStore.List | packages/secrets/src/file-store.ts:264-278 | The listing is the sorted list of exactly the visible names, whatever the directory order and leftover files |
| SecretStore.MemoryStore.List | packages/secrets/src/memory-store.ts:44-46 | The listing is the sorted list of the names, whatever the order of the map |
| SecretStore.TemporaryIsNoEntry | packages/secrets/src/file-store.ts:174-180 | A temporary file is never the entry of any name |
| SecretStore.ValidNameExactly | packages/secrets/src/store.ts:27 | A name is a letter or digit followed by at most 127 letters, digits, dots, underscores and hyphens |
| CapabilityCache.Run | packages/capability/src/resolve.ts:57-95 | In every run from an empty cache a selection is accepted exactly if the catalogue of the moment has an entry that allows it; for execution it rests on an entry discovered in that run and not expired at the call's time |
| CapabilityCache.AcceptedIsFounded | packages/capability/src/service.ts:52-102 | What the replay of any run accepts for execution was discovered in that run and has not expired |
| CapabilityCache.Service.Catalogue | packages/capability/src/service.ts:52-102 | The cache answers exactly when it is complete, unexpired and of the same versions; else discovery, whose entries are stored; else the cache as stale. What calls itself fresh has not expired, and cached entries are never returned across a version change |
| CapabilityCache.Targets | packages/capability/src/service.ts:16-25 | Exactly every configured account, Claude without account, and each other engine without account when it has none, are expected |
| CapabilityCache.ValidateSelection | packages/capability/src/service.ts:126-250 | A selection is accepted exactly if the first entry of its target allows it in that phase, with a warning exactly for stale evidence when authoring |
| CapabilityCache.AllowsMeans | packages/capability/src/service.ts:193-241 | What is accepted names a listed model with that effort and execution mode, and only supported tools |
| CapabilityCache.AllowsExactly | packages/capability/src/service.ts:126-250 | A selection is allowed exactly if the entry is configured, installed, authenticated, compatible, not rate limited and not stale in execution, its first model of that id offers the effort and the mode, and every feature and the first tool of every name asked for is supported |
| CapabilityCache.Resolve | packages/capability/src/resolve.ts:57-95 | A selection is accepted exactly if the catalogue of the call has an entry of the wanted target that allows it; in the execution phase that entry was cached or just discovered and has not expired |

## Left out

- Power loss: only the end of a process is modelled; what is written is there afterwards, synced or not.
- OperationLock.MutualExclusion: the premises on reclaim renames are needed; without them the property is false, as the failure runs show. Random tokens and file identities are drawn from a counter, so they never repeat.
- ActivationJournal.RunSound: identities are compared as values, not as JSON text, so the order of their keys plays no part; versions are triples of numbers; failing to close a file is not modelled.
- RuntimeManager.Run: the real path of an adopted entry and what the probe says of a running entry are parameters, as is whether someone else touched an entry file; why an installation failed is not told apart when an upgrade reports it; the versions come in the form that the probe and the manifest check let through.
- RuntimeInstall.Installer.Install: download, signature, checksum and size limit come before it and are not modelled; the manifest is taken to be for the requested version, as its check demands; renaming onto an existing empty directory does not occur.
- CanonicalJson.PrintDecidesEquality: numbers are integers; the text of fractions and exponents is not modelled.
- CanonicalJson.CanonicalDecidesEquality: undefined values and non-finite numbers, which the compact printer lets through, are not modelled; it is only given strings, integers, booleans and lists and records of them.
- Digests: SHA-256 is treated as injective, so versions are compared by the text or the observation they are a digest of, and linkage digests are any 64 hexadecimal digits.
- PullRequestUpdate.Server.Retry: states runs without other writers; those with others are stated call by call in `RetryAmongOthers`.
- PullRequestForge.RetryPullRequest: states retries while the source branch stays at the expected head.
- Checks, statuses and review reads of the forge: one request each.
- BranchRefs.Branch.Update: that a server refuses updates that are not fast-forward is a request that is not applied; names of branches are not checked.
- CommandRunner.Run: calls do not overlap; collecting is one step; the path rules for artifacts are a parameter.
- Integration.Run: start is called once; storing snapshots and evidence is left out.
- ApprovalRunner.Run: evidence and outputs are left out; the completion check is a parameter.
- SecretStore.Lockstep: permissions, ownership and symbolic links are not modelled, and values are strings of Unicode scalar values, which survive UTF-8.
- IndexDecoder.IndexChunks: the syntax of a record and the size of an entry are parameters; what later chunks do to a decoder that has already rejected is not modelled, since its result is settled.
- Detection.RegisteredIsBijection: URL normalisation and the order of paths are parameters; reading repositories from disk is left out.
- CapabilityCache.Run: that discovered entries are fresh at the time of the call is a premise (it holds for a clock that does not go back); what the adapters report is not modelled.
- Locale-dependent orders are any strict order.
- Credential patterns and redaction, the pipeline scheduler, the command line and the transport layers are not part of this model.
