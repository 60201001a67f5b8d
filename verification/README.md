# What the AmneziaWG manager promises, proved on a model

`awgctl` manages one AmneziaWG server: it moves it between a classic and an AWG 3.1
obfuscation profile, restarts its service under a firewall of its own, replaces whole sets
of files, writes and reads native configuration text, cleans that text before publishing
it, and sets up the host accounts it runs under. This project models those parts in Dafny
and proves what they promise, over every input, every interleaving and every point at which
a command may be cut.

`dafny verify dfyconfig.toml` checks everything.

## How the model is built

**The obfuscation transition** (`Transition`, `TransitionRuns`, `TransitionManager`,
`TransitionCommands`, `TransitionFindings`). `Transition.Store` is what survives a crash:
document, outcome with its cleanup phase, activation journal, both timers per transaction,
pending trees, the live managed files, profile revisions. A `Step` is one durable write, `Enabled` the rule for it.
`TransitionManager.Manager` is the program: each command is a method that reaches the store
only through `Write`, which demands the rule, so every command is a run, and a crash between
any two writes leaves a state the run lemmas speak about. The environment decides whether a
write, a timer or the service succeeds; `faultless` says it always does. `TransitionCommands`
runs any sequence of commands, each cut after any of its writes.

**The service operation** (`ServiceOperation`, `ServiceOperationRuns`). Processes, the
mutation lock, the intent document, the service, the kernel interface, the firewall and a
systemd job that may outlive the command that started it, as a step relation.

**File transactions** (`RestoreTransaction`, `ConfigSet`), **the firewall** (`Firewall`,
`FirewallLifecycle`), **host accounts** (`Identity`, `HostAccounts`, `HostRollback`,
`HostConfiguration`): imperative methods over the state the program changes, each proved
against a specification function or a statement of the new state, with a failure allowed at
every step.

**Text**: `ConfigText` (lines, sections, fields), `ProfileDocument`, `ProfileText`,
`ProfileRoundTrip`, `ProfileImport` (renderers, parser, importer), `CpsTags`, `Assignments`,
`CpsSanitizer`, `CpsAgreement` (custom-packet specifications: validator and sanitizer),
`SemVer` (release versions), `Eligibility` (who is served when). `Strings` and `Common` hold
shared vocabulary.

## What turned out false, and when it does hold

* *Dead-man guard.* Over any sequence of commands, each cut anywhere, every store is guarded
  if and only if none of four things was reported and reached (`TransitionCommands.RunCommands`):
  an operator's rollback that moves a component with neither timer armed; a failed activation
  whose handler finds no timer armed, after the deletion of the journal took effect but reported
  failure, or before the journal was written, when its restore moves a component or the files
  were not classic to begin with; a confirmation whose re-armed recovery timer fails and is taken
  away again when the final timer was already gone; and a client expiry that records a prepared
  transaction as rolled back over files that are not classic. Files that are not
  classic get that far because the checks of activation, confirmation and expiry do not look at the
  archive of revoked clients (src/awgctl/core.py:3828-3842, 5015-5045), which an interrupted
  restore may have moved away. The contracts of `Rollback`, `Activate`, `Confirm` and
  `ExpirePrepared` have each condition, what in the history the report stands for, and the write
  that loses the guard; `TransitionFindings` has a run for each kind.
* *Progress of the transition.* A leftover timer of a finished transaction writes a journal
  that blocks the next transaction. With a working environment reconciliation succeeds if
  and only if the store is not in that state (`Reconcile`).
* *Service recovery.* Every deletion of an intent goes back to a check that saw the prestate,
  the request or everything down. The deletion is then coherent, through whatever deaths and
  successors, if and only if no systemd job is outstanding at that check, or the recorded
  prestate is the request with the service turned round under a firewall that already is as
  the request wants it (`CheckSufficesExactlyWhen`; `OutstandingJobBreaksCoherence` is a run).
  A dead owner's intent can still be got rid of, by whatever steps, if and only if a job is
  outstanding, the service is active, the interface is gone, the operation is found over, or
  the lock holder is just about to delete or complete it (`ClearedExactlyWhen`).
* *Restoring a backup.* The restart of an active service renders the nftables text again, inside
  one of the components. The restore leaves exactly the backup if and only if the service is
  inactive or the backup's rules already are the rendering of its configuration. A failed one
  leaves exactly the old tree if and only if the restart it ends with did not get to render, or
  the old rules already were the rendering (`RestoreBackup`; `EditedRulesAreNotRestored` is an
  input).
* *Config-set is all or nothing* unless the failing write is one of the commit's own two:
  those stand before the protected block (src/awgctl/core.py:3150-3151), and a failed runtime
  write leaves the generated text new.
* *Docker's three rules* by themselves admit client traffic to blocked networks; the managed
  chain drops exactly that, and runs as well.
* *Isolation* by the managed chain needs the external and the tunnel interface to be distinct
  (`SharedInterfaceIsNotIsolated`), and the stable window of an activation needs every served
  peer to be managed (`ExternalPeerMayLapse`), as its first check makes sure.
* *Postcondition checkers* accept what apply and cleanup leave if and only if no table of the
  same name exists in another family.
* *Importing a rendered profile* returns it if and only if the stored endpoint is in its
  stripped form; the loader checks an endpoint but keeps it as it was.
* *Sanitizing twice* removes more than once: a marker is no value, so the rest of its line
  goes (`SanitizingTwiceRemovesMore`).
* *Identity rollback* restores the host if and only if no command met a leftover: an account
  already carrying a new group's number, or a group already listing the new account. After a
  run that stopped early it reports failures although everything was restored. Planning again
  after a complete run finds nothing to do if and only if the staging account was not enrolled
  as an operator and no leftover stands in the way.

## Model

| member | source | states |
|---|---|---|
| Transition.StepKeepsInv | src/awgctl/core.py:6000-6064 | every enabled durable write keeps the coupling of document, outcome, journal, pending tree, live files and revisions, and the memory of decisions |
| Transition.MarkKeepsUpdates | src/awgctl/core.py:6067-6100 | marking one profile keeps every listed profile at its old or its target revision |
| TransitionRuns.RunKeepsInv | src/awgctl/core.py:6293-6360 | the coupling holds at every point of every run |
| TransitionRuns.ReachableIsCoupled | src/awgctl/core.py:6121-6185 | a journal names the document or the outcome; an incomplete outcome has no foreign document; checkpoint and metadata imply the document, current and complete its absence; while cleanup is outstanding the files of a confirmed transaction are not classic, and those of a rolled-back one are, unless expiry recorded it |
| TransitionRuns.OneDecision | src/awgctl/core.py:6941-6951 | over a run a transaction keeps its one decision, completion time and updates, with phases only growing |
| TransitionRuns.NeverBothDecided | src/awgctl/core.py:7147-7174 | no run has both a confirmed and a rolled-back outcome for one transaction |
| TransitionRuns.CleanupKeepsDestination | src/awgctl/core.py:6121-6185 | no cleanup write changes the store that an uninterrupted cleanup would end in |
| TransitionRuns.CleanupConverges | src/awgctl/core.py:6067-6185 | any number of cut cleanup attempts heads for the store of one uninterrupted run and, once complete, is exactly it |
| TransitionRuns.AnyCleanupConverges | src/awgctl/core.py:6121-6185 | the same with attempts of the recovery timer's own run among them, which leaves at most its own units armed |
| TransitionRuns.DestinationIsClean | src/awgctl/core.py:6103-6118 | that store has phase complete, no document, no pending tree, no recovery timer, each listed profile marked once and no other profile changed |
| TransitionManager.Manager.Write | src/awgctl/core.py:6051-6064 | one durable write extends the run by one enabled step |
| TransitionManager.Manager.ArmTimer | src/awgctl/core.py:5827-5860 | a failed arming takes its own units away and touches no other timer |
| TransitionManager.Manager.BeginOutcome | src/awgctl/core.py:6000-6048 | records a decision once, at its checkpoint, or recognises the same one; refuses any other |
| TransitionManager.Manager.ApplyProfileUpdates | src/awgctl/core.py:6067-6100 | success leaves every listed profile at its target, any cut is a cleanup step |
| TransitionManager.Manager.ResumeCleanup | src/awgctl/core.py:6121-6185 | from any phase, every intermediate store is further into cleanup; success is exactly the uninterrupted result, but for the recovery timer in its own run; refuses a foreign document; the two repair branches are dead |
| TransitionManager.Manager.CompleteRolledBack | src/awgctl/core.py:6188-6206 | records the rollback with its first write and cleans up, guarded throughout over classic files |
| TransitionManager.Manager.Reconcile | src/awgctl/core.py:6293-6360 | at lock entry: guard kept, nothing done when settled, and with a working environment success if and only if not wedged |
| TransitionManager.Manager.RecoverActivation | src/awgctl/core.py:6330-6360 | an interrupted activation goes back to classic and is rolled back, guarded throughout |
| TransitionManager.Manager.Prepare | src/awgctl/core.py:6502-6734 | guarded throughout; success is a fresh prepared document over its pending tree, classic and settled |
| TransitionManager.Manager.InstallActive | src/awgctl/core.py:6363-6499 | guarded at every cut, unless a failed arming of the recovery timer takes the last guard of files that were not classic; a failure before the journal has changed no file, one after its deletion leaves the transaction active under its final timer; success hands over to the final timer |
| TransitionManager.Manager.Activate | src/awgctl/core.py:6737-6893 | guarded at every cut if and only if it did not fail with no timer armed on either side of its journal; what the reported stage, timers and restore were in the history, and which write loses the guard; success is active, AWG 3.1, final timer armed, journal gone |
| TransitionManager.Manager.UndoActivation | src/awgctl/core.py:6831-6880 | the failure handler: where it turns to the restore and with which timers; guarded if and only if a timer or the journal is left there, or the files are classic and it restores nothing |
| TransitionManager.Manager.Confirm | src/awgctl/core.py:6937-7044 | guarded at every cut if and only if not a failed re-arm left the recovery timer away with the final timer gone, as the history shows; success is confirmed, clean and updated; a rolled-back transaction is refused |
| TransitionManager.Manager.RevisionsUnchanged | src/awgctl/core.py:7005-7023 | true if and only if every listed profile still has its prepared revision |
| TransitionManager.Manager.EnsureCleanupJournal | src/awgctl/core.py:7149-7166 | a timer's run leaves a journal for its transaction or refuses another's |
| TransitionManager.Manager.Rollback | src/awgctl/core.py:7072-7242 | guarded at every cut if and only if a timer runs it, one is armed, or nothing is moved, which the history tells; a confirmed transaction is only finished, never restored; a timer's run succeeds exactly when journal and document are its own |
| TransitionManager.Manager.ExpirePrepared | src/awgctl/core.py:7404-7500 | client expiry cancels a prepared transition, never touches an active one, and ends with its own writes in place; guarded at every cut if and only if it did not record the rollback over files that are not classic |
| TransitionManager.Manager.Cut | src/awgctl/core.py:6293-6360 | a crash leaves a store of the run, from which the next command goes on |
| TransitionCommands.RunCommand | src/awgctl/core.py:6737-7500 | one command's report is true of its history; it keeps the guard throughout if and only if the report is none of the named exceptions; then the write that loses it |
| TransitionCommands.RunCommands | src/awgctl/core.py:6737-7500 | over any sequence of commands cut anywhere, each starting where the one before ended: every store is guarded if and only if no command truly reports a named exception and got as far as its write; otherwise that write leaves the first unguarded store |
| TransitionFindings.OperatorRollbackOfPreparedIsUnguarded | src/awgctl/core.py:7182-7222 | a concrete run from a fresh installation that loses the guard |
| TransitionFindings.FailedDeletionIsUnguarded | src/awgctl/core.py:5515-5523 | a concrete activation whose journal deletion takes effect but fails, and whose handler then removes the last guard |
| TransitionFindings.RetriedConfirmationIsUnguarded | src/awgctl/core.py:7024-7037 | a concrete run in which a retried confirmation loses the last guard |
| TransitionFindings.ReactivationIsUnguarded | src/awgctl/core.py:6374-6384 | a concrete run in which a second activation over displaced files takes the last guard away |
| TransitionFindings.ExpiryIsUnguarded | src/awgctl/core.py:7404-7460 | a concrete run in which expiry records a rollback over displaced files |
| TransitionFindings.ExpiryLeavesFilesAstray | src/awgctl/core.py:6121-6185 | its end: a finished rollback over files that are not classic, with no document, timer or journal |
| TransitionFindings.LeftoverTimerWedges | src/awgctl/core.py:7149-7166 | a concrete run into the wedged state |
| ServiceOperation.KeptAt | src/awgctl/core.py:350-450 | every step keeps each process's view of lock, intent and phase |
| ServiceOperation.StepKeepsInv | src/awgctl/core.py:3056-3134 | the invariant survives every step of owners, hooks, reclaimers, deaths and jobs |
| ServiceOperationRuns.OneMutator | src/awgctl/core.py:461-479 | at most one process is in a mutation section, even while its lock is lent out; meanwhile only hooks and refused commands hold the lock |
| ServiceOperationRuns.OnlyOwnerMutates | src/awgctl/core.py:424-450 | while an intent's owner lives, wherever it is, nobody but it and hooks runs a mutation |
| ServiceOperationRuns.CallerFailsUnlessDeleted | src/awgctl/core.py:2954-3134 | a process leaves its work on an intent either by deleting it or by failing; at lock entry that ends the command |
| ServiceOperationRuns.HookDiscipline | src/awgctl/core.py:2786-2831 | accepted hooks are the first next_action ones of what the goal expects; a repeat changes nothing |
| ServiceOperationRuns.FirewallChangesInTurn | src/awgctl/core.py:2786-2831 | in every run, only the lock holder changes the firewall under an intent, as a hook or compensation whose action is due, and down only with service and interface gone |
| ServiceOperationRuns.StaysUntilDeleted | src/awgctl/core.py:1034-1074 | over a run an intent stays that of its operation until a process holding the lock, with the owner done or dead, deletes it |
| ServiceOperationRuns.DeletionWasChecked | src/awgctl/core.py:2915-3053 | every deletion goes back to a step that saw the prestate, the request or everything down, with the intent unchanged in between |
| ServiceOperationRuns.CheckSufficesExactlyWhen | src/awgctl/core.py:3102-3134 | at that step: every deletion it can lead to is coherent if and only if no job is outstanding, or none that matters |
| ServiceOperationRuns.DeletionIsCoherentExactlyWhen | src/awgctl/core.py:2992-3002 | at the deletion: coherent now and however long it is put off, if and only if one of the three states holds and no job that matters is outstanding |
| ServiceOperationRuns.DeletionIsCoherent | src/awgctl/core.py:2915-3053 | over whole runs: one of the three states held at the check, and holds at the deletion if no job that matters was outstanding at the check |
| ServiceOperationRuns.JobProofExactlyWhen | src/awgctl/core.py:2915-2952 | the intents that stay coherent whatever a job does to service and interface |
| ServiceOperationRuns.OverIsFrozen | src/awgctl/core.py:2786-2831 | while a verified or never-invoked intent waits, nobody changes the firewall or starts a job |
| ServiceOperationRuns.VerifiedIsFrozen | src/awgctl/core.py:3102-3134 | between verification and deletion nobody changes firewall, intent or jobs |
| ServiceOperationRuns.OutstandingJobBreaksCoherence | src/awgctl/core.py:2952-3002 | a concrete run that deletes an intent in none of the three states |
| ServiceOperationRuns.StuckForever | src/awgctl/core.py:2864-2868 | service inactive, interface left, no job, operation not found over: no step of any process leads out |
| ServiceOperationRuns.ClearedExactlyWhen | src/awgctl/core.py:3005-3053 | some run gets rid of a dead owner's intent if and only if the state is not stuck |
| ServiceOperationRuns.DeadOwnerIsReclaimed | src/awgctl/core.py:3005-3053 | with the lock free, no job and a cooperative environment, one new command does so at once and ends in one of the three states |
| RestoreTransaction.Files.SwapOne | src/awgctl/core.py:6231-6257 | one component is replaced and its predecessor kept, or left as it was |
| RestoreTransaction.Files.UndoMoved | src/awgctl/core.py:6270-6290 | undoing last-first from any number of swaps gives back exactly the old components |
| RestoreTransaction.Files.RestoreObfuscationBackup | src/awgctl/core.py:6209-6290 | success leaves exactly the snapshot and its server text; failure anywhere leaves everything as before |
| RestoreTransaction.Files.UndoLists | src/awgctl/core.py:3648-3674 | the two lists suffice to put back any partial swap |
| RestoreTransaction.Files.RestoreBackup | src/awgctl/core.py:3612-3674 | from any mix of present and absent components: the backup, or the old state back, exactly so if and only if no restart rendered differing rules again |
| RestoreTransaction.RerenderedChangesNothingExactlyWhen | src/awgctl/core.py:2426-2453 | what the up hook of a restart changes in a tree, and when that is nothing |
| RestoreTransaction.EditedRulesAreNotRestored | src/awgctl/core.py:3598-3609 | rules spelled differently from their rendering, which validation does not compare: an active service's restart does not leave such a tree as it was |
| ConfigSet.Manager.CommitServerConfig | src/awgctl/core.py:3137-3173 | what each way of failing leaves in the generated and runtime texts |
| ConfigSet.Manager.SnapshotArtifacts | src/awgctl/core.py:8352-8364 | exactly the artifacts of the managed clients, with their bytes |
| ConfigSet.Manager.RestoreArtifacts | src/awgctl/core.py:8367-8369 | puts back exactly the snapshotted artifacts |
| ConfigSet.Manager.WriteArtifacts | src/awgctl/core.py:8442-8470 | for any number of clients, all rendered artifacts or only listed ones touched |
| ConfigSet.Manager.ConfigSet | src/awgctl/core.py:8372-8496 | success installs one configuration everywhere; a failure restores every file if and only if it did not come from the commit's own two writes |
| Firewall.CollapsedBlocksTheSame | src/awgctl/core.py:2472-2658 | the merged network list of the checker blocks the same addresses |
| Firewall.ForwardChainIsolates | src/awgctl/core.py:2168-2192 | of what comes from or goes to the tunnel, exactly public egress from the subnet and established returns pass |
| Firewall.DockerChangesNothingForTheTunnel | src/awgctl/core.py:2414-2423 | with the inserted rules in front of any others, Docker's chain admits and takes away nothing |
| Firewall.DockerRulesAloneAdmitBlocked | src/awgctl/core.py:2620-2657 | exactly what the inserted rules admit and the chain drops |
| FirewallLifecycle.ApplyAndCleanup | src/awgctl/core.py:2407-2453 | apply then cleanup is cleanup, apply twice is apply once, other owners' rules stay in order |
| FirewallLifecycle.CheckersAcceptResults | src/awgctl/core.py:2716-2783 | both checkers accept the results if and only if no namesake table exists |
| FirewallLifecycle.DownIsClean | src/awgctl/core.py:2716-2783 | the down checker accepts exactly the rulesets cleanup leaves alone |
| FirewallLifecycle.UpIsIsolated | src/awgctl/core.py:2716-2783 | whatever the up checker accepts isolates the tunnel, with Docker's chain or without |
| FirewallLifecycle.Kernel.TaggedHandles | src/awgctl/core.py:2388-2404 | exactly the handles of the manager's rules, in order, or none if the chain cannot be listed |
| FirewallLifecycle.Kernel.FirewallCleanup | src/awgctl/core.py:2407-2411 | other owners' rules survive whatever fails; without failures the result is the cleaned ruleset |
| FirewallLifecycle.Kernel.ApplyFirewall | src/awgctl/core.py:2426-2453 | other owners' rules survive every outcome; success has the rendered text written and the inserted rules in front and, without failures, is the applied ruleset |
| ConfigText.ParseAwgConfig | src/awgctl/core.py:1999-2023 | the loop over lines, with one dictionary per section occurrence, reads what the line-by-line specification reads, errors included |
| ConfigText.LineIsRead | src/awgctl/core.py:2002-2022 | a written header, comment, blank line or field is read as what it means |
| ConfigText.DocumentIsRead | src/awgctl/core.py:1999-2023 | parsing any written document takes its lines one by one |
| ProfileDocument.PacketClean | src/awgctl/core.py:1444-1473 | a custom packet the validator accepts passes through a configuration file unharmed |
| ProfileDocument.ObfuscationIsProper | src/awgctl/core.py:1909-1946 | in both modes the native fields are writable and pairwise distinct |
| ProfileText.RenderServerConfig | src/awgctl/core.py:2078-2121 | the loop over clients writes exactly the eligible peers, or stops at the first that cannot be written |
| ProfileRoundTrip.ServerRoundTrip | src/awgctl/core.py:2078-2121 | parsing a rendered server gives one interface and exactly the eligible peers in order, with all their fields |
| ProfileRoundTrip.RenderedServerIsStable | src/awgctl/core.py:5274-5291 | within an open activation window the rendered server does not depend on the clock |
| ProfileImport.ValidatedIsCanonical | src/awgctl/core.py:1335-1353 | a validated endpoint validates as itself |
| ProfileImport.ClientParsed | src/awgctl/core.py:2124-2165 | a rendered client profile parses into its two sections with all fields |
| ProfileImport.ImportUndoesRender | src/awgctl/core.py:4202-4285 | importing a rendered profile returns keys, address and the same text if and only if the stored endpoint is canonical |
| ProfileImport.AcceptedMeansCanonical | src/awgctl/core.py:4254-4255 | no profile at all is accepted for a non-canonical stored endpoint |
| ProfileImport.ReimportIsStable | src/awgctl/core.py:4202-4285 | the canonical text of any accepted profile imports as itself |
| ProfileImport.CrashesExactlyWithoutDns | src/awgctl/core.py:4244-4245 | the importer lets an exception through if and only if the profile has no name servers and is in order as far as it reads before them |
| ProfileImport.TrailingDotIsNotCanonical | src/awgctl/core.py:1654-1656 | an endpoint the loader accepts and keeps in non-canonical form |
| CpsTags.TagAtFindsWhatIsWritten | src/awgctl/core.py:1439-1441 | where a tag is written the pattern matches that tag and no other |
| CpsTags.ValidateCps | src/awgctl/core.py:1444-1473 | accepts if and only if the value spells good tags within both limits; each size error if and only if its own condition |
| CpsTags.Decided | src/awgctl/core.py:1439-1473 | a value has at most one reading as tags |
| CpsSanitizer.CpsAmbiguousEnd | src/awgctl/diagnostics.py:44-56 | the next line end, assignment or end of text, looking at no more than twice that interval |
| CpsSanitizer.CpsTagsEnd | src/awgctl/diagnostics.py:64-83 | where the tag loop stops, or that it gives up |
| CpsSanitizer.CpsPayloadEnd | src/awgctl/diagnostics.py:59-88 | where a payload ends, quotes included |
| CpsSanitizer.SanitizeCpsText | src/awgctl/diagnostics.py:91-101 | terminates with the woven text, its line-end searches looking at no more than twice the text's length in all |
| CpsSanitizer.RuleRespects | src/awgctl/diagnostics.py:59-88 | no payload reaches over an assignment |
| Assignments.CutsAreTheAssignments | src/awgctl/diagnostics.py:91-101 | the cuts are exactly the assignments, in order, without overlap |
| Assignments.OutsideIsKept | src/awgctl/diagnostics.py:91-101 | apart from markers the output is the characters outside the cuts, in order |
| CpsAgreement.AcceptedValueIsCutExactly | src/awgctl/diagnostics.py:59-88 | a value the validator accepts is removed whole, and exactly it if and only if no opening bracket follows |
| CpsAgreement.QuotedValueIsCutExactly | src/awgctl/diagnostics.py:32-41 | in matching quotes, plain or escaped, the value goes with its quotes |
| CpsAgreement.EveryAssignmentIsCut | src/awgctl/diagnostics.py:91-101 | the sanitizer's output on any text: every assignment cut, all else kept |
| CpsAgreement.SanitizingTwiceRemovesMore | src/awgctl/diagnostics.py:59-101 | what follows a value on its line survives one pass and not two |
| SemVer.PrecedenceKey | src/awgctl/semver.py:29-48 | the loop computes the key of exactly the accepted versions |
| SemVer.KeyOrder | src/awgctl/semver.py:29-48 | comparing keys is a strict total order |
| SemVer.NumeralValues | src/awgctl/semver.py:20-26 | numerals are ordered and told apart by their digits as by their values |
| SemVer.KeysFollowPrecedence | src/awgctl/semver.py:29-48 | key order is the precedence of section 11 of Semantic Versioning 2.0.0, stated on the texts |
| SemVer.KeysTellVersionsApart | src/awgctl/core.py:8763-8789 | equal keys only for equal version texts, so "already current" means the same version |
| Identity.PlanMemberships | src/awginstall/identity.py:144-152 | one addition per missing operator, in order, or refusal for an unknown one |
| Identity.BuildIdentityPlan | src/awginstall/identity.py:96-159 | the plan, or the first reason to refuse |
| HostAccounts.PlanAuthorisesExactlyTheOperators | src/awginstall/identity.py:56-159 | whoever the host authorises through the operator group, listed or by primary group: an accepted plan knows them all as operators, and is empty if and only if the staging identity exists and they are exactly the operators |
| HostAccounts.MembersRemoved | src/awginstall/host.py:440-445 | removing all planned members takes back exactly those that were added |
| HostAccounts.MadeUndone | src/awginstall/host.py:446-458 | deleting in reverse takes back exactly what was made and fails for the rest |
| HostAccounts.PlanPrefix | src/awginstall/host.py:561-564 | what the first k commands of a plan make |
| HostRollback.RollbackRestores | src/awginstall/host.py:438-458 | after any executed prefix, restoration with one reported failure per command that was not carried out |
| HostRollback.RollbackRestoresExactlyWhen | src/awginstall/host.py:438-458 | restoration if and only if no executed command met a leftover |
| HostRollback.ConvergesExactlyWhen | src/awginstall/host.py:596-600 | planning again after a complete run yields no commands if and only if nothing in the host stood in the way |
| HostConfiguration.Accounts.RunCommands | src/awginstall/host.py:561-564 | the executed prefix, with the failing command's effect counted if it had one |
| HostConfiguration.Accounts.RollbackIdentities | src/awginstall/host.py:438-458 | the three loops attempt every undo and list the failing ones |
| HostConfiguration.Accounts.ConfigureHost | src/awginstall/host.py:509-617 | refusal changes nothing, success has carried out the plan and, unless the caller supplied the picture of the accounts, has converged, failure restores if and only if no leftover was met and reports an empty error list only after a complete run |
| Eligibility.PrepareTransitionClients | src/awgctl/core.py:5059-5086 | accepts if and only if the named client is managed and served and so are all others; its last error cannot occur |
| Eligibility.EnsureActivationWindow | src/awgctl/core.py:5089-5120 | accepts if and only if every held or served managed client outlives the deadline; otherwise names the first that does not |
| Eligibility.PeersShrink | src/awgctl/core.py:2054-2075 | time only takes peers away |
| Eligibility.WindowKeepsPeers | src/awgctl/core.py:5415-5449 | after the activation checks the peers are the same at every instant up to the deadline |
| Eligibility.WindowOpenExactlyWhen | src/awgctl/core.py:5089-5120 | the window check accepts exactly the windows over which the peers stay the same |

## Left out

- Files: each is one atomic durable cell; modes, owners, links, fsync and digests are not modelled, and a digest is taken to identify its content.
- Transition commands: the checks that accept a preparation, activation or confirmation (capability, handshake, counters, native validation, deadlines) are one yes or no of the environment; clock values are numbers.
- Transition lock: one command writes at a time; its window for `systemctl` is the subject of ServiceOperation, and a lock that cannot be taken back is an environment failure.
- TransitionManager.Manager.ExpirePrepared: whether clients are due and whether its checks pass are yes or no; its own writes, and their undoing when they fail, are one step.
- TransitionCommands.RunCommands: a timer's rollback may run at any time, armed or not, which only adds runs.
- RestoreTransaction.Files.RestoreObfuscationBackup: promises the old state only if the steps that put things back work; what a failed undo leaves in the displaced copy is not followed.
- ConfigSet.Manager.ConfigSet: writes that put old bytes back are taken to succeed.
- ServiceOperation: `/proc` inspection is a liveness flag, and two processes never share an identity.
- Kernel rulesets: tables are lists of rules; `nft` syntax and handles beyond deletion are not modelled.
- Addresses, host numbers and dates: the Python libraries that read them are parameters with the law that a canonical spelling reads as itself.
- Word characters outside ASCII, which decide where an assignment may start, are some fixed set of which nothing is known.
- HostConfiguration.Accounts.ConfigureHost: installing files and units, and the timer, are one yes or no; that they are put back on failure is not modelled; a picture of the accounts that the caller supplies is taken to be true.
- Line numbers in parse errors, and the pairing of carriage return and line feed into one line end (the empty line between them is skipped anyway).
- Eligibility.PrepareTransitionClients: does not return the managed clients sorted by name.
- Account commands: useradd and groupadd pick some free number; what userdel does beyond removing the account and its list entries is not modelled.
- Client metadata documents (src/awgctl/contracts.py): only revision, reason, time and distribution of a regenerated profile appear, inside the transition.
- Key generation, signatures, downloads, DNS and platform probes, the wizard, health and status reports, diagnostic bundles, the confined worker, release building.
- Address allocation, port sampling and field validators other than the endpoint and custom packets: they would only add easy members.
