# Cadder daemon: a verified model

Cadder keeps one local Caddy server for many projects. Shims register projects with a daemon over
a local socket; the daemon composes one Caddy configuration out of all enabled projects, hands it
to the runtime, stores what each project wants, and answers every client truthfully whatever
fails, drains or times out meanwhile. This project models the daemon's core in Dafny and proves
what that core is for. Nothing here executes the daemon.

## How it is built

Each stage of the daemon is a value-level function named for what it leaves behind (`Drained`,
`Merged`, `Executed`, `Handled`). Code that works on live objects is a class whose methods
are proved to compute exactly that function of their old state; the theorems are about the
functions and about runs of them.

| files | what they model |
|---|---|
| `OperationFence` | the fence of a mutation: lifecycle epoch, permit, guard, all interleavings of clones |
| `Registrations`, `DomainOwnership` | registrations; the incremental and the global conflict check |
| `RouteHosts`, `RouteRewriting`, `ConfigComposition` | JSON route trees: filtering, collecting, namespacing, guarding, composing |
| `Coordinator` | what Caddy should run now |
| `RuntimeReceipts` | changing the runtime through receipts and staged files |
| `DesiredState`, `ProjectMemory` | what the database stores for a directory, and that it comes back |
| `DaemonTransactions`, `DaemonRequests`, `DaemonState` | the registration transaction, the requests, and both on live objects |
| `DaemonInvariant`, `DaemonRuns`, `RunIsolation`, `RollbackRuns` | what holds in every run |
| `DaemonEffects`, `HeartbeatCommutation` | what an answer means, and what heartbeats change |
| `TransactionOutcomes`, `RequestVerdicts`, `RequestResults` | how a transaction ends, what each request is answered and why, and what it leaves |
| `MutationSupervision`, `MutationWorker` | worker and supervisor of one mutation, and that the worker carries out requests |
| `ConnectionOwnership` | cleanup after a connection |
| `LogRetention`, `Framing`, `EndpointClaim`, `StopDeadlines` | bounded logs, framing, the endpoint's owner, stop deadlines |

Failures and interference are parameters. A `Schedule` says which calls of a transaction fail and
what other tasks do at each point where it waits: heartbeats, a revocation of its fence, the
drain. The theorems hold for all of them. Domain canonicalization, rendering, digests and UTF-8
validity are function parameters of which nothing is assumed; where a theorem needs adapters to
hand over canonical names it says so. The wall clock never goes back. A run starts with nothing
registered, nothing running and no effective file, over any stored state.

## What the code does that one might not expect

- A guard taken before the drain may publish after it (`DaemonEffects.OnlyFaultsStopAGuard`); only
  the start of a final commit is ordered before the drain.
- `try_revoke` answers `Finalized` for a committing permit that may yet end revoked
  (`OperationFences.OnlyItsGuardEndsACommit`).
- A domain listed twice by one registration is a conflict to the composer and not to the ownership
  check (`DomainOwnership.DuplicatesAreConflicts`). With a database such a registration cannot be
  stored at all, so it is never published.
- Storing fails if another directory's row still holds the id of a registration; the exact
  condition is in `DesiredState.PersistExactly`.
- The two servers share an id exactly when an `@id` of the document is `http_` followed by another
  of its ids (`RouteHosts.CopiesShareAnId`).
- A registration that could not be adapted is accepted and published all the same, as a failed state that
  changes nothing for the runtime; its fence is checked only at the guard (`RequestVerdicts.AcceptedExactly`).
- A top-level route that names no enabled host is dropped, even one that tests no host at all, and
  a host list loses whatever is not a string.

## Model

| member | source | states |
|---|---|---|
| OperationFences.LifecycleEpoch.BeginDrain | crates/cadder-daemon/src/operation_fence.rs:75-88 | Draining advances the epoch once, cancels the lifecycle token once, and is idempotent; the epoch is answered. |
| OperationFences.LifecycleEpoch.Issue | crates/cadder-daemon/src/operation_fence.rs:61-73 | A fence of the current epoch with an active permit of its own, unless the authority is draining. |
| OperationFences.OperationFence.TryRevoke | crates/cadder-daemon/src/operation_fence.rs:107-118 | Revokes and cancels an active permit only; `Finalized` is answered for a finalized permit and for a committing one. |
| OperationFences.OperationFence.Complete | crates/cadder-daemon/src/operation_fence.rs:120-125 | Finalizes an active permit and leaves any other as it is. |
| OperationFences.OperationFence.Commit | crates/cadder-daemon/src/operation_fence.rs:127-142 | Which rejection, if any, stops a commit: stale epoch, drain, then the permit, in that order; the permit is untouched. |
| OperationFences.OperationFence.BeginFinalCommit | crates/cadder-daemon/src/operation_fence.rs:148-167 | A guard exactly when the commit is admitted, and then the permit is committing; otherwise the rejection and no change. |
| OperationFences.FinalCommitGuard.Commit | crates/cadder-daemon/src/operation_fence.rs:177-182 | Finalizes the permit the guard shares with its fence. |
| OperationFences.FinalCommitGuard.Drop | crates/cadder-daemon/src/operation_fence.rs:185-196 | A guard dropped before it commits revokes its permit and cancels; after a commit, dropping changes nothing. |
| OperationFences.SettledPermitsAbsorb | crates/cadder-daemon/src/operation_fence.rs:107-196 | Over all interleavings of clones, drain and other fences, a finalized or revoked permit never changes again. |
| OperationFences.EveryRunIsFenced | crates/cadder-daemon/src/operation_fence.rs:60-196 | In every run a fence issues at most one final-commit guard, and is cancelled exactly when it is revoked or the authority drains. |
| OperationFences.DrainClosesAdmission | crates/cadder-daemon/src/operation_fence.rs:61-167 | After drain nothing is issued and neither a commit nor a final commit starts; the `Draining` rejection inside a commit is never seen in any run. |
| OperationFences.OnlyItsGuardEndsACommit | crates/cadder-daemon/src/operation_fence.rs:107-118 | A committing permit answers `Finalized` to revocation, yet ends revoked exactly when its guard is dropped before it commits, whatever else happens in between. |
| OperationFences.ActionsFollowThePermit | crates/cadder-daemon/src/operation_fence.rs:107-196 | At every reachable point what each action of a fence does and answers follows from its permit and the drain alone, and it touches no other fence. |
| OperationFences.FencesAreIssued | crates/cadder-daemon/src/operation_fence.rs:61-73 | In every run a fence of the current epoch is issued, active and not cancelled, exactly until the drain. |
| Registrations.ActiveDomainsExactly | crates/cadder-daemon/src/caddy/configuration.rs:615-622 | A domain of a registration is active by its own state alone: registered, activating or active. |
| DomainOwnership.OwnershipCheckIsExact | crates/cadder-daemon/src/state/registrations.rs:693-733 | The check of one registration is silent exactly when nobody else owns one of its enabled domains; otherwise it names the first such domain that the registration lists, and someone else who owns it. |
| DomainOwnership.DetectConflicts | crates/cadder-daemon/src/caddy/configuration.rs:749-781 | The owner table built entry by entry yields one diagnostic per contested domain, in order. |
| DomainOwnership.ConflictsNameTheContested | crates/cadder-daemon/src/caddy/configuration.rs:766-780 | A diagnostic is reported exactly for a domain with more than one claimant, with the configurations of all its claimants. |
| DomainOwnership.ReportedExactly | crates/cadder-daemon/src/caddy/configuration.rs:749-781 | What is reported of a registry is exactly its conflicts: each domain claimed more than once, with the configuration of every claimant as often as it lists the domain, in the order of ids. |
| DomainOwnership.GlobalCheckIsExact | crates/cadder-daemon/src/caddy/configuration.rs:749-781 | No conflict is detected in a registry exactly when it has single owners and nobody lists a domain twice. |
| DomainOwnership.IncrementalCheckIsGlobal | crates/cadder-daemon/src/state/registrations.rs:693-733 | If the others are free of conflicts, the whole registry is exactly when the check of the candidate is silent and the candidate lists no domain twice. |
| DomainOwnership.DuplicatesAreConflicts | crates/cadder-daemon/src/caddy/configuration.rs:749-781 | A registration that lists one domain twice passes the ownership check and is a conflict all the same. |
| RouteHosts.FilteringPreservesMeaning | crates/cadder-daemon/src/caddy/configuration.rs:633-663 | For every tree and every set of enabled hosts, each host test answers as before for an enabled host and refuses every other. |
| RouteHosts.FilteringComposes | crates/cadder-daemon/src/caddy/configuration.rs:633-663 | Filtering by one set and then by another is filtering by their intersection. |
| RouteHosts.FlagIsAboutTestedHosts | crates/cadder-daemon/src/caddy/configuration.rs:624-663 | A route is retained exactly when some host test of it accepts an enabled host. |
| RouteHosts.FilteredNamesExactly | crates/cadder-daemon/src/caddy/configuration.rs:633-732 | The hosts collected from a filtered tree are exactly the enabled ones that a test of the original accepts. |
| RouteHosts.SurvivingRoutesNameAHost | crates/cadder-daemon/src/caddy/configuration.rs:624-631 | A route survives exactly when what is left of it still names a host, and it names enabled hosts only. |
| RouteHosts.CollectedHostsCoverTheTests | crates/cadder-daemon/src/caddy/configuration.rs:665-732 | Every host that a test accepts is extracted, so none goes unregistered. |
| RouteHosts.NamespacingPrefixesEveryId | crates/cadder-daemon/src/caddy/configuration.rs:455-472 | At every place of a tree the copy has an id exactly where the original has one, and it is the prefixed one. |
| RouteHosts.NamespacingChangesOnlyIds | crates/cadder-daemon/src/caddy/configuration.rs:455-472 | With ids blanked out, a tree and its copy are equal. |
| RouteHosts.CopiesShareAnId | crates/cadder-daemon/src/caddy/configuration.rs:455-472 | A tree and its copy share an id exactly when one id of the tree is the prefix followed by another; distinct ids stay distinct. |
| RouteRewriting.FilterHostsRecursive | crates/cadder-daemon/src/caddy/configuration.rs:633-663 | The walk with its retain loop computes the filtered tree and raises the flag exactly when a host is retained. |
| RouteRewriting.RetainedStringsStay | crates/cadder-daemon/src/caddy/configuration.rs:650-653 | Walking into a host list after it has been filtered changes nothing and raises no flag. |
| RouteRewriting.CollectHostsInto | crates/cadder-daemon/src/caddy/configuration.rs:711-732 | Adds exactly the hosts of the tree to those collected so far. |
| RouteRewriting.NamespaceConfigIds | crates/cadder-daemon/src/caddy/configuration.rs:455-472 | The recursive walk computes the namespaced copy. |
| ConfigComposition.ComposeConfig | crates/cadder-daemon/src/caddy/configuration.rs:474-541 | The loop over registrations builds the specified configuration: guarded routes for HTTPS, their namespaced copies for HTTP, all enabled hosts as TLS subjects. |
| ConfigComposition.ServersShareAnId | crates/cadder-daemon/src/caddy/configuration.rs:509-541 | In the document the HTTP server has an id exactly where the HTTPS server has one, with `http_` before it, and differs in nothing else; some id occurs in both exactly when an id of the HTTPS routes is `http_` followed by another of them. |
| ConfigComposition.ServersListenApart | crates/cadder-daemon/src/caddy/configuration.rs:515-526 | The servers listen on loopback only, HTTP on port 80, HTTPS on port 443 with TLS; they share no address. |
| ConfigComposition.GuardAcceptsItsHosts | crates/cadder-daemon/src/caddy/configuration.rs:543-556 | A guard accepts exactly the enabled hosts of its registration. |
| ConfigComposition.OwnersAreServed | crates/cadder-daemon/src/caddy/configuration.rs:474-519 | In a conflict-free composition a host goes to its owner's guard, or nowhere if the owner has no route left, and to nobody else. |
| ConfigComposition.StrangersAreNotServed | crates/cadder-daemon/src/caddy/configuration.rs:474-519 | A host that nobody enabled goes nowhere. |
| ConfigComposition.CompositionIsolates | crates/cadder-daemon/src/caddy/configuration.rs:474-541 | The composed document isolates owners in both servers; the HTTP server answers with the namespaced copy of the HTTPS answer. |
| ConfigComposition.CertificatesCoverTheHosts | crates/cadder-daemon/src/caddy/configuration.rs:527-537 | Certificates are asked for exactly the enabled hosts, of the internal issuer. |
| ConfigComposition.OneGuardApplies | crates/cadder-daemon/src/caddy/configuration.rs:543-556 | Since every guard is terminal, no request gets past one guard, even where hosts overlapped. |
| ConfigComposition.HostsReachTheirOwnersRoutes | crates/cadder-daemon/src/caddy/configuration.rs:474-556 | What a request reaches: in the HTTPS server exactly the surviving routes of the host's owner, in the HTTP server their namespaced copies, and they answer as the owner's source routes do. |
| ConfigComposition.OrderIsImmaterial | crates/cadder-daemon/src/caddy/configuration.rs:474-541 | Reordering the registrations changes the answer for no host in either server, and no certificate. |
| ConfigComposition.SubroutesAnswerAsWritten | crates/cadder-daemon/src/caddy/configuration.rs:484-491 | For an enabled host, what a guard contains answers as the surviving source routes do, in order. |
| ConfigComposition.PlaceholdersCoverTheHosts | crates/cadder-daemon/src/caddy/configuration.rs:493-504 | Without routes of its own a registration has a terminal placeholder for each of its enabled hosts and for no other. |
| Coordinator.CaddyConfigCoordinator.CommitPreparedRegistration | crates/cadder-daemon/src/caddy/configuration.rs:267-305 | A registration moves between routes and diagnostics; diagnostics without a path get the source path, and the state turns failed. |
| Coordinator.CaddyConfigCoordinator.BeginApply | crates/cadder-daemon/src/caddy/configuration.rs:307-369 | Forgets the unregistered, then decides between failed, stop and apply, with the rendering and digest of the composition. |
| Coordinator.CaddyConfigCoordinator.FinishIdle | crates/cadder-daemon/src/caddy/configuration.rs:371-380 | The idle state: no hash, and the last reload time kept. |
| Coordinator.CaddyConfigCoordinator.FinishRuntimeApply | crates/cadder-daemon/src/caddy/configuration.rs:382-415 | The applied state with its hash, or the failed one that keeps hash and reload time. |
| Coordinator.BeginApplyDecides | crates/cadder-daemon/src/caddy/configuration.rs:307-369 | With single owners, the decision is failed exactly for trouble (an enabled registration undeployable, or a domain listed twice), stop exactly when nothing is enabled otherwise. |
| Coordinator.FailedStatesNameTheTrouble | crates/cadder-daemon/src/caddy/configuration.rs:321-345 | A failed state lists exactly the diagnostics of the enabled registrations and the conflicts of the registry, and keeps hash and reload time; any other decision means that there are none. |
| Coordinator.AppliesNameTheirConfigurations | crates/cadder-daemon/src/caddy/configuration.rs:358-368 | A configuration to apply names exactly the configuration files of the enabled registrations. |
| RuntimeReceipts.MockCaddyRuntime.CreateCandidate | crates/cadder-daemon/src/runtime_file.rs:136-158 | The first free one among at most eight candidate names (`FreshNameIsFirst`). |
| RuntimeReceipts.MockCaddyRuntime.Stage | crates/cadder-daemon/src/runtime_file.rs:24-43 | Writes a candidate file, or drops it again when writing fails. |
| RuntimeReceipts.MockCaddyRuntime.Promote | crates/cadder-daemon/src/runtime_file.rs:49-64 | Installs the candidate as effective; it stays installed when only finalizing fails. |
| RuntimeReceipts.MockCaddyRuntime.DropStaged | crates/cadder-daemon/src/runtime_file.rs:67-73 | An unpromoted candidate is removed, unless removal fails. |
| RuntimeReceipts.MockCaddyRuntime.RestoreEffectiveConfig | crates/cadder-daemon/src/runtime_file.rs:88-99 | Stages and promotes the previous file, or removes the effective one. |
| RuntimeReceipts.MockCaddyRuntime.RemoveEffectiveConfig | crates/cadder-daemon/src/runtime_file.rs:261-272 | Removes the effective file if there is one; its removal stands when only finalizing fails. |
| RuntimeReceipts.MockCaddyRuntime.BeginApplyConfig | crates/cadder-daemon/src/runtime/mock_runtime.rs:45-64 | A receipt with the staged file and everything needed to go back. |
| RuntimeReceipts.MockCaddyRuntime.BeginStop | crates/cadder-daemon/src/runtime/mock_runtime.rs:97-110 | Stops, with a receipt of what ran and was served before. |
| RuntimeReceipts.MockCaddyRuntime.Accept | crates/cadder-daemon/src/runtime/mock_runtime.rs:122-147 | Promotes and marks the runtime running, or removes the effective file. |
| RuntimeReceipts.MockCaddyRuntime.Rollback | crates/cadder-daemon/src/runtime/mock_runtime.rs:130-153 | Restores the effective file, then the flags; an unpromoted candidate is dropped either way. |
| RuntimeReceipts.MockCaddyRuntime.ApplyConfig | crates/cadder-daemon/src/runtime.rs:55-77 | Begin, then accept or roll back, in the source's order. |
| RuntimeReceipts.ApplyConfigIsAllOrNothing | crates/cadder-daemon/src/runtime.rs:55-77 | Applying either serves the new file, or serves what was served before, or reports that going back failed; no staged file stays unless its removal failed. |
| RuntimeReceipts.RollbackRestores | crates/cadder-daemon/src/runtime/mock_runtime.rs:122-153 | Wherever acceptance stopped, a successful rollback restores what ran and was served, and leaves no staged file. |
| RuntimeReceipts.AcceptingStaysATransition | crates/cadder-daemon/src/runtime/mock_runtime.rs:122-147 | After acceptance, successful or not, the receipt still leads back; success serves exactly the staged file, or none. |
| RuntimeReceipts.NoReceiptNoChange | crates/cadder-daemon/src/runtime/mock_runtime.rs:45-110 | A receipt that could not be obtained has changed nothing. |
| RuntimeReceipts.FreshNameIsFirst | crates/cadder-daemon/src/runtime_file.rs:136-158 | The candidate name found is the first that no file has. |
| RuntimeReceipts.ReceiptsExactly | crates/cadder-daemon/src/runtime/mock_runtime.rs:45-110 | A receipt is obtained exactly when the effective file could be read and, to apply, one of the first eight names is free and its file created and written. |
| RuntimeReceipts.AcceptsExactly | crates/cadder-daemon/src/runtime/mock_runtime.rs:122-147 | From any transition, acceptance succeeds exactly when the staged file is installed and finalized, or when there is nothing to remove or its removal is finalized. |
| RuntimeReceipts.AcceptedInVain | crates/cadder-daemon/src/runtime_file.rs:49-64 | If only finalizing fails, the new file is in place, or the old one gone, while what is marked as running has not changed; if installing or removing fails, the effective file is as before. |
| RuntimeReceipts.RollbackExactly | crates/cadder-daemon/src/runtime/mock_runtime.rs:130-153 | A rollback succeeds exactly when the previous file can be staged, installed and finalized, or, without one, the effective file removed; dropping its candidate cannot fail it. |
| RuntimeReceipts.ApplyConfigExactly | crates/cadder-daemon/src/runtime.rs:55-77 | Applying succeeds exactly when nothing on its way fails: reading, staging, the outcome, promoting. |
| DesiredState.DesiredStateStore.PersistDesiredState | crates/cadder-daemon/src/database.rs:190-238 | The whole batch in one transaction, or no change at all. |
| DesiredState.DesiredStateStore.RestoreDesiredState | crates/cadder-daemon/src/database.rs:153-188 | The stored activation of the directory and of each stored domain replaces what was asked for. |
| DesiredState.PersistExactly | crates/cadder-daemon/src/database.rs:190-238 | Storing succeeds exactly when every registration lists distinct domains and its id sits in no other directory's row not yet overwritten; then each directory holds its last registration and no other row changes. |
| DesiredState.StoringExactly | crates/cadder-daemon/src/database.rs:190-238 | A registry can be stored exactly when everyone lists distinct domains and no other directory's row holds someone's id unless a smaller id writes that row first. |
| DesiredState.StoredRegistryAgrees | crates/cadder-daemon/src/database.rs:190-238 | After storing a registry each working directory holds the state of its greatest id, and directories it does not mention are as before. |
| DesiredState.RestoreReadsTheRow | crates/cadder-daemon/src/database.rs:153-188 | A row restores the activation it was stored with, domain by domain. |
| DesiredState.RestoringIsExact | crates/cadder-daemon/src/database.rs:153-188 | Restoring changes activations alone: without a row nothing, with one the entrypoint's and those of the domains that the row knows. |
| DesiredState.DesiredStateSurvivesUnregistration | crates/cadder-daemon/src/database.rs:153-238 | Stored, unregistered and registered again, a project alone in its directory has the activation it had. |
| ProjectMemory.ProjectsComeBack | crates/cadder-daemon/src/database.rs:153-238 | The same over whole runs: whatever happens while nobody is registered from that directory, the next accepted registration from there comes back as the project left. |
| DaemonStates.DaemonState.MergeLiveHeartbeats | crates/cadder-daemon/src/state/registrations.rs:533-551 | The loop over the candidate takes the later heartbeat wherever the live registration has the same nonce. |
| DaemonStates.DaemonState.ApplyRuntimeTransition | crates/cadder-daemon/src/state/registrations.rs:159-214 | On the live objects: the fence check, the receipt and the rollback, exactly as the transition's specification says. |
| DaemonStates.DaemonState.Publish | crates/cadder-daemon/src/state/registrations.rs:108-157 | On the live objects: merge, guard, accept, persist and publish, or drop the guard and roll back. |
| DaemonStates.DaemonState.ExecuteRegistrationTransaction | crates/cadder-daemon/src/state/registrations.rs:108-157 | The candidate coordinator and registrations become the daemon's, or are dropped, as specified for every schedule of failures and interference. |
| DaemonStates.DaemonState.RollbackRuntimeTransition | crates/cadder-daemon/src/state/registrations.rs:602-622 | A rollback that fails begins the drain and requests shutdown. |
| DaemonStates.DaemonState.RegisterFenced | crates/cadder-daemon/src/state/registrations.rs:27-106 | Registration on the live objects computes the specified state, fence and answer. |
| DaemonStates.DaemonState.UnregisterFenced | crates/cadder-daemon/src/state/registrations.rs:227-287 | The same for unregistering. |
| DaemonStates.DaemonState.HeartbeatFenced | crates/cadder-daemon/src/state/registrations.rs:328-359 | The same for a heartbeat. |
| DaemonStates.DaemonState.SetEntrypointEnabledFenced | crates/cadder-daemon/src/state/registrations.rs:375-445 | The same for enabling or disabling an entrypoint. |
| DaemonStates.DaemonState.SetDomainEnabledFenced | crates/cadder-daemon/src/state/registrations.rs:458-530 | The same for enabling or disabling a domain. |
| DaemonTransactions.TransactionsAreAllOrNothing | crates/cadder-daemon/src/state/registrations.rs:108-214 | If a transaction fails at any step, registrations (heartbeats aside), coordinator, stored state, runtime and effective file are as before, or a failed rollback has begun the drain and requested shutdown. |
| DaemonTransactions.RollingBackIsNothing | crates/cadder-daemon/src/state/registrations.rs:602-622 | Rolling back from the middle of a transition undoes it, or requests shutdown. |
| DaemonTransactions.PublishedMeansFinalized | crates/cadder-daemon/src/state/registrations.rs:108-157 | A transaction publishes exactly when it leaves its fence finalized; a failed one leaves it active or revoked. |
| DaemonTransactions.TransactionsLoseNoHeartbeat | crates/cadder-daemon/src/state/registrations.rs:116-140 | Whether it publishes or fails, no registration with the same nonce falls behind an accepted heartbeat. |
| HeartbeatCommutation.HeartbeatsCommute | crates/cadder-daemon/src/state/registrations.rs:116-140 | With all heartbeats removed from its schedule a transaction has the same outcome, and the same state but for last heartbeats. |
| TransactionOutcomes.InterferenceIsTold | crates/cadder-daemon/src/state/registrations.rs:108-157 | What a fence is told after any events: stale once the drain has begun, else revoked if anyone revoked it, else nothing. |
| TransactionOutcomes.ExecutedExactly | crates/cadder-daemon/src/state/registrations.rs:108-214 | The outcome of a transaction, failure by failure, from its candidate, fence and schedule alone: rejected, refused by the runtime or by storage, whichever comes first, and published otherwise. |
| TransactionOutcomes.PublishesExactly | crates/cadder-daemon/src/state/registrations.rs:108-214 | A transaction publishes if and only if it was admitted and undisturbed up to the guard, the receipt was obtained, Caddy took the configuration and acceptance succeeded (or nothing changes for the runtime), and the registry could be stored. |
| RequestVerdicts.AnsweredAsFound | crates/cadder-daemon/src/state/registrations.rs:27-531 | The answer to each of the five requests is the one that the registry, the fence and the schedule call for: which refusal, for which missing condition, with which conflict, and acceptance when none is missing. |
| RequestVerdicts.AcceptedExactly | crates/cadder-daemon/src/state/registrations.rs:27-531 | Each request is accepted if and only if the registry lets it through, its fence was admitted and undisturbed up to the guard, and no call of its transaction failed. |
| RequestVerdicts.EveryRunAnswersAsFound | crates/cadder-daemon/src/state/registrations.rs:27-531 | So it is in every run, for every fence ever issued. |
| RequestResults.AcceptedPlan | crates/cadder-daemon/src/caddy/configuration.rs:267-320 | What an accepted request leaves to compose from: the routes of its own adapter, or its diagnostics with their paths filled in; for whoever else stays what was there; for nobody else anything. |
| RequestResults.AcceptedState | crates/cadder-daemon/src/caddy/configuration.rs:307-415 | The state that an accepted request publishes: its own attempt, a reload time only if it was applied, and diagnostics exactly if it failed: those of the registrations published with it. |
| RequestResults.RegisteredNow | crates/cadder-daemon/src/state/registrations.rs:64-92 | An accepted registration is created at what the clock showed when it was prepared, and its last heartbeat is no earlier. |
| RequestResults.OthersAreHeard | crates/cadder-daemon/src/state/registrations.rs:328-346 | Heartbeats that others send for a registered session while a request waits are heard, as long as no drain has begun. |
| DaemonEffects.PublishedWasAdmitted | crates/cadder-daemon/src/state/registrations.rs:108-157 | What is published was admitted when the transaction began, and neither revoked nor overtaken by the drain before the guard was taken. |
| DaemonEffects.OnlyFaultsStopAGuard | crates/cadder-daemon/src/state/registrations.rs:117-133 | Once the guard is taken, neither revocation nor drain changes what is published. |
| DaemonEffects.AcceptedHasDone | crates/cadder-daemon/src/state/registrations.rs:27-531 | An accepted request was admitted and has changed the registry as it asked and in no other way, heartbeats aside. |
| DaemonEffects.FencedIsRejected | crates/cadder-daemon/src/state/registrations.rs:227-531 | A request other than a registration that is not admitted when it starts is rejected as such and touches nothing. |
| DaemonEffects.RefusedIsUntouched | crates/cadder-daemon/src/state/registrations.rs:27-531 | Any answer but an acceptance, under whatever fence, leaves the daemon untouched. |
| DaemonEffects.HandlingIsHonest | crates/cadder-daemon/src/state/registrations.rs:27-531 | An acceptance comes with a finalized fence; any other answer leaves the daemon untouched and, but for heartbeats, a fence that has not published. |
| DaemonEffects.WithDomainExactly | crates/cadder-daemon/src/state/registrations.rs:475-489 | The first domain that matches the key up to ASCII case changes, and it alone; none is found exactly when none matches. |
| DaemonEffects.CaseIsIgnoredExactly | crates/cadder-daemon/src/state/registrations.rs:475-489 | Two names match exactly when they differ in the case of ASCII letters at most. |
| DaemonEffects.TimesAreRecorded | crates/cadder-daemon/src/caddy/configuration.rs:307-415 | A published transaction records its attempt, and a reload time only when a configuration was applied. |
| DaemonInvariants.ApplyingKeepsTheHash | crates/cadder-daemon/src/caddy/configuration.rs:417-448 | Outside a transaction too, after applying a configuration the hash is that of the effective file, taken or restored, and the state is applied exactly if it was taken. |
| DaemonInvariants.RequestsProposeCandidates | crates/cadder-daemon/src/state/registrations.rs:27-531 | What any request hands to its transaction has single owners, routes or diagnostics for every registration, and heartbeats no older than those heard. |
| DaemonInvariants.HandlingKeepsInv | crates/cadder-daemon/src/state/registrations.rs:27-531 | Every request, under any interference and any failure, keeps the whole invariant of the published state. |
| DaemonInvariants.HandlingKeepsSessions | crates/cadder-daemon/src/state/registrations.rs:680-691 | No request hands an id to another session. |
| DaemonRuns.SingleOwnerInEveryRun | crates/cadder-daemon/src/state/registrations.rs:27-733 | In every run no two enabled registrations share an enabled domain, and every key is its registration's id. |
| DaemonRuns.ServedEqualsPublished | crates/cadder-daemon/src/caddy/configuration.rs:307-415 | In every run, unless a rollback has failed: status, hash and effective file are exactly those of the published registrations; with a database, failed means adapter diagnostics and nothing else. |
| RollbackRuns.WorkingRollbacksServe | crates/cadder-daemon/src/state/registrations.rs:602-622 | By the inputs alone: if in every schedule the calls of a rollback can succeed, shutdown is never requested, no staged file stays, and what is served is what is published. |
| DaemonRuns.PublishedStateAgrees | crates/cadder-daemon/src/caddy/configuration.rs:267-369 | In every run routes and diagnostics partition the registered ids, and the stored desired state agrees with what is published. |
| DaemonRuns.NoRunComposesPlaceholders | crates/cadder-daemon/src/caddy/configuration.rs:487-504 | In every run, whatever request comes next: if its transaction is to apply a configuration, every enabled registration of the candidate has routes. |
| DaemonRuns.AppliedMeansRouted | crates/cadder-daemon/src/caddy/configuration.rs:487-504 | In every applied state of every run every enabled registration has routes. |
| DaemonRuns.SessionsLast | crates/cadder-daemon/src/state/registrations.rs:27-106 | While an id stays registered its session nonce never changes. |
| DaemonRuns.AcceptedHeartbeatsLast | crates/cadder-daemon/src/state/registrations.rs:328-346 | Once a heartbeat is accepted, whoever later holds that id under that nonce is at least as fresh. |
| RunIsolation.EveryRunIsolates | crates/cadder-daemon/src/caddy/configuration.rs:474-556 | In every run whose adapters hand over canonical names, in every applied state, the effective file leads each host to its one owner's routes, and a host nobody owns nowhere. |
| RunIsolation.RunKeepsCanonical | crates/cadder-daemon/src/state/registrations.rs:27-531 | Names stay canonical, enabled or not: neither restoring nor any request changes them. |
| MutationSupervision.WriteOwnedMutationResult | crates/cadder-daemon/src/ipc/supervision.rs:478-514 | In time the fence is completed and the response sent; late, the outcome of revocation decides between response, timeout and silence. |
| MutationSupervision.SettleTimeout | crates/cadder-daemon/src/ipc/supervision.rs:453-473 | On timeout the outcome of revocation decides between a timeout reply, waiting for the worker, and silence. |
| MutationSupervision.SettleDrain | crates/cadder-daemon/src/ipc/supervision.rs:419-439 | On drain a finalized fence is awaited; otherwise the client is told of the shutdown. |
| MutationSupervision.DeadlinesAreSettled | crates/cadder-daemon/src/ipc/supervision.rs:453-473 | At every reachable point past the deadline: the client is told of the timeout exactly if the permit is active, which is then revoked; a committing or finalized one is awaited; one revoked before is left in silence. |
| MutationSupervision.DrainsAreSettled | crates/cadder-daemon/src/ipc/supervision.rs:419-439 | On drain the client is told of it over a fence that is or becomes revoked; a committing or finalized one is awaited. |
| MutationSupervision.AnswersAreSettled | crates/cadder-daemon/src/ipc/supervision.rs:478-514 | A worker's answer reaches the client as it is when in time, awaited or finalized; late over an active permit as a timeout, over one revoked before not at all; a worker without an answer leaves no reply. |
| MutationSupervision.StartsAndCancellationsAreSettled | crates/cadder-daemon/src/ipc/supervision.rs:263-300 | A refused start is told to the client over a revoked fence; a started one races; cancellation makes the supervision wait for its worker; bytes that follow change nothing for it. |
| MutationSupervision.WorkersFollowTheFence | crates/cadder-daemon/src/ipc/supervision.rs:246-262 | At every reachable point the worker takes the guard exactly with an active permit before the drain and otherwise rolls back with the rejection it was told; noticing cancellation revokes an active permit only. |
| MutationSupervision.RepliesAreTruthful | crates/cadder-daemon/src/ipc/supervision.rs:171-514 | In every interleaving of worker, supervisor, deadline, drain and abort: at most one correlated reply; after a refusal the mutation is not and never will be published, after an acceptance it is published exactly once. |
| MutationWorkers.WorkersCarryOutRequests | crates/cadder-daemon/src/ipc/supervision.rs:246-270 | For every daemon, active fence, request and schedule the worker has a run that ends with the request's answer, fence and lifecycle, and publishes exactly when the request is accepted. |
| MutationWorkers.RepliesAreTrueOfTheDaemon | crates/cadder-daemon/src/ipc/supervision.rs:171-514 | In any interleaving whose worker ends as the request does: an acceptance means that the registry has changed as asked, any other reply that the daemon is untouched. |
| MutationWorkers.AnswersAreToldAndTrue | crates/cadder-daemon/src/ipc/supervision.rs:171-514 | That answer can be told to the client, and it is true of the daemon: accepted means done as asked, anything else means untouched. |
| MutationSupervision.RefusalsHaveReasons | crates/cadder-daemon/src/ipc/supervision.rs:171-514 | A timeout is sent only after the deadline, by a settlement that itself revoked an active permit; a shutting-down notice only on drain or before a worker exists, over a revoked fence; an orderly supervision is silent only after a rejected commit, a panic, or a deadline over a fence revoked before the settlement. |
| MutationSupervision.PublishedIsReported | crates/cadder-daemon/src/ipc/supervision.rs:171-514 | A published mutation whose supervision ends in order has been answered with acceptance, however late, unless its worker panicked after publishing; it is never answered with anything else. |
| ConnectionOwnerships.ConnectionOwnership.BeginMutation | crates/cadder-daemon/src/ipc/authorization.rs:89-99 | A mutation is admitted and counted, unless the connection is disconnected. |
| ConnectionOwnerships.ConnectionOwnership.DropGuard | crates/cadder-daemon/src/ipc/authorization.rs:71-86 | The last guard after the disconnect notifies, and no other. |
| ConnectionOwnerships.ConnectionOwnership.TakeIfIdle | crates/cadder-daemon/src/ipc/authorization.rs:127-138 | Takes all entries exactly when no mutation is active. |
| ConnectionOwnerships.GuardsAreExact | crates/cadder-daemon/src/ipc/authorization.rs:71-138 | At every reachable point a mutation is admitted exactly until the disconnect, with a guard of its own; a live guard's changes count, dropping it releases it alone, and the cleanup takes the entries exactly when none is left. |
| ConnectionOwnerships.CleanupMissesNothing | crates/cadder-daemon/src/ipc/connection.rs:252-284 | In every interleaving the cleanup takes exactly what was inserted and not removed, and nothing is inserted afterwards. |
| ConnectionOwnerships.CleanupFinishes | crates/cadder-daemon/src/ipc/authorization.rs:71-140 | A sleeping cleanup with no mutation active is owed its wake-up by a guard that has let go of the lock; once the guards are dropped and have notified, the cleanup takes its entries. |
| ConnectionOwnerships.SleepingWhileOwed | crates/cadder-daemon/src/ipc/authorization.rs:71-86 | The window between the lock and the notification is real: the cleanup sleeps in it with nobody active. |
| LogRetention.CaddyLogStore.Append | crates/cadder-daemon/src/logs.rs:133-189 | The log is the longest suffix of its history within both limits, per-key counts are true, and the decrement never saturates. |
| LogRetention.CaddyLogStore.Query | crates/cadder-daemon/src/logs.rs:191-232 | The last retained entries of the stream, up to the limit, in the order of the log, and the status that they imply. |
| LogRetention.FoundIsTheEndOfTheStream | crates/cadder-daemon/src/logs.rs:191-256 | What is found lies at increasing places of the log whose id, channel and domain are the stream's, at most the limit; if a place of the stream is missing there are exactly so many, all later. |
| LogRetention.StatusTells | crates/cadder-daemon/src/logs.rs:220-231 | The status says whether anything of the stream is retained, and whether its source is active. |
| LogRetention.KeptIsLongest | crates/cadder-daemon/src/logs.rs:168-186 | No longer suffix of the history is within the limits. |
| LogRetention.DatabaseKeepsAtLeastThat | crates/cadder-daemon/src/database.rs:251-292 | With equal limits, what the in-memory log keeps is the end of what the database keeps. |
| LogRetention.NewestCounts | crates/cadder-daemon/src/database.rs:274-283 | The delete by key takes from its own key alone, and leaves as many as the limit allows. |
| LogRetention.RowsAreWithin | crates/cadder-daemon/src/database.rs:274-292 | The database stays within both limits, by default five thousand rows and a thousand of each key. |
| Framing.BoundedNdjsonCodec.Decode | crates/cadder-daemon/src/ipc_codec.rs:119-140 | One call on the live codec and buffer does what is specified, and leaves the CR cache and the line cursor in step. |
| Framing.BoundedNdjsonCodec.DecodeEof | crates/cadder-daemon/src/ipc_codec.rs:142-148 | At the end of the stream an unfinished line is an error. |
| Framing.BoundedNdjsonCodec.Encode | crates/cadder-daemon/src/ipc_codec.rs:154-168 | Exactly the frames within the limit and without CR or LF are written, with one LF; anything else poisons the codec, writes nothing, and is answered with its error: poisoned, too long, or a delimiter inside. |
| Framing.EncodeJsonFrame | crates/cadder-daemon/src/ipc_codec.rs:71-113 | A frame is produced exactly when all its pieces together are within the limit. |
| Framing.DecodingIsExact | crates/cadder-daemon/src/ipc_codec.rs:119-140 | A call delivers a good first line, or waits, or fails because the first line is bad whatever follows: the cache lets no CR through. |
| Framing.FailuresAreExact | crates/cadder-daemon/src/ipc_codec.rs:119-140 | A call on a good codec fails exactly if the first line, finished or not, has a fault, and says which, wherever earlier calls have left the cursors. |
| Framing.EndsAreExact | crates/cadder-daemon/src/ipc_codec.rs:142-148 | At the end of the stream: the fault of the first line, or an unfinished line as such, or the first frame, or a clean end. |
| Framing.ChunkingIsImmaterial | crates/cadder-daemon/src/ipc_codec.rs:115-149 | However the bytes are split, the frames delivered are exactly the good lines before the first bad or unfinished one, and reading ends clean exactly when there is none. |
| Framing.NothingAfterAnError | crates/cadder-daemon/src/ipc_codec.rs:119-148 | However long a reader goes on feeding bytes and calling, every answer after the first error is an error. |
| Framing.RoundTrip | crates/cadder-daemon/src/ipc_codec.rs:115-169 | Frames that the encoder accepts come back under any split, and the stream ends clean. |
| EndpointClaim.OneLiveOwner | crates/cadder-daemon/src/ipc.rs:202-296 | For any number of processes with crashes at any step, at most one live process holds the lease, and its socket is the one at the path. |
| EndpointClaim.LiveSocketsStay | crates/cadder-daemon/src/ipc_unix_security.rs:194-198 | No step removes the socket of a live process, not even of one that is bound and does not listen yet. |
| EndpointClaim.SilenceMeansNobody | crates/cadder-daemon/src/ipc.rs:280-296 | With the claim lock held, a probe that finds nobody is right: only the holder of the lock could be bound without listening. |
| EndpointClaim.StaleFilesDoNotBlock | crates/cadder-daemon/src/ipc.rs:221-247 | With the lock free and nobody holding a socket, a file left behind never blocks: a process that is let be removes it and gets the lease, even if its first attempt is denied. |
| EndpointClaim.FreshStartsLease | crates/cadder-daemon/src/ipc.rs:217-226 | With nothing at the path and the lock free, a process that is let be binds at once and gets the lease, its socket at the path. |
| EndpointClaim.LoneProcessLeases | crates/cadder-daemon/src/ipc.rs:202-247 | From every reachable state in which nobody else is live, a process that starts gets the lease, whether or not a file was left behind. |
| EndpointClaim.UnsecuredProcessRecovers | crates/cadder-daemon/src/ipc.rs:221-247 | So does a process whose socket could not be secured at its first attempt. |
| EndpointClaim.SecondProcessYields | crates/cadder-daemon/src/ipc.rs:227-233 | While somebody serves, a process that starts ends without a lease, gives the lock back, and leaves the owner, its socket and the path as they are. |
| EndpointClaim.UncertainProcessYields | crates/cadder-daemon/src/ipc.rs:280-296 | An uncertain probe counts as an answer: the process ends without a lease and touches nothing. |
| StopDeadlines.PhasesShareTheBudget | crates/cadder-daemon/src/runtime/process.rs:58-80 | The deadlines are in order and within the overall one; the phases sum to the lesser of available and configured, in proportion, each within its configuration and its default. |
| StopDeadlines.ShutdownIsBounded | crates/cadder-daemon/src/ipc.rs:304-340 | Accepting and the handlers each get the whole of their limit, one after the other; however late the later phases start, every deadline of a shutdown and of the stop inside it stays under the sum of the limits, and no phase gets more than its budget. |
| StopDeadlines.DefaultStopFits | crates/cadder-daemon/src/runtime/process.rs:31-50 | With default limits the phases of a shutdown end after 2, 10 and at most 25 seconds, and a stop that starts in time gets its whole default budget. |

## Left out

- RouteRewriting.FilterHostsRecursive: the tree is returned changed rather than changed in place, and so are the trees of `CollectHostsInto` and `NamespaceConfigIds`; aliasing and the order of object keys are not modelled.
- RuntimeReceipts.MockCaddyRuntime.Accept: the receipts are those of the mock runtime with every fallible call failing at will; the receipts of a real Caddy process, and the log entry that acceptance appends, are not modelled.
- DaemonRuns.ServedEqualsPublished: a failed rollback ends the claim, since the daemon then requests shutdown (`RollbackRuns.WorkingRollbacksServe` says when none fails); the shutdown of runtime and storage itself (`state/shutdown.rs`) is not modelled.
- MutationSupervision.RepliesAreTruthful: a further frame that a client sends under the id of the pending request is answered as an error with that id, and is not counted as a reply to the request; the supervision of operations without a worker is not modelled.
- ConnectionOwnerships.CleanupMissesNothing: what the cleanup does with its entries is one unregistration each, which `AcceptedHasDone` covers; the registry of mutation workers, which stops spawning when closed and reports the first panic, is not modelled.
- EndpointClaim.OneLiveOwner: the probe is taken to resolve the socket's name, as the bind before it has; ownership, modes and symbolic links of the socket's directory, and named pipes on Windows, are not modelled.
- StopDeadlines.PhasesShareTheBudget: over the reals, without the rounding of `mul_f64` and of durations; waiting and killing the process are not modelled.
- Framing.BoundedNdjsonCodec.DecodeLine: states the documented contract of `LinesCodec` with its limit; its discarding mode is never reached after an error, because the codec is poisoned.
- LogRetention.CaddyLogStore.Append: the sequence number does not wrap, redaction and timestamps are left out, and with a database the entry goes there instead.
- DesiredState.DesiredStateStore.PersistDesiredState: the database call is atomic; the path on which a call times out and its real outcome is discarded (`database.rs:387-392`) is not modelled.
- OperationFences.LifecycleEpoch.BeginDrain: the epoch is unbounded, where the code stops with a panic at the end of `u64`.
- Coordinator.CaddyConfigCoordinator.BeginApply: diagnostics keep code, domain and paths, not their messages.
- DaemonInvariants.ApplyingKeepsTheHash: of `CaddyConfigCoordinator::apply` only the branch that applies a configuration; its idle stop, which logs a failure and goes on, and `shutdown` are not modelled.
- The adapters and the extraction of upstreams: `prepare` is taken to return arbitrary domains, routes and diagnostics for an unchanged id and nonce.
- `cleanup_stale_config_candidates` and the names of candidate files: which names a generator yields is arbitrary.
- Raw names, upstreams, log streams and shim metadata of a registration: no decision of the core reads them.
- Handshake, authorization, operation registry, view builders, terminal interface and command line: they would add only easy members.
