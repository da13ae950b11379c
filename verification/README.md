# Verified model of the context engine's hard core

This project models the parts of the context engine in which correctness is hardest to see, and
proves what they are for. `dafny verify dfyconfig.toml` checks everything.

**File change feed.** A tree that other processes keep changing is walked twice to get an atomic
snapshot (`FileTree`, `Snapshot`, `SnapshotAtomicity`, `SnapshotRace`, and the in-place walk in
`SnapshotWalk`; `SnapshotRest` on a tree at rest, `SnapshotPaths` on joined paths). The snapshot is
compared with a durable baseline and cut into signed pages (`ChangeFeed`, `ChangePaging`). The
Control database accepts pages into a log (`ChangeStore`), about which properties hold over every run
(`ChangeHistory`). The scan loop drives both sides (`FileScan`), finishes on a resting tree and then
is a fixed point (`ScanLiveness`); `ScanOutcome` says how every scan of a resting tree ends.
`ScannedTree` joins the two ends: what a completed scan leaves active is the tree at one instant, and
how the scan of any tree at rest ends.

**Connectors and access policy.** The File vault connector emits bounded pages and checkpoints
(`VaultSync`), and a consumer that applies them converges (`VaultConvergence`). Feishu groups, cyclic
or not, are flattened by a path-pruned search (`GroupFlattening`) on which a fail-closed ACL decision
is built (`FeishuAcl`). Source evidence is folded over the local article policy (`AccessPolicy`). The
offline twin fixture round-trips (`TwinFixture`).

**Concurrency.** Bounded calls sharing an in-flight lock (`BoundedCall`), the budget meter (`Budget`)
and budgeted query embedding that races a deadline (`BudgetedDiscovery`), the progress reporter and
its document (`WorkerProgress`) fed by the dispatch loop and its ticker thread (`DispatchLoop`) are
step systems; their theorems speak of every interleaving.

**Small exact algorithms.** Canonical base64url (`Opaque`), the bounded JSON worklist (`JsonBounds`)
and batched, reordered embedding (`Embeddings`).

`Order`, `References` and `JsonValue` hold what several of these share.

## How things are modelled

- SHA-256 over canonical JSON is an injective constructor: a digest is the document it digests, and so
  never contains itself. A signed value is one that only its signer builds; anything else is
  `Unverifiable`.
- Every system call of the walk happens at its own instant of a world that evolves between calls. The
  assumption on the file system is the one the source relies on: an identity (device, inode, times,
  size, mode) never recurs after a change.
- A thread is a sequence of atomic steps, a lock-protected section is one step, and a timeout may
  strike at any moment. A run is any sequence of steps.
- An exception is a value: `None`, `Refused`, `Fault` or an error constructor.
- `accept_file_change_page` is modelled from the SQL of migrations 0028, 0030 and 0045.
- Paths order by code point, which for valid text is the order of UTF-8 bytes.

## What the proofs showed about the code

- **The top directory of a walk is not fenced.** Every directory below is pinned by the identity its
  parent recorded, but nobody records the identity of the top one. Entries of the top directory that
  are renamed between its listing and its stats can therefore go unseen in both passes:
  `SnapshotRace.TopRaceDefeatsAtomicity` is a legal history in which the walk succeeds with no file
  although every instant has one. `SnapshotAtomicity.RecordExactlyTop` says that this is the only gap.
- **A large file stalls a source for good.** A Markdown file over `max_file_bytes` is reported as
  instability, not as a refusal, so a tree that nobody touches asks to retry for ever
  (`SnapshotRest.LargeFileRetries`; exactly when in `SnapshotRest.RestingWalk`).
- **A completed scan pins its bound.** After a completed scan, the unchanged tree under another
  `max_baseline_entries` is refused by the database, not rescanned, until the tree changes
  (`ScanLiveness.RescanEnds`, both directions).
- **Deletes cannot be replayed.** When the tree returns to a completed scan while another scan is
  open, the replayed list names that completed scan as its baseline. The return is recorded if and
  only if that scan has no deletes, and its scan is refused otherwise (`ScanOutcome.ReplayEnds`,
  reached from an empty store in `ScanOutcome.ReplayedDeleteReached`).
- **The order of observations can matter.** A private observation before disjoint groups leaves an
  article private, after them it is isolated; `AccessPolicy.OrderFreeExactly` is the exact condition.
- **Mapping claims reach beyond the request.** A group mapping claim may name an unreachable node that
  shares a granted local group (`GroupFlattening.ClaimBeyondReach`). An unresolved observation clears
  its groups and principals, but keeps every identity and group mapping claim
  (`FeishuAcl.ClaimsExactly`).
- **The checkpoint decoder is wider than its encoder.** It takes `true` and `1.0` for version 1 and
  ignores extra list elements (`VaultSync.DecoderWider`, and exactly when in
  `VaultSync.DecodeCanonical`); what it accepts is still a valid checkpoint.
- **Several checks can never fire:** the missing-slot check of the embedding batch, the final
  validation of an intersected policy, the reporter's overlap and mismatch errors under the dispatch
  loop, the canonical-form check of a progress document, and a release of a lock nobody holds.
- **A committed embedding call may not have begun.** The start mark and the provider call are two
  steps, so a commit says that the call was let through (`BudgetedDiscovery.CommitBeforeCall`). The
  call is missing exactly while the thread stands between them (`BudgetedDiscovery.SettledOnce`).

## Model

| member | source | states |
|---|---|---|
| `FileTree.Steady` | adapters/file_source.py:462-472 | An identity seen at two instants proves that the node was the same, untouched, at every instant between: identities never recur. |
| `FileTree.WriterEvolves` | adapters/file_source.py:462-472 | Every write, create, link, unlink and rename by another process is a change the snapshot theorems allow for. |
| `SnapshotWalk.Walk.TakeSnapshot` | adapters/file_source.py:484-516 | One directory snapshot: safe names in canonical order, statted one by one at their own instants; equals the specification of the theorems. |
| `SnapshotWalk.Walk.ReadRegular` | adapters/file_source.py:249-284 | Bounded chunked read between two stats of the open file; equals the specification. |
| `SnapshotWalk.Walk.Observe` | adapters/file_source.py:342-408 | The first pass over one directory, with the updates of the observed list, the snapshot table and the clock. |
| `SnapshotWalk.Walk.Confirm` | adapters/file_source.py:410-445 | The second pass over one directory, against the recorded snapshots. |
| `SnapshotWalk.Walk.ObserveMarkdownFiles` | adapters/file_source.py:286-332 | The whole in-place walk computes exactly the function the atomicity theorems are about, with its denied, unstable and over-bound outcomes. |
| `SnapshotAtomicity.ReadSound` | adapters/file_source.py:249-284 | A read that succeeds returns the whole content the file had, unchanged, between its first and last system call. |
| `SnapshotAtomicity.ObserveDirectoryWalked` | adapters/file_source.py:342-408 | Everything the first pass records was true at some instant of that pass, for the directory, its files and all directories below. |
| `SnapshotAtomicity.RevalidateSound` | adapters/file_source.py:410-445 | Every directory the second pass confirms shows the recorded entries again after the first pass ended. |
| `SnapshotAtomicity.SubtreeAtomic` | adapters/file_source.py:342-445 | From a directory whose entries are the recorded ones at an instant between the passes, the observed files below it are exactly the regular Markdown files and contents of the tree at that instant. |
| `SnapshotAtomicity.ObservationAtomic` | adapters/file_source.py:286-332 | If the top directory shows its recorded entries at the instant that opens the second pass, a successful walk returns exactly the tree at that instant, whatever other writers do. |
| `SnapshotAtomicity.AtomicWhenTopQuiet` | adapters/file_source.py:286-445 | Writers may do anything anywhere at any time; if only the top directory itself is left alone while it is listed the second time, the result is the tree at one instant. |
| `SnapshotAtomicity.RecordExactlyTop` | adapters/file_source.py:286-445 | The recorded tree is the tree at the instant if and only if the top directory, the only one no identity fences, shows its recorded entries there. |
| `SnapshotAtomicity.ObservationCanonical` | adapters/file_source.py:320-332 | The result is in canonical path order and lists each path once, even under races. |
| `SnapshotRace.TopRaceDefeatsAtomicity` | adapters/file_source.py:286-332 | A legal history in which the walk succeeds with no file although every instant has one: the top directory is not fenced. |
| `SnapshotRest.RestingWalk` | adapters/file_source.py:249-445 | On a tree at rest, with its Markdown files in walking order: the walk asks to retry if and only if one among the first max_baseline_entries + 1 is over the byte ceiling; otherwise it reports too many if and only if there are; otherwise it returns exactly the tree. |
| `SnapshotRest.CandidatesExact` | adapters/file_source.py:342-400 | The files the walk comes to read on a tree at rest are exactly its regular Markdown files, with their contents. |
| `SnapshotRest.LargeFileRetries` | adapters/file_source.py:267-277 | One Markdown file a byte over the ceiling, on a tree nobody touches, makes every walk ask to retry, under any limits. |
| `SnapshotPaths.ResultPaths` | adapters/file_source.py:286-332 | Under any race no two observed files share a joined path, so the result reads as a map from path to content. |
| `ChangeFeed.DifferenceActive` | adapters/file_source.py:797-819 | Applied to any baseline, the change list leaves exactly the observed tree active and deletes exactly the lost paths. |
| `ChangeFeed.ChangesMeaning` | adapters/file_source.py:753-819 | In both branches the list is strictly ordered by path, its upserts are exactly the observed tree and it deletes nothing that is there. |
| `ChangePaging.InitialOk` | adapters/file_source.py:594-750 | A successful opening page is bound to the list of the tree it saw, within the bound. |
| `ChangePaging.ContinueOk` | adapters/file_source.py:673-702 | A cursor is honoured only against a tree whose scan digest, bound, limit and epoch are the ones signed into it. |
| `ChangePaging.ChainSliced` | adapters/file_source.py:594-750 | Page k of any chain of cursors is slice k of one list, whatever happened to the tree between calls. |
| `ChangePaging.ChainFrozen` | adapters/file_source.py:594-750 | Any chain of successful pages concatenates to a prefix of one frozen, strictly ordered list; it is the whole list exactly when the last page says complete, and then took max(1, ceil(n / limit)) pages. |
| `ChangeHistory.AcceptExtends` | migrations/versions/20260725_0028_file_change_feed_activation.py:525-760 | Accepting a page that any reader of this or an earlier state was given leaves the log as it is or adds one row that continues the head or opens the next epoch after it. |
| `ChangeHistory.RunLogs` | migrations/versions/20260725_0028_file_change_feed_activation.py:525-760 | Every store reachable by accepted pages, other checkpoints and version changes keeps the log invariant, and the log only grows. |
| `ChangeHistory.DepthAlong` | adapters/file_source.py:898-928 | Epochs deepen strictly along the log: the same depth means the same epoch. |
| `ChangeHistory.EpochGone` | adapters/file_source.py:898-928 | Once the head has left an epoch it never returns to it, in any later state of any run. |
| `ChangeHistory.SupersededCursorRefused` | adapters/file_source.py:673-702 | A cursor of a superseded scan is refused in every later state, also when the tree is back to identical content and the scan digest recurs. |
| `ChangeHistory.BlockChanges` | migrations/versions/20260725_0030_file_delete_observations.py:669-771 | The rows of one scan, and only they, carry its epoch, and reading them back gives its list so far. |
| `ChangeHistory.CompleteEntries` | migrations/versions/20260725_0030_file_delete_observations.py:669-771 | Reading any completely accepted scan back as a baseline gives exactly the list that scan was cut from. |
| `ChangeHistory.RescanReproduces` | adapters/file_source.py:753-928 | Right after a scan completed, the same tree under the same bound reproduces its list, scan digest and epoch, for every tree and every earlier baseline. |
| `FileScan.ScanFileSource` | applications/file_scan.py:135-303 | The scan loop: ending, store, counters, schedule calls and advanced cursor are those of the specification run; the replay exit reports zero accepted changes. |
| `FileScan.ScanIsChain` | applications/file_scan.py:171-292 | The pages one scan accepts answer each other's cursors: they form one chain, closed when the scan completes. |
| `FileScan.CompletedList` | applications/file_scan.py:171-292 | A completed scan accepted exactly the list its first read compared, each change once and in order, even if the tree moved between reads. |
| `FileScan.ScanDelta` | applications/file_scan.py:171-292 | On a real difference the effective changes number exactly the paths on which baseline and tree disagree, and the deletes the lost paths. |
| `FileScan.ReportMeaning` | applications/file_scan.py:135-303 | A completed scan of a changed tree reports the observed files, the keyed difference between baseline and tree, and the lost paths. |
| `FileScan.ScheduledOnce` | applications/file_scan.py:135-157 | Every accepted page with a new or changed file gets exactly one schedule call in the run, pending ones included. |
| `ScanLiveness.SourceStartable` | migrations/versions/20260725_0030_file_delete_observations.py:669-771 | Every sound log reads back as a source the provider accepts. |
| `ScanLiveness.AcceptNext` | migrations/versions/20260725_0028_file_change_feed_activation.py:585-760 | Control accepts the page that must follow a row of the head's scan, as the row after it: a new one, or the one already there after an interruption. |
| `ScanLiveness.OpenFresh` | migrations/versions/20260725_0030_file_delete_observations.py:455-655 | The opening page of a scan the head does not serve meets every condition for acceptance and opens a new epoch after the head. |
| `ScanLiveness.OpenResume` | adapters/file_source.py:660-672 | An interrupted scan of the same tree starts again from the very first page Control already holds. |
| `ScanLiveness.ScanCompletes` | applications/file_scan.py:171-292 | From every sound log, a scan of a resting tree whose list can be recorded is accepted page by page to the end, opened anew or resumed: a real difference, or a superseded baseline without deletes. |
| `ScanLiveness.HeadIndependent` | adapters/file_source.py:773-796 | A list bound to its baseline does not move when its own pages become the head, in both branches. |
| `ScanLiveness.CurrentEnds` | applications/file_scan.py:202-228 | Scanning the tree the complete head recorded never accepts anything: the replay exit if and only if bound and page size are the same, a refusal otherwise. |
| `ScanLiveness.RescanEnds` | applications/file_scan.py:202-228 | After a completed scan, scanning the unchanged tree accepts nothing; it takes the replay exit if and only if bound and page size are still the same, and is refused otherwise. |
| `ScanLiveness.ScanThenRescan` | applications/file_scan.py:171-292 | From every reachable store: a changed resting tree is scanned in max(1, ceil(n / limit)) pages holding exactly its n changes, and the next scan is a replay. |
| `ScanLiveness.FirstScan` | applications/file_scan.py:171-292 | The first scan of any tree within the bound completes, leaves exactly that tree active, and its repetition is a replay. |
| `ScannedTree.ScanMirrorsInstant` | adapters/file_source.py:594-750 | What a completed scan leaves active is exactly the Markdown files, with digests and lengths, that the tree had at the one instant of its first walk, when the top directory was left alone while listed the second time. |
| `ScannedTree.RestingTreeScanned` | adapters/file_source.py:594-750 | A tree at rest, whatever it holds and whenever each read walks it: the scan is refused if the subtree cannot be opened, a file over the ceiling blocks the walk or there are too many; otherwise it ends as store, files, bound and page size decide. |
| `ScanLiveness.OtherBoundRefused` | migrations/versions/20260725_0030_file_delete_observations.py:553-590 | Under another bound the replayed list is bound to the older baseline while Control expects the newest complete page, so it is refused. |
| `ScanOutcome.ReplayedDeleteRefused` | migrations/versions/20260725_0030_file_delete_observations.py:500-541 | A page that repeats a delete of the very scan it names as baseline is never accepted. |
| `ScanOutcome.PagesAccepted` | applications/file_scan.py:243-250 | Every page a scan reports as accepted was admitted by a sound store that extends the one it started from, whatever the tree did. |
| `ScanOutcome.ReplayEnds` | adapters/file_source.py:773-796 | A tree that returned to a completed scan while another scan is open is scanned to the end if and only if that completed scan has no deletes, and refused otherwise. |
| `ScanOutcome.RestingScanEnds` | applications/file_scan.py:171-292 | From every sound log, for every way a resting tree can look to the reader, bound and page size in range: whether the scan completes, replays or is refused, decided by what is known before it starts. |
| `ScanOutcome.OtherLimitRefused` | applications/file_scan.py:200-201 | An interrupted scan that was cut with another page size is refused, not resumed. |
| `ScanOutcome.ReplayedDeleteReached` | adapters/file_source.py:773-796 | Scan a tree, lose a path and scan to the end, leave a third scan open, return to the second tree: from the empty store this run ends in a refusal, for every such three trees. |
| `ScanOutcome.ReplayedDeleteExample` | adapters/file_source.py:773-796 | The same with one file, none, two and none. |
| `VaultSync.CheckpointRoundTrip` | adapters/connectors/file.py:114-141 | A checkpoint decodes from its encoding exactly when it is valid. |
| `VaultSync.DecodeSound` | adapters/connectors/file.py:125-141 | Whatever decodes is valid and re-encodes to a fixed point, including the non-canonical payloads the decoder accepts. |
| `VaultSync.DecodeCanonical` | adapters/connectors/file.py:125-141 | Among accepted payloads the encoder's own are exactly those whose version is the integer 1 and whose entries are pairs and no more. |
| `VaultSync.DecoderWider` | adapters/connectors/file.py:125-141 | Every valid checkpoint is also read from payloads with version true or 1.0, or with an extra element in an entry, which the encoder never writes. |
| `VaultSync.ChangedIsDifference` | adapters/connectors/file.py:334-341 | The changed paths are exactly the keys on which checkpoint and vault disagree, each once, in order. |
| `VaultSync.FileConnectorAdapter.Generate` | adapters/connectors/file.py:345-365 | The loop over selected paths turns the prior entries into the patched ones and emits their documents and deletes, or fails on the first refused ACL observation. |
| `VaultSync.FileConnectorAdapter.LoadCheckpoint` | adapters/connectors/file.py:414-420 | Loading accepts nothing or a decodable payload, and forgets the last page. |
| `VaultSync.FileConnectorAdapter.Run` | adapters/connectors/file.py:432-489 | A run emits the specified page from the loaded checkpoint, which it leaves alone, or changes nothing. |
| `VaultConvergence.PageApplies` | adapters/connectors/file.py:318-376 | Applying a page's documents and deletes moves a consumer exactly as the page's proposal moves the checkpoint. |
| `VaultConvergence.ProposalLoads` | adapters/connectors/file.py:366-376 | Every emitted proposal loads again, as exactly the patched entries. |
| `VaultConvergence.AlwaysInStep` | adapters/connectors/file.py:318-376 | For every sequence of snapshots, malformed ones and failed runs included, the consumer holds exactly the checkpoint's path-to-digest map after every page. |
| `VaultConvergence.PageClears` | adapters/connectors/file.py:342-342 | One page clears one hundred differences or all that are left. |
| `VaultConvergence.CatchesUp` | adapters/connectors/file.py:432-489 | Once the vault rests with d differences, page k + 1 is terminal if and only if d <= 100k; from then on the consumer holds exactly the vault. |
| `GroupFlattening.Search.Visit` | adapters/connectors/feishu.py:955-983 | The recursive visit, terminating on every graph, adds exactly what its path-pruned visit calls for, and fails exactly when a member it reads cannot be looked up. |
| `GroupFlattening.VisitedComplete` | adapters/connectors/feishu.py:955-983 | Pruning along the current path loses nothing: the end of any walk that avoids the path is visited. |
| `GroupFlattening.ReachExact` | adapters/connectors/feishu.py:985-987 | The groups visited are exactly those reachable from the request, cycles included. |
| `GroupFlattening.ExpandedExact` | adapters/connectors/feishu.py:955-983 | The members of every known reachable group are read, although a group met again on its path is not expanded again. |
| `GroupFlattening.Flatten` | adapters/connectors/feishu.py:936-1029 | The accumulating search computes the artifact defined by reachability alone. |
| `GroupFlattening.FlattenFails` | adapters/connectors/feishu.py:968-976 | Flattening fails if and only if some reachable member's identity lookup does. |
| `GroupFlattening.FlattenGroups` | adapters/connectors/feishu.py:1007-1029 | Local groups and unresolved references are exactly those of the reachable set; mapping claims cover every reachable mapped node and name granted groups only. |
| `GroupFlattening.FlattenIdentities` | adapters/connectors/feishu.py:1007-1029 | Opaque and mapped identities, claims and principals are exactly those of the reachable members. |
| `GroupFlattening.ClaimBeyondReach` | adapters/connectors/feishu.py:1007-1013 | A claim may name a node nothing requested reaches, when it shares a granted local group. |
| `FeishuAcl.Observe` | adapters/connectors/feishu.py:1134-1226 | The in-place observation computes the decision function, with its raised, failed, unresolved and resolved outcomes. |
| `FeishuAcl.FailedExactly` | adapters/connectors/feishu.py:1151-1191 | The observation is failed if and only if the groups or some consulted identity could not be looked up. |
| `FeishuAcl.PolicyExactly` | adapters/connectors/feishu.py:1192-1226 | A policy kind is emitted if and only if no lookup failed and every reachable group is known and mapped; otherwise no local group and no local principal comes out. |
| `FeishuAcl.GrantsExactly` | adapters/connectors/feishu.py:1195-1226 | Which kind it is, that the groups kind lists exactly the reachable local groups, and that principals are exactly the mapped consulted identities. |
| `FeishuAcl.ClaimsExactly` | adapters/connectors/feishu.py:1188-1226 | Identity claims and opaque identities are exactly the consulted ones, and group claims exactly the nodes of reachable local groups, also when a group stays unresolved and nothing is granted. |
| `AccessPolicy.ResolveFirst` | engine/article_access_policy.py:225-253 | The cascade takes the first setting present, refuses it if invalid, and never falls through to a broader one. |
| `AccessPolicy.FloorExactly` | engine/article_access_policy.py:274-330 | The floor publishes exactly when both sides are valid and meet; the final validation never fails; rung and version stay. |
| `AccessPolicy.FloorNarrows` | engine/article_access_policy.py:256-330 | Nobody sees more after the floor than the local policy shows and the source shows. |
| `AccessPolicy.FoldNarrows` | engine/article_access_policy.py:274-330 | Over any list of observations and changing directories: visibility never widens, the rung stays while published, one unusable observation isolates for good. |
| `AccessPolicy.FoldExactly` | engine/article_access_policy.py:256-330 | Usable observations publish exactly when the local policy is private or meets all that come before the first private one; then the result is private if any side is, else exactly the shared groups or everyone. An unusable one isolates. |
| `AccessPolicy.OrderMatters` | engine/article_access_policy.py:256-330 | Two orders of the same observations give the same resolution, except that one may give PRIVATE where the other isolates. |
| `AccessPolicy.OrderFreeExactly` | engine/article_access_policy.py:256-330 | All orders of the observations agree if and only if one is unusable, none is private, the local policy is private, or all sides meet anyway. |
| `AccessPolicy.PrivateOrIsolated` | engine/article_access_policy.py:256-271 | The exception is real, with a concrete pair of orders. |
| `BoundedCall.RunKeeps` | adapters/_bounded_call.py:26-60 | Every interleaving of callers, workers, deadlines and failed starts keeps the lock invariant. |
| `BoundedCall.LockHeldExactly` | adapters/_bounded_call.py:26-60 | The lock is held exactly while one call is in flight, also after its caller timed out, and is released once per acquire, never when free. |
| `BoundedCall.ResultReleased` | adapters/_bounded_call.py:36-60 | A result is the one value the operation produced and its call no longer holds the lock; an owner is refused only for another owner's call or one it gave up on. |
| `Budget.OutstandingClose` | engine/runtime/budget.py:226-260 | Closing a reservation takes exactly its maximum out of what is outstanding, which is never negative. |
| `Budget.SettleBalanced` | engine/runtime/budget.py:226-260 | Commit and cancel keep usage, reservations and charges balanced within the budget. |
| `Budget.PackageBudgetMeter.Hold` | engine/runtime/budget.py:216-224 | A reservation is granted exactly when usage, reservations and its maximum fit the budget together. |
| `Budget.PackageBudgetMeter.Charge` | engine/runtime/budget.py:226-248 | A charge succeeds exactly for an active reservation and at most its maximum, and closes it. |
| `Budget.PackageBudgetMeter.Drop` | engine/runtime/budget.py:250-260 | A cancel succeeds exactly for an active reservation, and gives its maximum back. |
| `BudgetedDiscovery.RunKeeps` | adapters/pgvector.py:144-284 | Every interleaving of any number of requests and their embedding threads keeps the settlement invariant. |
| `BudgetedDiscovery.SettledOnce` | adapters/pgvector.py:217-284 | Each reservation is settled once, without error; committed if and only if the provider call was let through; after a commit the call is missing exactly while the thread stands between its mark and the call; a cancelled request makes no provider call, ever. |
| `BudgetedDiscovery.CommitBeforeCall` | adapters/pgvector.py:222-284 | A run in which the commit comes before the provider call: let through, given up on, settled. |
| `BudgetedDiscovery.ChargedRight` | adapters/pgvector.py:236-284 | Success charges the actual usage, a failure after the start the maximum, a cancel nothing; never more than reserved in any component. |
| `BudgetedDiscovery.NeverOverspent` | engine/runtime/budget.py:190-260 | Usage is the initial usage plus every charge, and usage plus open reservations never exceeds the budget. |
| `WorkerProgress.FileBatchProgressReporter.JobActive` | applications/worker_progress.py:153-179 | Announcing a job: the new reporter state and the emitted record, the refused overlap, or the state an emitter failure leaves. |
| `WorkerProgress.FileBatchProgressReporter.ObserveCycle` | applications/worker_progress.py:180-226 | Reporting a cycle: accounting, closing on idle, silence when nothing is open, the refused mismatch, or the state an emitter failure leaves. |
| `WorkerProgress.DocumentRoundTrip` | applications/worker_progress.py:249-294 | A record survives its public document exactly when it is valid. |
| `WorkerProgress.ReadIsCanonical` | applications/worker_progress.py:284-294 | Whatever the fields read as, its document is the one read: the canonical-form check never refuses on its own. |
| `WorkerProgress.AcceptedIsDocument` | applications/worker_progress.py:249-294 | Accepted are exactly the documents whose fields read as a valid record, and these are exactly the documents of valid records. |
| `DispatchLoop.RunKeeps` | applications/worker.py:125-235 | Every interleaving of the loop and the ticker keeps the reporter in step with the job in hand. |
| `DispatchLoop.ProgressFaithful` | applications/worker.py:125-235 | With an emitter that may fail at any record: the reporter never raises on its own, every record is valid, terminal records are the reported cycles in order, and closing records are exactly the closed batches with processed = total and failed = refused; at most one record is lost, and then the loop has stopped or is about to. |
| `DispatchLoop.LossIsFinal` | applications/worker.py:212-235 | Once the emitter failed, nothing more is emitted and no further cycle reported, whatever follows. |
| `DispatchLoop.BatchesPartition` | applications/worker_progress.py:180-238 | Closed batches and the open one account for every terminal cycle once. |
| `DispatchLoop.IdlePollsSilent` | applications/worker_progress.py:185-204 | An idle poll emits exactly when a job was reported since the last one. |
| `Opaque.RoundTrip` | engine/_opaque.py:9-31 | Decoding inverts encoding for every nonempty byte string. |
| `Opaque.AcceptsExactly` | engine/_opaque.py:15-31 | Exactly the canonical texts are accepted (alphabet, no lone character, no leftover bits), and these are the encoder's nonempty outputs: sections 3.5 and 5 of RFC 4648. |
| `JsonBounds.Validate` | eval/embedding_benchmark.py:774-803 | The explicit-stack worklist terminates and accepts exactly the values within all recursive bounds. |
| `Embeddings.FillSlots` | adapters/embeddings.py:191-211 | The slots are filled exactly when length, range and no-duplicate checks pass, each with the vector that names it; no slot can then be empty. |
| `Embeddings.EverySlotFilled` | adapters/embeddings.py:210-211 | The missing-slot check can never fire: n distinct indices below n are all of them. |
| `Embeddings.Embed` | adapters/embeddings.py:150-166 | The batch loop computes the specification over consecutive batches. |
| `Embeddings.BatchingInvisible` | adapters/embeddings.py:150-218 | With a provider that embeds inputs on their own, the result is every input's vector in input order, for every batch size and every order of each response. |
| `Embeddings.StoredEach` | engine/supply/embeddings.py:196-238 | A batch is accepted exactly when each of its vectors is, and each keeps its place. |
| `TwinFixture.PageInverts` | adapters/connectors/feishu.py:401-466 | A page reply of any kind, and its token, read back as written. |
| `TwinFixture.AclInverts` | adapters/connectors/feishu.py:469-524 | An ACL reply of any kind reads back as written. |
| `TwinFixture.IdentityInverts` | adapters/connectors/feishu.py:527-550 | An identity reply reads back as written. |
| `TwinFixture.GroupsInvert` | adapters/connectors/feishu.py:553-600 | The group snapshot, or its failure, reads back as written. |
| `TwinFixture.FixtureRoundTrip` | adapters/connectors/feishu.py:308-362 | Parsing a serialized fixture gives back the same pages, ACL replies, identity mappings and groups. |
| `TwinFixture.ParsedIsValid` | adapters/connectors/feishu.py:308-362 | Whatever parses is well formed, and serializing it again is a fixed point of the parser. |
| `Order.SortedTestExact` | adapters/connectors/feishu.py:212-219 | The construction test that a list equals its sorted set holds exactly of strictly ordered lists, which is how the model states it. |

## Left out

- File descriptors, symbolic-link flags, `O_NOFOLLOW`, anchoring of the root path and closing of descriptors; a listing is one atomic system call.
- `SnapshotAtomicity.ObservationAtomic`: gives atomicity in one direction from the top directory's recorded entries; the exact condition is proved for the record (`RecordExactlyTop`), not for the list of files, which may be right by accident.
- `SnapshotAtomicity.AtomicWhenTopQuiet`: sufficient condition only, for the same reason.
- `ScannedTree.ScanMirrorsInstant`: assumes the quiet top directory of `AtomicWhenTopQuiet`.
- `ScanOutcome.RestingScanEnds`: speaks of trees that rest during the scan and of bounds and page sizes that Control allows; a tree that moves between pages is covered by `FileScan.CompletedList` and `ScanOutcome.PagesAccepted`, not by a condition for completion.
- `SnapshotRest.RestingWalk`: a tree at rest has no dangling entries and no permission errors; an entry that cannot be opened is one that changed.
- Sources with the older v3 capability, which observe no deletes.
- Concrete bytes of SHA-256, HMAC, Ed25519 and RFC 8785, and JSON text; parsed JSON values are modelled, so the size bound on the fixture text does not appear.
- Path-format and lifecycle checks in the SQL of `accept_file_change_page`, row-level security and transactions; one acceptance is one atomic step.
- `FileScan.ScanFileSource`: does not model other writers of the same source's log between two pages of one scan, the content re-read after each schedule call, the number of imports a schedule call returns, or the authorization around calls. `ChangeHistory` does cover interleaved scans.
- The order in which several local checks raise when more than one would.
- `FeishuAcl.Observe`: does not model the JSON artifact's text or the canonical graph digest, and Python's recursion limit on very deep group chains.
- `_run` of the Feishu adapter, which maps `_observe` over one page, and the out-of-process adapters.
- `BudgetedDiscovery.RunKeeps`: does not model the tokenizer fence and request validation before the reservation, which hold no budget.
- Clocks: elapsed time is an input, and a deadline is a step that may happen at any moment.
- `Embeddings.Embed`: float32 rounding is a parameter; HTTP, redirects and response size limits are not modelled.
- `TwinFixture.FixtureRoundTrip`: ISO 8601 formatting and parsing of timestamps are a pair of functions assumed inverse.
- Liveness of threads: nothing is said about a worker that never finishes, beyond what stays true meanwhile.
- HTTP and MCP routing, the UI, role provisioning, release promotion, operator authentication, the candidate-index wrappers, cosine similarity and model loading: they would only add easy members or depend on floating point and PostgreSQL semantics.
