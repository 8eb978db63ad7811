# VibeShell verification model

Dafny models of the parts of VibeShell whose correctness is hardest to see, with proofs of what they promise.

- **Encrypted sync** (`SyncLog`, `ReplicaStore`, `SyncProtocol`, `SyncInvariants`, `SyncSteps`, `SyncTheorems`,
  `SyncRuns`, `ObjectTransport`, `CloudSync`, `SyncHandles`). Devices share one append-only log of envelopes in a
  remote object and extend it by compare-and-swap. `SyncProtocol` is a transition system with any number of devices,
  local edits at any time, conflicts, lost replies, writes that arrive late or again, and crashes. `ObjectTransport`
  and `CloudSync` are the retry and round loops as methods, and `SyncHandles` ties their requests to the protocol.
- **Window hand-off** (`DockHandoff`, `DockRuns`). A detached window asks the main window to take its pane back.
  `DockHandoff` is the handler and its memory, `DockRuns` the protocol with duplicated and delayed messages and time.
- **Approval queue** (`ApprovalQueue`, `ApprovalRuns`). The dialog's queue against events and a snapshot in flight.
- **Pane layout** (`MosaicTree`, `Docking`, `TreeSanitizer`, `WindowFit`, `PaneIds`, `WorkspaceRemap`,
  `SessionRestore`). Tree surgery, sanitizing untrusted layouts, fitting windows, restoring saved workspaces.
- **Words and paths** (`ShellWords`, `PluginActions`, `PluginRender`, `RemotePath`). Quoting, tokenizing, the plugin
  validator and renderer, remote path resolution.
- **Bytes and pages** (`TarListing`, `TarRoundTrip`, `ReplayBuffer`, `ActivityMerge`).

`dafny verify dfyconfig.toml` checks everything.

## Where the code differs from what one would expect

- A local change can leave the outbox without ever having been in the log: storage drops rows that a newer remote
  change of the same entity overtakes (`SyncRuns.UnsentChangeCanBeDropped`). It is then gone from outbox, saved upload
  and log exactly when it had not been sealed before (`SyncRuns.ChangeIsKeptExactly`); a sealed upload is saved until it
  is in the log (`SyncRuns.IssuedIsSavedOrInLog`).
- A page with one revision more than 24 hours ahead of the receiver's clock is refused as a whole, so one device with a
  fast clock stops the others at its envelope (`SyncRuns.FarFutureBlocks`, `SyncRuns.FutureEditBlocksAnotherDevice`).
- A reply carries the whole log behind the caller's cursor, and a page of more than 10000 changes is refused; so a
  device that is further behind never catches up (`SyncRuns.TooFarBehindIsStuck`).
- The envelope bound is checked before the push, so a log can be written that is then refused for ever
  (`SyncLog.FullLogRefusesEverything`).
- The approval gateway inserts a request before it announces it. A request resolved in between is announced after its
  resolution, and the dialog shows it although nothing is pending (`ApprovalRuns.LateAnnouncementComesBack`, exact
  conditions in `ApprovalRuns.ReappearsExactly` and `ApprovalRuns.SettledExactly`).
- Restoring a workspace whose saved sessions repeat an id can drop a live session from the rail
  (`SessionRestore.LiveSessionIsLost`, exact condition in `SessionRestore.CompleteForDistinctIds`).
- A Boolean input is given as a Boolean only: its own rendered text is refused (`PluginRender.NormalizeIdempotent`).
- The prompt and a POSIX shell split some lines differently (`ShellWords.PromptAgreesWithShell`).
- The archive lister trims names, so a name with blanks around it is not shown as written (`TarRoundTrip.PathIsKept`).
- A pane returned onto a tab that is not shown replaces the whole tree (`Docking.AcceptMeaning`).

## Model

| member | source | states |
|---|---|---|
| SyncLog.ExchangeRefinesAtomicLog | src-tauri/src/cloud_sync/mod.rs:563-588 | On a document with distinct envelope ids the provider step succeeds exactly when format, version, vault, size and cursor are right and no envelope has the upload's id with other content; then log, reply and change flag are those of the atomic in-memory transport. |
| SyncLog.ExchangeAppends | src-tauri/src/cloud_sync/providers.rs:479-519 | An accepted exchange only appends, at most the upload, keeps ids distinct, leaves the upload in the log, and replies with the log from the caller's cursor on. |
| SyncLog.ResendIsHarmless | src-tauri/src/cloud_sync/providers.rs:496-511 | Repeating a request on any later version of the log appends nothing and is not refused for its envelope. |
| SyncLog.FullLogRefusesEverything | src-tauri/src/cloud_sync/providers.rs:442-519 | The size is checked before the push, so an accepted exchange leaves a document that every later exchange refuses if and only if it added an envelope to a log of exactly 10000. |
| SyncLog.PagesTile | src-tauri/src/cloud_sync/providers.rs:513-517 | Consecutive pages join without gap or repeat into the page one exchange over both would have given. |
| SyncLog.OpenEnvelopeMeaning | src-tauri/src/cloud_sync/mod.rs:360-376 | An envelope opens if and only if it is sealed under its own id, for this vault, in the schema spoken here, by the device its batch names; it opens to the changes it carries, and a refusal names what is wrong. |
| SyncLog.OpenPageMeaning | src-tauri/src/cloud_sync/mod.rs:360-383 | A page opens exactly when every envelope is authentic and the total is within the bound, and it opens to the changes in order. |
| SyncLog.PageErrorStays | src-tauri/src/cloud_sync/mod.rs:360-383 | The first envelope that fails decides the error of the page. |
| SyncLog.CollectChanges | src-tauri/src/cloud_sync/mod.rs:360-383 | The loop over the envelopes of a page computes that page. |
| ReplicaStore.RecordLocalMeaning | src-tauri/src/storage/sync.rs:832-876 | A captured edit gets the least stamp that is not behind the device's clock and newer than everything it knows, the clock moves to it, and the edit becomes the state of its entity and is appended to the outbox; cursor, saved upload and received changes stay. |
| ReplicaStore.AcknowledgeMeaning | src-tauri/src/storage/sync.rs:342-368 | Acknowledging the saved upload removes exactly its change ids from the outbox and the saved upload itself, and nothing else changes. |
| ReplicaStore.SortOrders | src-tauri/src/storage/sync.rs:417-430 | A page is sorted by revision, then change id, and is a permutation of what came. |
| ReplicaStore.FilterKeepsOrder | src-tauri/src/storage/sync.rs:1479-1491 | Deleting outbox rows keeps the others in their order. |
| ReplicaStore.ApplyBatchMeaning | src-tauri/src/storage/sync.rs:400-574 | Applying a page of well-stamped changes is refused, with the clock-skew error, if and only if one of them is more than 24 hours ahead of the receiver's clock. Otherwise every entity holds the newest known change, the clock moves at most to a revision of the page, the cursor is stored with it, and an outbox row survives exactly when no change of the page overtakes its entity. |
| ReplicaStore.RowsOfPage | src-tauri/src/storage/sync.rs:443-574 | A row that a page takes out of the outbox is covered by it: the page holds the row itself or a newer change of its entity. |
| ReplicaStore.PageClashesExactly | src-tauri/src/storage/sync.rs:400-574 | Whatever a page contains, it is refused for a clash if and only if it is in time and has two contents for one revision that is not out of date, both in the page or one of them stored. |
| ReplicaStore.WinnersAreUnique | src-tauri/src/storage/sync.rs:443-574 | The last-writer-wins states are determined by the set of known changes, whatever order they came in. |
| SyncSteps.StepInv | src-tauri/src/cloud_sync/providers.rs:130-153 | Every step of every device, and every late or repeated write, keeps the protocol invariant. |
| SyncSteps.RunInv | src-tauri/src/cloud_sync/providers.rs:263-294 | So the invariant holds in every reachable state, for any number of devices. |
| SyncTheorems.LogIsAppendOnly | src-tauri/src/cloud_sync/providers.rs:479-519 | Over every run the log only grows by appending and envelope ids stay unique: no envelope another device wrote is lost. |
| SyncTheorems.LogChangesAtomically | src-tauri/src/cloud_sync/providers.rs:263-294 | Whenever the shared object changes, the change is one atomic exchange appending some device's saved envelope that was not there. |
| SyncTheorems.CallKeepsStart | src-tauri/src/cloud_sync/mod.rs:344-361 | Entering an exchange from outside one records the log length of that moment, and the record is kept until the call ends. |
| SyncTheorems.ExchangeIsLinearizable | src-tauri/src/cloud_sync/providers.rs:130-153 | A reply a device receives is what the atomic transport answers on a log that was current during its call, and the log has since passed through the atomic transport's result. |
| SyncTheorems.EnvelopeAppearsOnce | src-tauri/src/cloud_sync/providers.rs:496-511 | A saved envelope is in the log at most once, however often it was sent. |
| SyncTheorems.OnlyAFullLogRefuses | src-tauri/src/cloud_sync/providers.rs:442-519 | In a reachable state the provider step on a fetched document is refused exactly when the log is past its bound; another vault's data, a cursor ahead and clashing ids never happen. |
| SyncTheorems.AttemptSucceedsExactly | src-tauri/src/cloud_sync/providers.rs:521-534 | In a reachable state an attempt gets as far as its reply or its write if and only if the document is read within the 8 MiB limit, the log is within its bound, and a document with a new upload is within 8 MiB too. |
| SyncTheorems.ReceivedIsLogPrefix | src-tauri/src/cloud_sync/mod.rs:363-395 | A device has received exactly the changes of the log up to its stored cursor. |
| SyncTheorems.CursorMovesWithItsPage | src-tauri/src/cloud_sync/mod.rs:385-390 | Only storing a page, one that is in time by the device's clock, moves the cursor, forward, and what is received grows by exactly the changes in between; a failed round leaves both. |
| SyncRuns.FinishedRun | src-tauri/src/cloud_sync/mod.rs:403-414 | A sync that returns its report ended with an empty outbox; its last exchange is a call whose start is named, and its cursor is the length the log had at a moment of that call, at least that at its start; it has received exactly the log of that moment. |
| SyncTheorems.LocalChangeIsAccountedFor | src-tauri/src/cloud_sync/mod.rs:344-401 | Every change a device ever recorded is in its outbox, or received back from the log, or overtaken by a received newer change of the same entity. |
| SyncTheorems.LeavingTheOutbox | src-tauri/src/cloud_sync/mod.rs:385-401 | A change leaves an outbox only when its upload is acknowledged, and then it is in the log, or when a page that is stored overtakes it. |
| SyncTheorems.PageMeaning | src-tauri/src/storage/sync.rs:417-574 | In a reachable state a received page is stored if and only if no change in it is more than 24 hours ahead of the device's clock; and then it keeps an outbox row if and only if none of its changes is newer than the stored state of the row's entity. |
| SyncRuns.StepKeepsExactly | src-tauri/src/storage/sync.rs:1479-1491 | One step: a change of the outbox is afterwards in the outbox or in the log if and only if the step is not a page that overtakes it, or the log already had it. |
| SyncRuns.IssuedIsSavedOrInLog | src-tauri/src/cloud_sync/mod.rs:385-401 | In every reachable state every envelope that was ever issued is in the log or still the saved upload of the device that sealed it. |
| SyncRuns.ChangeIsKeptExactly | src-tauri/src/storage/sync.rs:1479-1491 | Over a run: a change that was in the outbox is at the end in the outbox, in the device's saved upload or in the log if and only if every page that took it out of the outbox by overtaking it came when it was already sealed; and as long as no page does, it is in the outbox or in the log. |
| SyncRuns.UnsentChangeCanBeDropped | src-tauri/src/storage/sync.rs:1479-1491 | A run of ten steps in which an edit made during an exchange is dropped by the page before it was sealed: it is recorded, and neither in the outbox, nor in the saved upload, nor in the log. |
| SyncRuns.FarFutureBlocks | src-tauri/src/storage/sync.rs:1047-1055 | An envelope with a change from the future stops every device behind it: while a device's clock is more than 24 hours behind that change, its cursor never passes the envelope. |
| SyncRuns.FutureEditBlocksAnotherDevice | src-tauri/src/storage/sync.rs:1047-1055 | A run in which one device with a fast clock edits and a second one, sent that page, can store it if and only if its own clock is at most 24 hours behind. |
| SyncRuns.NearClocksNeverRefuse | src-tauri/src/storage/sync.rs:1047-1055 | In every run a page is stored once the device's clock plus 24 hours reaches the latest clock of any edit plus a millisecond for each edit ever made, so devices within a day of each other never refuse each other's pages. |
| SyncRuns.TooFarBehindIsStuck | src-tauri/src/cloud_sync/mod.rs:379-381 | A device that is more than 10000 changes behind the log never catches up: its cursor never moves again. |
| SyncRuns.FetchedInFull | src-tauri/src/cloud_sync/providers.rs:155-201 | In every reachable state a read that is answered gives a document of this vault, in this format and version, with the whole log. |
| SyncRuns.BatchesAreSmall | src-tauri/src/cloud_sync/mod.rs:434-465 | Every issued envelope carries at least one change and at most 256. |
| SyncTheorems.QuietDeviceHoldsLogWinners | src-tauri/src/storage/sync.rs:443-574 | A device with nothing unsent holds the last-writer-wins result of the log up to its cursor. |
| SyncTheorems.Convergence | src-tauri/src/cloud_sync/mod.rs:337-417 | Two devices with equal cursors received the same change sequence, and with nothing unsent they hold the same entity states. |
| ObjectTransport.RemoteObject.Read | src-tauri/src/cloud_sync/providers.rs:155-201 | A read gives the current document exactly when it is answered and the document is within the byte limit, and an entity tag that names that version exactly when one is sent. |
| ObjectTransport.RemoteObject.Write | src-tauri/src/cloud_sync/providers.rs:332-373 | A conditional write takes effect exactly when it is within the byte limit, reaches the server and its precondition holds, and then on the version it was computed from; it fails exactly when it is too large or unanswered, and is refused exactly when its precondition does not hold. |
| ObjectTransport.RemoteObject.ExchangeGist | src-tauri/src/cloud_sync/providers.rs:130-153 | The retry loop against interfering writers: the log only grows, an Ok reply is linearizable, the device appended at most its own envelope once, and the requests of the call explain its result: refused writes, fewer than four, and then the read or write that decides it; every write refused under its tag was overtaken by another that landed. |
| ObjectTransport.RemoteObject.ExchangeWebDav | src-tauri/src/cloud_sync/providers.rs:263-294 | The same for WebDAV, with If-None-Match where no tag is known. |
| ObjectTransport.RemoteObject.Exchange | src-tauri/src/cloud_sync/providers.rs:396-420 | The same for whichever provider the vault uses. |
| ObjectTransport.GivesUpAfterFour | src-tauri/src/cloud_sync/providers.rs:137-152 | A call gives up for conflicts after exactly four refused writes, and for a gist each of them was overtaken. |
| CloudSync.CloudSyncManager.PrepareUpload | src-tauri/src/cloud_sync/mod.rs:420-465 | A saved upload is returned unchanged; an empty outbox gives nothing; otherwise the first size of the halving sequence whose ciphertext fits is sealed and saved, and the size error comes exactly when none of the sizes fits. |
| CloudSync.SizeErrorMeansOneChange | src-tauri/src/cloud_sync/mod.rs:441-463 | When longer batches never have shorter ciphertexts, the size error means exactly that the first change alone is too large. |
| CloudSync.NextSize | src-tauri/src/cloud_sync/mod.rs:434-464 | Each retry continues the halving sequence of batch sizes, which ends at one change. |
| CloudSync.SealedUnder | src-tauri/src/cloud_sync/mod.rs:467-490 | A sealed batch is authentic and carries its changes, its device and the cursor they were made behind. |
| CloudSync.CloudSyncManager.RecordEdit | src-tauri/src/storage/sync.rs:832-876 | A local edit is appended to the outbox, and a saved upload still stands for the very rows it carries. |
| CloudSync.CloudSyncManager.SyncRound | src-tauri/src/cloud_sync/mod.rs:344-401 | A round is its steps in order and fails only where one of them fails, for that reason; a failed one leaves cursor, outbox and received changes as they were; a successful one has received everything that was in the log when it began, and makes the outbox shorter if it began with one and no saved upload; every row that left the outbox has been received back, or a newer change of its entity has. |
| CloudSync.CloudSyncManager.ApplyReply | src-tauri/src/cloud_sync/mod.rs:360-401 | The page is stored with its cursor and then the upload that was sent is acknowledged, with exact counts; every row that goes is of that upload or covered by the page, and no row of the upload stays; it fails exactly when the page does not open or cannot be stored, and then changes nothing. |
| CloudSync.CloudSyncManager.RunSync | src-tauri/src/cloud_sync/mod.rs:337-417 | A run is a series of rounds that ends with the first that fails or leaves nothing to upload, and its counts are the sums of theirs. A report means an empty outbox, every row of the old outbox received back or overtaken by a received change, and a cursor past everything that was in the log at the start; an error loses no row either, and the error of too many rounds needs at least 64 rows at the start, 65 without a saved upload. |
| CloudSync.PageReceived | src-tauri/src/cloud_sync/providers.rs:513-517 | Appending a reply's page to what was received gives exactly the log up to the reply's cursor. |
| SyncHandles.HandlePrepare | src-tauri/src/cloud_sync/mod.rs:344-353 | Preparing an upload is the preparing step of the device, and an upload that is too large leaves the device as it was. |
| SyncHandles.HandleFetch | src-tauri/src/cloud_sync/providers.rs:155-201 | A read that leads to a reply or to a write is the fetching step, with that reply or that write sent. |
| SyncHandles.HandleWrite | src-tauri/src/cloud_sync/providers.rs:332-373 | A write is a delivery or changes nothing; the reply "stored" is then the confirming step and a failed precondition the conflict step. |
| SyncHandles.HandleReply | src-tauri/src/cloud_sync/mod.rs:360-401 | Storing a reply's page and acknowledging are the two steps that follow a reply, and one that cannot be stored leaves the device as it was. |
| SyncHandles.RoundEndsOneWay | src-tauri/src/cloud_sync/mod.rs:403-417 | After a round the report is returned exactly when nothing is left to upload, and another round begins exactly when something is and fewer than 64 were made. |
| SyncHandles.OthersOnlyAppend | src-tauri/src/cloud_sync/providers.rs:130-153 | Whatever steps come between two requests, the log is only appended to and a tag keeps what it names: no more than the interference the loops are proved against. |
| DockHandoff.DropReceiver.Drop | src/lib/nativeDock.ts:67-89 | A remembered answer is repeated and a request in progress left alone, with nothing changed; a new one waits exactly when its sender owns the pane and there is a point to look up; otherwise it is accepted exactly when acceptable, remembered at the cost of at most the oldest of a hundred, and the pane is taken over or nothing else changes; the pane that is shown and focused is the one the target names. |
| DockHandoff.DropReceiver.Resume | src/lib/nativeDock.ts:77-89 | After the hit test a request is accepted if and only if the place is valid, it is in time, owned, taken over and there is room; the answer is remembered, no other request loses its own but the oldest of a hundred, and the request no longer waits; the pane that is shown and focused is the one the target names. |
| DockHandoff.DropReceiver.TakeBack | src/App.tsx:737-757 | A pane is taken back if and only if its content is and there is room; then no window owns it, it is focused and right where placement or focus says, the panes stay distinct and at most nine, and nothing else changed; otherwise nothing changed; the pane that is shown and focused is the one the target names. |
| DockHandoff.SettleMeaning | src/App.tsx:737-757 | A request is accepted if and only if the place is valid, it is unexpired, owned by its sender, content is taken over, and it is not a tenth pane; then no window owns the pane and it is shown and focused; a refusal changes nothing; the pane that is shown and focused is the one the target names. |
| DockHandoff.ConcludeMeaning | src/lib/nativeDock.ts:83-87 | A decision is remembered under its id, every other id keeps its own, except that the oldest of a hundred is forgotten. |
| DockHandoff.RepeatIsHarmless | src/lib/nativeDock.ts:69-72 | An answered request that is delivered again, at any time and with any content, gets the same answer and changes nothing. |
| DockHandoff.KeyNamesPane | src/lib/detach.ts:41-45 | The key of a hand-off reads back as the session's pane, or the plugin's or file's under its session; two targets have one key if and only if they are of one kind and agree in session and plugin or path, given ids without the separators. |
| DockRuns.HandlerCases | src/lib/nativeDock.ts:67-89 | In a reachable state the handler repeats a remembered answer, waits for its hit test, or makes one new decision; nothing else. |
| DockRuns.Handle | src/lib/nativeDock.ts:67-89 | The handler object does at every step of a run exactly what the run says of the main window. |
| DockRuns.StepKeeps | src/lib/nativeDock.ts:14-34 | Every step of windows, network and main window keeps the hand-off invariant, with requests delivered late, reordered, repeated or never. |
| DockRuns.OwnersAfter | src/lib/detach.ts:120-168 | Who owns which pane after a step: a window gains one only by committing to it and loses one only by releasing it or by the acceptance of its own request for it. |
| DockRuns.AcceptedAtMostOnce | src/lib/nativeDock.ts:69-85 | In no run is a request accepted twice, even after its decision was evicted. |
| DockRuns.AcceptanceIsSafe | src/lib/detach.ts:120-124 | A request is accepted before it expires and while its window owns the pane; then no window owns the pane, and the window that asked never owns one again. |
| DockRuns.GivenUpIsNeverAccepted | src/lib/nativeDock.ts:26-30 | A sender that gave up after its attempts, at least 8000 ms after a request that lives 7000 ms, is never accepted later. |
| DockRuns.AcknowledgementsAgree | src/lib/nativeDock.ts:69-87 | All acknowledgements of a decision agree until a hundred later decisions evicted it, and an id is decided again only after that. |
| DockRuns.AnswerIsADecision | src/lib/nativeDock.ts:20-23 | What a sender hears is a decision the main window made about its request. |
| DockRuns.AttemptsAreSpaced | src/lib/nativeDock.ts:14-30 | A request is sent at most four times, and the k-th time not before 2000 ms times k - 1 after it was made. |
| DockRuns.RequestCanBeAccepted | src/lib/nativeDock.ts:67-89 | Any request without a point to look up has a run in which it is accepted, the pane is shown and owned by no window, and its window hears so. |
| DockRuns.WorkspaceStaysSound | src/lib/detach.ts:131-168 | In every run panes stay distinct and at most nine, no window owns two panes, and at most a hundred decisions are remembered. |
| ApprovalQueue.ApprovalStore.MergePendingRequests | src/stores/agentApprovalStore.ts:26-40 | The merging loop computes the specified merge. |
| ApprovalQueue.MergeMeaning | src/stores/agentApprovalStore.ts:26-40 | A merge keeps one entry per id in (timestamp, sequence) order; the last request given for an id wins, and resolved ids bring in nothing. |
| ApprovalQueue.ApprovalStore.OnResolved | src/stores/agentApprovalStore.ts:117-125 | After a resolved event the queue holds exactly the other requests, in order, the id is not being answered any more and others still are, and it is remembered for the snapshot; an empty id changes nothing. |
| ApprovalQueue.ApprovalStore.OnStatus | src/stores/agentApprovalStore.ts:139-149 | After the snapshot the queue holds, in order and once per id, the last request the snapshot lists for each id not resolved meanwhile, and otherwise what it held; the snapshot brings back no resolved request. |
| ApprovalQueue.ApprovalStore.EndResolve | src/stores/agentApprovalStore.ts:78-89 | A decision that succeeded removes exactly its request; one that failed keeps the queue and says why; either way exactly this id is no longer being answered. |
| ApprovalQueue.SnapshotAndNewsCommute | src/stores/agentApprovalStore.ts:103-149 | A resolved event and the snapshot can be handled in either order: the queue is the same, entry by entry. |
| ApprovalRuns.Handle | src/stores/agentApprovalStore.ts:78-150 | The store object does at every step of a run exactly what the run says of the window. |
| ApprovalRuns.QueueAfter | src/stores/agentApprovalStore.ts:99-150 | What every step does to the set of shown requests. |
| ApprovalRuns.LostKept | src/stores/agentApprovalStore.ts:99-150 | No pending request is ever without an event, a snapshot or a queue entry that shows it. |
| ApprovalRuns.StaleKept | src/stores/agentApprovalStore.ts:99-150 | Whatever is shown, or on its way, is pending, or followed by the news that it is gone, or was announced late. |
| ApprovalRuns.ResolvedNeverReappears | src/stores/agentApprovalStore.ts:103-149 | An id whose resolved event was delivered never reappears, unless the gateway announced the request after its resolution. |
| ApprovalRuns.ReappearsExactly | src/stores/agentApprovalStore.ts:103-149 | From the delivery of its resolved event until all events are delivered, a request is shown again if and only if the gateway announced it after it had announced its resolution. |
| ApprovalRuns.SettledQueue | src/stores/agentApprovalStore.ts:99-150 | When everything is delivered the queue shows all pending requests in order, and whatever else it shows was announced late. |
| ApprovalRuns.SettledExactly | src/stores/agentApprovalStore.ts:99-150 | Then the queue is the gateway's list if and only if every late announcement that was delivered was followed by the answer to a decision of the user. |
| ApprovalRuns.ShownForGood | src-tauri/src/mcp/approval.rs:155-166 | A late request that is shown while no decision about it is under way stays shown in every later state. |
| ApprovalRuns.SettledQueueIsStatus | src-tauri/src/mcp/approval.rs:254-267 | Then the queue equals the list the gateway itself would report. |
| ApprovalRuns.StatusIsUnique | src-tauri/src/mcp/approval.rs:254-267 | (timestamp, sequence) order determines the list from its set of requests. |
| ApprovalRuns.LateAnnouncementComesBack | src-tauri/src/mcp/approval.rs:155-166 | A run in which a request is decided before it is announced, the decision is confirmed, everything is delivered, and the dialog shows the request again with nothing left that could take it away. |
| MosaicTree.AddMeaning | src/lib/mosaicTree.ts:13-50 | Splitting a leaf puts the new pane right after it; a missing leaf changes nothing. |
| MosaicTree.RemoveMeaning | src/lib/mosaicTree.ts:52-78 | Removing a pane takes exactly its leaves out of the sequence and changes nothing when it is absent. |
| MosaicTree.RemoveKeepsDividers | src/lib/mosaicTree.ts:52-78 | Closing a pane leaves every two others separated by the split they were under, with its direction, order and percentage. |
| MosaicTree.PruneMeaning | src/lib/mosaicTree.ts:90-114 | Pruning keeps exactly the valid leaves, in order. |
| MosaicTree.PruneKeepsDividers | src/lib/mosaicTree.ts:90-114 | So does pruning for every two panes that stay. |
| MosaicTree.RemoveUndoesAdd | src/lib/mosaicTree.ts:13-78 | Removing an added pane gives the tree back. |
| Docking.DockMeaning | src/lib/docking.ts:28-43 | Docking is a no-op for a missing or equal target and a full workspace; otherwise the leaf sequence is the old one without the source, and with it right before or after the target by side. |
| Docking.DockedParent | src/lib/docking.ts:28-43 | The docked pane shares one even split with its target, a row for left and right, a column for top and bottom, in the order of the side. |
| Docking.AddedParent | src/lib/mosaicTree.ts:13-50 | An added pane shares one even split with its leaf in the direction asked for. |
| Docking.DockKeepsLayout | src/lib/docking.ts:28-43 | Docking loses no pane and keeps distinctness and the nine-pane bound. |
| Docking.DockKeepsDividers | src/lib/docking.ts:28-43 | So does docking for every two panes but the docked one. |
| Docking.AddKeepsDividers | src/lib/mosaicTree.ts:13-50 | So does adding a pane. |
| Docking.RemoveUndoesDock | src/lib/docking.ts:17-43 | Taking a docked pane out again gives the tree without it. |
| Docking.OpsKeepLayout | src/App.tsx:500-735 | Distinctness and the bound hold over every sequence of docks, removals, prunes with a fallback, selections, splits for a tab, dropped tabs and changes to one pane. |
| Docking.OpMeaning | src/App.tsx:500-735 | What each layout change makes of the sequence of panes: the selected tab, the pane shown alone, the fallback of a prune, the split or dropped tab. |
| Docking.AcceptMeaning | src/App.tsx:737-748 | A returned pane is refused exactly when it would be a tenth; otherwise it is shown exactly where placement or focus says. |
| TreeSanitizer.Sanitizer.VisitNode | src/lib/docking.ts:46-68 | The traversal with one shared set computes the specified visit. |
| TreeSanitizer.SanitizedLeaves | src/lib/docking.ts:46-68 | For any input value, cyclic ones included, the leaves are the first nine distinct valid strings, in order, among those within depth 20 under well-formed branches. |
| TreeSanitizer.SplitsAreOffered | src/lib/docking.ts:46-68 | Every split of a sanitized tree is one of the input's, in its direction, with its percentage, 50 when there is none and the nearer of 1 and 99 when it is out of bounds, and its sides hold what the input's sides offer. |
| TreeSanitizer.DepthBelowLeafCount | src/lib/docking.ts:46-68 | A tree is less deep than it has leaves. |
| TreeSanitizer.SanitizeIdentity | src/lib/docking.ts:46-68 | The sanitizer is the identity on trees of at most nine distinct valid leaves with percentages in 1..99. |
| TreeSanitizer.SanitizeIdempotent | src/lib/docking.ts:46-68 | Sanitizing twice is sanitizing once. |
| TreeSanitizer.SanitizeOwnMeaning | src/lib/workspacePersistence.ts:99 | The sanitizer on the program's own trees: no new leaf, first nine valid ones, proper trees unchanged. |
| WindowFit.FitsInsideBest | src/lib/docking.ts:98-109 | The fitted rectangle lies inside a monitor of greatest overlap. |
| WindowFit.FitMeaning | src/lib/docking.ts:98-109 | In each direction the size changes only as far as minimum and monitor demand, and no place inside the monitor is nearer to the old one. |
| WindowFit.FullOverlapIsContainment | src/lib/docking.ts:98-109 | Overlap by the full area is containment. |
| WindowFit.FittingIsStable | src/lib/docking.ts:98-109 | A rectangle of minimum size inside some monitor is unchanged. |
| WindowFit.FittingIsIdempotent | src/lib/docking.ts:98-109 | Fitting twice is fitting once, also when monitors are smaller than the minimum. |
| PaneIds.UriRoundTrip | src/lib/paneIds.ts:9-45 | Percent-encoding (section 2.1 of RFC 3986) of any string decodes to it. |
| PaneIds.EncodedChar | src/lib/paneIds.ts:9-22 | Unreserved characters are written as they are and every byte of another as a percent sign and two upper-case digits. |
| PaneIds.DecodeMeaning | src/lib/paneIds.ts:24-45 | Decoding gives a text if and only if the string is made up of what stands for its characters: themselves, but for the percent sign, or the triplets of their UTF-8 bytes; overlong, cut-off and surrogate forms are refused. |
| PaneIds.ParseRoundTrip | src/lib/paneIds.ts:9-45 | Parsing a constructed pane id gives its kind and content. |
| PaneIds.ParseExactly | src/lib/paneIds.ts:24-45 | Which strings are pane ids of which kind and content; a string of no kind is kept as it is. |
| PaneIds.PaneIdsDistinct | src/lib/paneIds.ts:9-22 | The three constructors are injective and never collide. |
| WorkspaceRemap.BuildPaneNames | src/lib/workspacePersistence.ts:71-81 | The loops that fill the renaming map compute the specified one. |
| WorkspaceRemap.NoDanglingReferences | src/lib/workspacePersistence.ts:61-106 | After remapping every leaf, the focused pane and every active id names a session, file or plugin of the new layout, whose sessions are the mapped ones in order. |
| WorkspaceRemap.TabsFollowSessions | src/lib/workspacePersistence.ts:62-95 | Tabs and detached windows keep only live sessions and carry the new id, and plugins the session's type and name. |
| WorkspaceRemap.TabsKeepTheirPlace | src/lib/workspacePersistence.ts:62-66 | A file tab keeps its place and contents but for its session, and goes exactly when the session is gone. |
| WorkspaceRemap.PluginsKeepTheirPlace | src/lib/workspacePersistence.ts:67-70 | A plugin tab keeps its place and its plugin under its session's new id, type and server, and goes exactly when the session is gone. |
| WorkspaceRemap.DetachedKeepTheirPlace | src/lib/workspacePersistence.ts:88-95 | A detached window keeps its place, geometry and what it shows under its session's new id, and goes exactly when the session is gone and it is no local file. |
| WorkspaceRemap.NamedExactly | src/lib/workspacePersistence.ts:71-81 | A pane has a new name if and only if its session is mapped, or it is a tab that is local or whose session is mapped. |
| WorkspaceRemap.GoneIsForgotten | src/lib/workspacePersistence.ts:96-104 | What has no new name is neither focused nor active afterwards, and a tree of such panes is gone. |
| WorkspaceRemap.ActiveTabsFollow | src/lib/workspacePersistence.ts:96-104 | What was active stays active under its new name, which is written out: the session's new id, the file's and the plugin's id under it, a local file's own. |
| WorkspaceRemap.FocusedSessionFollows | src/lib/workspacePersistence.ts:100 | The focused pane of a session that is still there stays focused under its new name. |
| WorkspaceRemap.OrderIsKept | src/lib/workspacePersistence.ts:82-87 | When no two leaves get the same name the tree is the saved one with leaves renamed, unmapped ones dropped and order kept. |
| WorkspaceRemap.OrderIsKeptExactly | src/lib/workspacePersistence.ts:61-106 | The leaf sequence is the saved one renamed if and only if the new names are distinct and within the length bound. |
| WorkspaceRemap.RenamingIsInjective | src/lib/workspacePersistence.ts:71-81 | An injective session map gives different panes different names. |
| WorkspaceRemap.InjectiveMapKeepsOrder | src/lib/workspacePersistence.ts:61-106 | So for an injective session map the leaf sequence is the saved one mapped. |
| WorkspaceRemap.IdentityKeepsTree | src/lib/workspacePersistence.ts:61-106 | The identity map leaves a well-formed tree and its focused pane unchanged. |
| SessionRestore.MatchSessions | src/lib/workspacePersistence.ts:108-130 | The matching loop computes the specified restore. |
| SessionRestore.AsksMeaning | src/lib/workspacePersistence.ts:114-130 | A session is opened anew if and only if its own is not live or taken, no free connection leads to its server, and it is not a local one where there is no shell. |
| SessionRestore.PutKeepsPlace | src/lib/workspacePersistence.ts:114-130 | An id found again keeps its place in the map, and a new one comes last. |
| SessionRestore.MatchingIsInjective | src/lib/workspacePersistence.ts:114-130 | No two saved sessions get the same live one. |
| SessionRestore.WarningsMeaning | src/lib/workspacePersistence.ts:121-129 | The warnings name exactly the servers of the saved sessions that were not found, and of the coding agents that were replaced. |
| SessionRestore.RailMeaning | src/lib/workspacePersistence.ts:138-139 | The restored rail shows no session twice, first the sessions of the saved tabs in their order and then live ones in theirs, and every live one if and only if no saved id was given two. |
| SessionRestore.CompleteForDistinctIds | src/lib/workspacePersistence.ts:114-139 | The rail shows every live session after every restore of a saved workspace if and only if its session ids are distinct. |
| SessionRestore.LiveSessionIsLost | src/lib/workspacePersistence.ts:114-139 | A workspace that names a session twice takes a second connection to its server for the second entry, and the session itself, still live, is missing from the rail. |
| SessionRestore.SurvivorsKeepTheirSessions | src/lib/workspacePersistence.ts:114-117 | When every saved session survived, each keeps its own and nothing is opened or reported. |
| SessionRestore.SurvivingWorkspaceIsKept | src/lib/workspacePersistence.ts:108-144 | Then the restored tree is the saved one. |
| ShellWords.ParseReplLine | cli/src/commands/sftp.rs:276-334 | The character loop computes the specified tokens. |
| ShellWords.ParseUndoesQuote | plugins/src/lib.rs:68-84 | For every list of strings, tokenizing the joined quoted strings gives the list back. |
| ShellWords.PosixUndoesQuote | plugins/src/lib.rs:64-84 | A POSIX shell splits the joined quoted strings into exactly that list and expands nothing. |
| ShellWords.QuoteMeaning | plugins/src/lib.rs:68-84 | A string is left unquoted if and only if it is not empty and all its characters are safe; any other is put between single quotes, four characters longer for each quote in it. |
| ShellWords.TrailingBackslash | cli/src/commands/sftp.rs:276-334 | A backslash that ends a line stands for itself. |
| ShellWords.UnclosedQuote | cli/src/commands/sftp.rs:276-334 | A line with a quote that is not closed is refused, and the quote is named. |
| ShellWords.PromptAgreesWithShell | cli/src/commands/sftp.rs:276-334 | A line that a POSIX shell only splits is always read at the prompt, and as the same words if and only if it has no unquoted exotic blank, no escaped newline, and in double quotes no backslash before a character that needs none. |
| PluginActions.FindReferences | plugins/src/lib.rs:642-660 | The template loop computes the specified references. |
| PluginActions.ReferencesMeaning | plugins/src/lib.rs:642-660 | No references means no opening of a template occurs; every reference is a valid id whose whole template occurs. |
| PluginActions.ReferencesInTurn | plugins/src/lib.rs:642-660 | References are found one after the other, each in its place and none left out. |
| PluginActions.ValidateAction | plugins/src/lib.rs:488-592 | Validation succeeds exactly on acceptable actions, stated declaratively. |
| PluginActions.ValidateArgument | plugins/src/lib.rs:545-571 | An argument is accepted exactly when it has no template or is nothing but the template of a declared input. |
| PluginRender.Render | plugins/src/lib.rs:672-740 | The rendering loops compute the specified command or error. |
| PluginRender.AcceptedRenders | plugins/src/lib.rs:672-740 | An accepted action renders if and only if no undeclared input is given, required ones are there and each value normalizes. |
| PluginRender.RenderedWords | plugins/src/lib.rs:703-740 | A POSIX shell reads the command as the sudo words, the program and one word per argument, with nothing expanded again; a template is a text or option as it is, the decimal of an integer, true or false of a flag, and the empty word when the input was left out. |
| PluginRender.TemplateRefers | plugins/src/lib.rs:642-660 | The template of a valid id refers to that id only. |
| PluginRender.IntegerRoundTrip | plugins/src/lib.rs:748-758 | Every 64-bit integer survives being written and parsed. |
| PluginRender.ParseMeaning | plugins/src/lib.rs:748-758 | Parsing takes exactly the texts of 64-bit integers, with or without a sign and leading zeros, and gives the integer they are for. |
| PluginRender.IntegerInput | plugins/src/lib.rs:748-758 | An integer renders the same given as a number or as any text for it. |
| PluginRender.NormalizeMeaning | plugins/src/lib.rs:742-782 | A value is taken if and only if it is of the input's kind and its rendering, written out kind by kind, fits into 1024 bytes without NUL and line breaks; one of another kind is refused as such. |
| PluginRender.NormalizeIdempotent | plugins/src/lib.rs:742-782 | Normalizing a normalized value changes nothing for every kind but Boolean, whose own text is always refused. |
| RemotePath.NormalizeRemotePath | cli/src/commands/sftp.rs:371-396 | The stack loop computes the normalized path. |
| RemotePath.NormalizeMeaning | cli/src/commands/sftp.rs:371-396 | A normalized path has no empty, `.` or `..` component, names the same place, and normalizing is idempotent. |
| RemotePath.JoinMeaning | cli/src/commands/sftp.rs:354-369 | Joining walks on from the directory whatever slashes are written, and keeps absoluteness. |
| RemotePath.ResolveMeaning | cli/src/commands/sftp.rs:336-352 | Resolving writes down where the path leads, as an absolute clean path. |
| RemotePath.ResolveComposes | cli/src/commands/sftp.rs:336-396 | Resolving b against the result of resolving a equals resolving a/b. |
| RemotePath.ParentUndoesChild | cli/src/commands/sftp.rs:375-383 | `..` undoes one component, and stays at the root. |
| TarListing.ListTarEntries | src/lib/archivePreview.ts:83-114 | The lister stays in bounds and terminates on every byte array and computes the specified listing or error. |
| TarListing.BadSizes | src/lib/archivePreview.ts:72-81 | Which size fields are refused: binary ones, and texts that are neither empty nor begin with an octal number that is not negative. |
| TarListing.RegionsAreDisjoint | src/lib/archivePreview.ts:106-111 | Every listed entry's data lies inside the archive; the regions are disjoint and increasing. |
| TarRoundTrip.ScanMember | src/lib/archivePreview.ts:87-111 | One written member: its header is read and its padded data stepped over. |
| TarRoundTrip.ListingUndoesArchive | src/lib/archivePreview.ts:83-114 | Listing a written archive gives its members in order up to 5000, without extension headers and nameless ones, with sizes and directory flags, paths trimmed. |
| TarRoundTrip.BrokenHeader | src/lib/archivePreview.ts:87 | An archive that breaks off inside a header is listed up to there. |
| TarRoundTrip.BrokenData | src/lib/archivePreview.ts:106-110 | One that breaks off inside a member's data is refused as a whole, unless 5000 entries come before. |
| TarRoundTrip.RoundTrip | src/lib/archivePreview.ts:83-114 | For at most 5000 members without blanks around their names, listing gives exactly what was written. |
| TarRoundTrip.DecodeTextIsFaithful | src/lib/archivePreview.ts:10-17 | Decoding UTF-8 and dropping a byte-order mark gives back every text the round trip is about. |
| TarRoundTrip.PathIsKept | src/lib/archivePreview.ts:14-17 | A path is shown as written if and only if its two parts have no surrounding blanks. |
| ReplayBuffer.OutputReplayBuffer.Push | src-tauri/src/replay.rs:17-41 | The byte count is kept equal to the sum of chunk lengths, and the chunks are those the history of pushes leaves. |
| ReplayBuffer.HoldsLongestRun | src-tauri/src/replay.rs:17-41 | The buffer holds the longest run of newest chunks within 64 KiB: nothing was evicted or the newest evicted chunk would not fit. |
| ReplayBuffer.ReplaysSuffix | src-tauri/src/replay.rs:17-45 | Its concatenation is a suffix of everything pushed. |
| ActivityMerge.MergeAgentActivity | src/stores/agentActivityStore.ts:14-21 | The merging loop computes the specified merge. |
| ActivityMerge.MergeMeaning | src/stores/agentActivityStore.ts:14-21 | A merge shows, for each id, the event of greatest sequence, strictly descending. |
| ActivityMerge.TieKeepsKnown | src/stores/agentActivityStore.ts:14-21 | What is known of an activity is replaced by a greater sequence number only. |
| ActivityMerge.OrderDoesNotMatter | src/stores/agentActivityStore.ts:14-21 | Merging pages in any order, grouping and repetition gives the same list. |

## Left out

- SyncTheorems.LocalChangeIsAccountedFor: does not say "in the outbox or in the log", because that is false; the third case names the overtaking change.
- SyncTheorems.EnvelopeAppearsOnce: identifiers of new envelopes and changes are taken to be fresh, as random UUIDs are.
- CloudSync.CloudSyncManager.RunSync: the applied, ignored and conflict counters of the report are not specified, and local edits that arrive while a run is under way are in `SyncProtocol` only.
- SyncHandles.HandleFetch: the objects are tied to the protocol request by request, not as whole rounds; what comes between two requests is any steps there and `OthersWrite` here.
- ObjectTransport.RemoteObject.ExchangeGist: a conflict answer always means that the precondition failed, and what the network does to each request is a parameter.
- ObjectTransport.RemoteObject.Write: an entity tag never names two different contents, which servers promise for strong tags; requests that arrive after their sender went on are in `SyncProtocol`.
- SyncLog.OpenPageMeaning: encryption is an inverse pair, ciphertext length an arbitrary function of the batch; JSON, base64 and pairing codes are not modelled.
- SyncTheorems.AttemptSucceedsExactly: how many bytes a document has when it is read or written is an arbitrary function of it.
- ReplicaStore.AcknowledgeMeaning: database tables are values and a transaction is one step; updates in place of rows are not captured.
- ReplicaStore.ApplyBatchMeaning: renaming on name collisions and the rewriting of content under an equal revision, credential moves and domain tables are not modelled; an entity is an opaque body.
- Cursors are kept as numbers, not as their decimal text; switching vaults, rebuilding the outbox and file export are not modelled.
- HTTP, TLS, request building, URL and token checks are not modelled.
- DockRuns.GivenUpIsNeverAccepted: a sender whose message could not be emitted gives up early and may still be accepted; all windows read one monotone clock.
- DockHandoff.SettleMeaning: failures of local storage while releasing a pane, window previews, focus calls and pointer gestures are not modelled; the hit test and whether a snapshot can be taken over are parameters.
- DockRuns.WorkspaceStaysSound: the split action of the menu, which checks the bound before it waits for its session, and trees that the mosaic component hands back after a drag are not among the layout steps.
- ApprovalRuns.SettledQueue: the three listeners are registered in one step, events arrive in the order they were emitted, and the auto-approve deadline is not modelled.
- SessionRestore.MatchSessions: answers of the backend are parameters, a session it opens has a new identifier (so replacing an entry and appending one are the same), and no other session comes or goes while a restore waits.
- SessionRestore.RailMeaning: text buffers and the active session chosen from the old state are not modelled.
- WorkspaceRemap.RenamingIsInjective: assumes tab ids as the stores build them and session ids without their separators.
- PaneIds.UriRoundTrip: strings are sequences of Unicode scalar values, so lone surrogates, for which encoding fails, do not occur.
- WindowFit.FittingIsIdempotent: arithmetic is over real numbers, without rounding.
- PluginActions.ValidateAction: says which actions are accepted; when several things are wrong it does not say which of them is named.
- PluginRender.Render: values that are not text, integers or booleans are one case, and the error for an undeclared input does not name it.
- ShellWords.PosixUndoesQuote: the splitter covers word formation and says where a shell would do more; it does not model those expansions, nor reserved words and aliases in command position.
- TarListing.ListTarEntries: the platform's text decoder is a parameter; `TarRoundTrip` assumes it gives back what was encoded.
- TarRoundTrip.RoundTrip: names longer than their fields and sizes beyond eleven octal digits are outside it; checksums are not read by the lister.
- The ZIP lister, gzip expansion and base64 decoding are not modelled.
- ActivityMerge.OrderDoesNotMatter: assumes that a sequence number identifies its event; cursors and paging of the activity store are not modelled.
- `sideAt`, `paneAtPoint`, tab reordering and the list of sessions outside a restore are not modelled: they would add only easy members.
