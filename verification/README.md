# Verified models of the client core

This project models the framework-free state machines and list algorithms of the Multica client (chat drafts, uploads
and restores; the mobile timeline and mention input; the inbox; feature flags; the exception fuse; the WebSocket
client; recency lists; agent presence and activity) and proves what they keep over every input and every run.
`dafny verify dfyconfig.toml` checks all of it.

How the pieces fit together:

- **Chat drafts** — `DraftUploads`, `ChatStorage` and `ChatSlots` hold the persisted data and its readers and writers.
  `ChatModel` is the chat store as a value (`Chat`), with one `Step` per action, `Load` for creation, reload and
  workspace rehydration, and `Logout`. `ChatStore` is the same store as an object over a storage object; every method
  is proved to do what the value model does, so whatever is proved of `Chat` holds of it. `DraftTexts` is a plain
  machine without storage that says which text and which selection the store has to show.
- **Protocols over the store** — `UploadCoordinator` is the controller map; `UploadProtocol` interleaves it with the
  network, the store, workspace switches, reloads and logout, `UploadDelivery` says what each outcome does to the
  draft, and `UploadVisibility` what a user can still be shown. `RestoreProtocol` does the same for durable draft
  restores with a server, a cache, fetches in flight, lost or retried consumes and sign-outs. `PendingQueues` compares
  the server-less restore queues with the log of everything that was ever enqueued, dequeued or wiped.
- **Timeline and mentions** — `TimelineThread`, `TimelineCoalesce`, `MentionSerialize`, `MentionDocuments` (what
  serialization means, stated on documents of plain text, chips and stray sentinels), `MentionInput`,
  `MentionSessions` (whole editing sessions) and `MentionReading` (what the server reads in the message sent).
- **Caches and indexes** — `InboxGrouping`, `InboxMutations`, `TaskMessages`, `AgentPresence`, `AgentActivity` (both
  over `Grouping`), `ViewedIssues`, `RecentContexts`.
- **Arithmetic and fault tolerance** — `FeatureHash`, `StaticProvider`, `ExceptionFuse`, `Reconnect`.

Storage is a map from keys to blobs whose decoding undoes encoding; timestamps are integers; what a random generator,
a clock or an engine-dependent key order supplies is a parameter.

## Where a property holds only under a condition

Each condition is proved exact, with an input or a run that fails it.

- *Restores are applied at most once* (`packages/core/chat/mutations.ts:15-26`). A fetch that lands between the
  optimistic removal and the confirmation puts the row back in the cache; the confirmation then forgets the ledger
  entry and the row is offered again (`RefetchDuringConsumeReoffers`). In every reachable state, whatever was confirmed
  before, forgetting a row is safe exactly when it is in neither the cache nor an answer in flight
  (`ForgetIsSafeExactly`). Signing out clears the ledger of every listed workspace, so a row whose consume the server
  has not carried out can be applied again after the next login (`LoginReapplies`), and only then
  (`SignOutIsSafeExactly`). A restore for which its own confirmations and the sign-outs are safe is applied once at
  most, whatever happens to the others (`AtMostOnce`).
- *Logout leaves nothing behind* (`packages/views/auth/use-logout.ts:40-50`). The workspace list comes from a query
  cache and may be missing. If it lacks the current workspace, memory is emptied while storage is not
  (`LogoutMirrorsExactly`), and an enqueue would then overwrite the queues that are stored (`UnlistedLogoutLosesQueues`,
  `UnlistedLogoutDisagrees`): this is so exactly when there is a queue (`QueuesKeepEveryRestore`). If the list has it,
  the keys go while memory keeps the selected agent, session and project (`LogoutSelectionExactly`). The same callback
  goes on to leave the workspace (`packages/core/auth/store.ts:123`), which reads storage again and settles both before
  anything is written under that workspace's keys (`SignOutSettles`, `SettledRunKeepsQueues`). What remains of an
  unlisted workspace is its storage: an upload is shown again exactly from a slot there that a load shows
  (`NoUploadOutlivesLogoutExactly`, with `RestartShows` as the run).
- *One outcome per upload* (`packages/core/drafts/upload-coordinator.ts:15-19`). A success callback that throws
  anything but an abort error on an upload that was not aborted is called a second time with a failure
  (`TwoOutcomesExactly`, `ThrowingCallbackRunsTwice`).
- *Text and attachments never disagree about the adopted slot* (`packages/core/chat/store.ts:248-253`). The two maps
  are migrated independently: if one already has a unified slot and the other only the selected agent's legacy one,
  current text is joined by legacy attachments or the other way round (`AdoptionAgreesExactly`,
  `CurrentTextWithLegacyFiles`).
- *Every comment and activity is shown* (`apps/mobile/lib/timeline-thread.ts:24-26`). Entries on a loop of parent
  pointers, or replying into one, appear in no row (`SelfReplyIsLost`); without a loop nothing is lost
  (`NothingIsLostUnlessLoop`).
- *Mentions link* (`apps/mobile/lib/mention-serialize.ts:108-121`). A mention picked before an existing one is appended
  to the end of the marker list, so the text falls back to plain unless the later names are all the same
  (`SentAfterInsertion`, `EarlierPickFallsBack`); a name containing white space always falls back (`RoundTrip`,
  `SpacedNameFallsBack`).
- *Merged messages are strictly ordered*: exactly when the new part of the batch repeats no number
  (`MergeIsStrictExactly`, `RepeatedNumberStays`).
- *A visit stays in the recent list*: if the clock steps back, a visit to a full store can evict itself
  (`SelfEvictedExactly`, with the run `ClockStepsBack`).

Two more are exact conditions that the inputs the code is written for always meet. Coalescing is idempotent on
time-ordered input, which the caller promises; on other input exactly under `IdempotentExactly`, with
`UnorderedNeedsASecondPass` as the input that fails it. An optimistic archive removes its row exactly when the patch
catches every item of it (`FlipRemovesRowExactly`); what can escape (`SiblingEscapes`) needs an issue id that is empty
or equal to a notification's id, and both are server-made UUIDs. Flag key and identifier are hashed apart for every key
without a zero byte, and `FedAgreesExactly` says which other pairs coincide.

## Model

| member | source | states |
|---|---|---|
| `DraftUploads.NormalizeStoredUploads` | packages/core/drafts/draft-upload.ts:120-146 | the loading loop computes `Normalize` on any stored list, legacy attachments and unknown shapes included |
| `DraftUploads.NormalizeEach` | packages/core/drafts/draft-upload.ts:120-146 | what becomes of each stored item wherever it stands: kept, dropped while in flight, an old attachment wrapped under its own id, anything else dropped |
| `DraftUploads.NormalizeStored` | packages/core/drafts/draft-upload.ts:120-146 | writing a list and loading it drops exactly the uploads in flight and keeps the others, in order |
| `DraftUploads.NormalizeIsSettled` | packages/core/drafts/draft-upload.ts:120-146 | whatever was stored, a loaded list has nothing in flight and survives any further write and load unchanged |
| `DraftUploads.DropKeepsDistinct` | packages/core/chat/store.ts:576-586 | removing an upload keeps placeholder ids distinct |
| `DraftUploads.SettledKeepsDistinct` | packages/core/drafts/draft-upload.ts:120-146 | a reload keeps placeholder ids distinct |
| `ChatStorage.KeyStringInjective` | packages/core/chat/store.ts:367-370 | no two fields or workspaces share a storage key, whatever characters a slug contains |
| `ChatStorage.DraftsRoundTrip` | packages/core/chat/store.ts:78-101 | reading written drafts gives them back without the empty ones |
| `ChatStorage.SlotsRoundTrip` | packages/core/chat/store.ts:112-210 | reading written attachment slots gives them back without uploads in flight and without empty slots |
| `ChatStorage.IdsRoundTrip` | packages/core/chat/store.ts:134-149 | reading the written ledger is the identity |
| `ChatStorage.QueuesRoundTrip` | packages/core/chat/store.ts:151-194 | reading written queues gives every entry back in order, a missing attachment list read as empty, empty queues dropped |
| `ChatStorage.ReadsAreStable` | packages/core/chat/store.ts:112-194 | what is read from any blob, foreign ones included, is unchanged by another write and read |
| `ChatStorage.DraftsWritten` | packages/core/chat/store.ts:91-101 | what is written holds every non-empty draft and no empty one, and nothing is stored when there is none |
| `ChatStorage.ListsWritten` | packages/core/chat/store.ts:190-210 | nor is an empty slot or queue ever written |
| `ChatStorage.ReloadedExactly` | packages/core/chat/store.ts:151-194 | a reload keeps id, text, session, files and order of waiting restores |
| `ChatSlots.MigrateLegacyNewChatSlots` | packages/core/chat/store.ts:226-246 | the copy, adopt and delete loop computes `Migrate` and reports a change exactly when a legacy slot existed |
| `ChatSlots.MigrationEffect` | packages/core/chat/store.ts:211-246 | all legacy slots go, every other slot and any existing unified slot stay, the selected agent's slot is adopted exactly when there is no unified one |
| `ChatSlots.MigrationIdempotent` | packages/core/chat/store.ts:222-224 | migrating again, even under another selected agent, changes nothing |
| `ChatSlots.DraftsWriteSurvives` | packages/core/chat/store.ts:254-268 | after the first of the two writes a new load sees the same drafts and the same attachments |
| `ChatSlots.SlotsWriteSurvives` | packages/core/chat/store.ts:254-268 | the same after the second write, and then nothing is left to migrate |
| `ChatSlots.MigrationSurvivesCrash` | packages/core/chat/store.ts:254-268 | a crash before, between or after the two writes followed by a reload ends in the same drafts, attachments and storage |
| `ChatSlots.AdoptionAgreesExactly` | packages/core/chat/store.ts:248-268 | what the new-chat text and uploads of a load come from, in content; and when both are there they come from one draft exactly when neither map keeps its current draft while the other adopts a legacy one |
| `ChatSlots.CurrentTextWithLegacyFiles` | packages/core/chat/store.ts:248-268 | an input where they do not: the current words shown with the old agent's files |
| `ChatModel.CommitMirrors` | packages/core/chat/store.ts:443-602 | replacing any slices, storage first, keeps decoded storage equal to pruned memory |
| `ChatModel.StepMirrors` | packages/core/chat/store.ts:423-602 | every action keeps decoded storage equal to pruned memory |
| `ChatModel.StepMirrorsSelection` | packages/core/chat/store.ts:423-442 | and the stored selection equal to the one in memory |
| `ChatModel.StepIsolated` | packages/core/chat/store.ts:367-370 | no action touches another workspace's keys |
| `ChatModel.LoadIsolated` | packages/core/chat/store.ts:650-682 | a load, migration writes included, touches no other workspace's keys |
| `ChatModel.LoadDependsOnOwnKeys` | packages/core/chat/store.ts:650-682 | what a load puts in memory depends only on that workspace's own keys |
| `ChatModel.LoadMirrors` | packages/core/chat/store.ts:254-268 | a load from any storage leaves memory and storage in step |
| `ChatModel.ReloadSettles` | packages/core/chat/store.ts:385-401 | reloading gives memory back normalised: empty drafts and uploads in flight dropped, ledger and queues kept |
| `ChatModel.RunKeepsNoLegacySlots` | packages/core/chat/store.ts:211-245 | loading leaves no slot under a legacy key, and no run of events that names none brings one back |
| `ChatModel.LogoutMirrorsExactly` | packages/views/auth/use-logout.ts:40-50 | a logout keeps storage and memory in step exactly when its list holds the current workspace, or nothing was kept in the slices it resets |
| `ChatModel.LogoutSelectionExactly` | packages/views/auth/use-logout.ts:40-50 | a logout leaves the selected agent, session and project in memory, so it keeps them in step with storage exactly when the current workspace is not listed or nothing is selected |
| `ChatModel.NextMirrorsExactly` | packages/core/chat/store.ts:423-682 | actions, switches and reloads always keep drafts, uploads, ledger and queues in step, logouts exactly under their condition |
| `ChatModel.RunMirrorsExactly` | packages/core/chat/store.ts:423-682 | over every run these four stay in step all along exactly when every logout meets that condition |
| `ChatModel.NextSelectionExactly` | packages/core/chat/store.ts:423-682 | actions, switches and reloads always keep the selection in step, logouts exactly under theirs |
| `ChatModel.RunSelectionExactly` | packages/core/chat/store.ts:423-682 | over every run the selection stays in step all along exactly when every logout meets that condition |
| `ChatModel.SignOutSettles` | packages/core/auth/store.ts:117-128 | signing out also leaves the workspace, after which everything is in step and memory shows what is stored under no workspace, whatever the list held |
| `ChatModel.LoadingRepairs` | packages/core/chat/store.ts:650-682 | a reload, or a switch elsewhere, brings them in step again whatever came before |
| `ChatModel.LogoutLeavesExactly` | packages/core/drafts/cleanup-registry.ts:53-78 | after logout a listed workspace loads empty and any other loads exactly what it would have before |
| `ChatModel.RunAway` | packages/core/chat/store.ts:367-370 | a run spent in other workspaces leaves a workspace's keys untouched |
| `ChatModel.ThereAndBack` | packages/core/chat/store.ts:650-682 | switching away, doing anything elsewhere and switching back restores what a load before leaving would have given |
| `ChatModel.BackHomeRestores` | packages/core/chat/store.ts:650-682 | so on return every non-empty draft, every finished or failed upload, the ledger, the queues and the selection are there again |
| `DraftTexts.ContinuesExactly` | packages/core/chat/store.ts:503-512 | appending gives the old text up to its last visible character, a blank line and the new text, or the new text alone if nothing was visible, and nothing else |
| `DraftTexts.TextAfter` | packages/core/chat/store.ts:495-602 | which text every session has in memory after every action |
| `DraftTexts.ChoiceAfter` | packages/core/chat/store.ts:423-442 | which agent, session and project is stored after every action; an empty session or project is none |
| `DraftTexts.TurnAgrees` | packages/core/chat/store.ts:423-682 | every action, switch, reload and logout does to storage what the plain machine does to its page |
| `DraftTexts.RunShowsPage` | packages/core/chat/store.ts:423-682 | over every run storage holds exactly the texts and selections of the page, for every session of every workspace, and memory shows its texts; logouts as in `PendingQueues.SettledRunKeepsQueues` |
| `DraftTexts.FreshPage` | packages/core/chat/store.ts:385-401 | an empty installation agrees with an empty page |
| `ChatStore.WriteDrafts` | packages/core/chat/store.ts:89-100 | leaves the pruned drafts under the key, or removes it, and touches no other key |
| `ChatStore.WriteDraftAttachments` | packages/core/chat/store.ts:196-210 | the same for attachment slots |
| `ChatStore.WriteAppliedRestores` | packages/core/chat/store.ts:146-149 | the same for the ledger |
| `ChatStore.WritePendingSendRestores` | packages/core/chat/store.ts:183-194 | the same for the queues |
| `ChatStore.ReadDraftAttachments` | packages/core/chat/store.ts:112-132 | the reading loop keeps exactly the slots that normalise to something |
| `ChatStore.ReadPendingSendRestores` | packages/core/chat/store.ts:159-181 | the reading loop keeps exactly the queues with a usable entry |
| `ChatStore.LoadDraftSlots` | packages/core/chat/store.ts:254-268 | both maps migrated against the same agent, and storage left as `MigratedDisk` says |
| `ChatStore.ClearWorkspaceStorage` | packages/core/platform/storage-cleanup.ts:19-41 | removes every chat key of a workspace and nothing else; an empty slug removes nothing |
| `ChatStore.Store.constructor` | packages/core/chat/store.ts:385-401 | creation is a load of the current workspace |
| `ChatStore.Store.SetCurrentWorkspace` | packages/core/chat/store.ts:650-682 | switching is a load of the new workspace, and a no-op for the same slug |
| `ChatStore.Store.Rehydrate` | packages/core/chat/store.ts:650-682 | every slice is read again from the current workspace's keys |
| `ChatStore.Store.LogOut` | packages/views/auth/use-logout.ts:31-50 | memory slices reset, then the listed workspaces cleared: `Logout` |
| `ChatStore.Store.SetActiveSession` | packages/core/chat/store.ts:423-431 | the model's step, storage and memory |
| `ChatStore.Store.SetSelectedAgentId` | packages/core/chat/store.ts:432-436 | the model's step |
| `ChatStore.Store.SetSelectedProjectId` | packages/core/chat/store.ts:437-442 | the model's step |
| `ChatStore.Store.MarkDraftRestoreApplied` | packages/core/chat/store.ts:450-456 | the model's step: appended once, persisted before memory |
| `ChatStore.Store.ForgetDraftRestoreApplied` | packages/core/chat/store.ts:458-464 | the model's step |
| `ChatStore.Store.EnqueuePendingSendRestore` | packages/core/chat/store.ts:470-482 | the model's step: empty ids and repeats ignored, otherwise at the end |
| `ChatStore.Store.DequeuePendingSendRestore` | packages/core/chat/store.ts:484-495 | the model's step: that id removed, an emptied queue dropped |
| `ChatStore.Store.SetInputDraft` | packages/core/chat/store.ts:496-502 | the model's step |
| `ChatStore.Store.AppendToInputDraft` | packages/core/chat/store.ts:503-512 | the model's step: end trimmed, then a blank line |
| `ChatStore.Store.SetInputDraftAttachments` | packages/core/chat/store.ts:513-520 | the model's step |
| `ChatStore.Store.AddInputDraftAttachment` | packages/core/chat/store.ts:521-536 | the model's step: replaced in place or appended |
| `ChatStore.Store.AddInputDraftUpload` | packages/core/chat/store.ts:537-544 | the model's step: a known id is ignored |
| `ChatStore.Store.SettleInputDraftUpload` | packages/core/chat/store.ts:545-557 | the model's step: only a tracked placeholder settles, in place |
| `ChatStore.Store.FailInputDraftUpload` | packages/core/chat/store.ts:558-575 | the model's step |
| `ChatStore.Store.RemoveInputDraftUpload` | packages/core/chat/store.ts:576-586 | the model's step |
| `ChatStore.Store.ClearInputDraft` | packages/core/chat/store.ts:587-602 | the model's step: both slots of the session, nothing if neither exists |
| `UploadCoordinator.Coordinator.StartUpload` | packages/core/drafts/upload-coordinator.ts:62-71 | a fresh controller under the client id |
| `UploadCoordinator.Coordinator.FinishUpload` | packages/core/drafts/upload-coordinator.ts:97-103 | the entry goes only if it is still this request's controller |
| `UploadCoordinator.Coordinator.AbortUpload` | packages/core/drafts/upload-coordinator.ts:108-113 | aborts and forgets one id, ignores unknown ones |
| `UploadCoordinator.Coordinator.AbortAll` | packages/core/drafts/upload-coordinator.ts:119-126 | aborts every controller and empties the map |
| `UploadCoordinator.TwoOutcomesExactly` | packages/core/drafts/upload-coordinator.ts:72-104 | exactly when a request delivers no outcome, and exactly when it delivers two |
| `UploadCoordinator.ThrowingCallbackRunsTwice` | packages/core/drafts/upload-coordinator.ts:72-104 | an input that does: a delivered upload whose callback throws is then reported as failed |
| `UploadCoordinator.RestartIsNotEvicted` | packages/core/drafts/upload-coordinator.ts:97-103 | a request that ends late does not evict a newer one under its id |
| `UploadProtocol.TakeKeepsRequests` | packages/core/drafts/upload-coordinator.ts:62-126 | under every interleaving the map holds exactly the started requests neither finished nor aborted, each under its own id, and no request has delivered twice |
| `UploadProtocol.TakeKeepsInv` | packages/views/editor/use-coordinated-uploads.ts:367-500 | besides that, upload ids stay distinct in every slot of every workspace, and a finished entry holds the attachment its own request returned, or is a server row staged by a restore; the composer's pruning and staging included |
| `UploadProtocol.RunKeepsInv` | packages/core/drafts/upload-coordinator.ts:15-19 | the same over every run of picks, results, continuations, dismissals, clears, prunings, restores, switches, reloads and logouts |
| `UploadProtocol.FreshStart` | packages/core/chat/store.ts:385-401 | the invariant holds when nothing has happened |
| `UploadProtocol.ReferencedKeepsSlot` | packages/views/chat/components/chat-input.tsx:229-247 | pruning finished uploads the body no longer refers to keeps a slot sound |
| `UploadProtocol.GoneStaysGone` | packages/core/chat/store.ts:545-586 | once no slot tracks a picked upload, no run brings it back, whatever its request still returns |
| `UploadProtocol.GoneExactly` | packages/core/chat/store.ts:545-586 | it stays untracked over every run exactly when no slot tracks it now |
| `UploadDelivery.PickShows` | packages/core/chat/store.ts:537-544 | a picked file appears as a placeholder at the end of its slot, and nothing else changes |
| `UploadDelivery.DeliveryLands` | packages/core/chat/store.ts:545-557 | in every state, the continuation of a resolved request whose placeholder is still tracked turns it into the uploaded file, in place; every other entry, slot and slice stays |
| `UploadDelivery.ResolvedUploadLands` | packages/core/drafts/upload-coordinator.ts:72-84 | so does the network's answer followed by that continuation |
| `UploadDelivery.FailureRemoves` | packages/views/editor/use-coordinated-uploads.ts:447-468 | a failure takes exactly its placeholder out of the slot |
| `UploadDelivery.RejectedUploadGoes` | packages/core/drafts/upload-coordinator.ts:84-97 | so does the network's refusal followed by that continuation |
| `UploadDelivery.SilentOutcome` | packages/core/drafts/upload-coordinator.ts:84-90 | a failure after an abort, or an outcome whose placeholder is gone, changes no draft |
| `UploadDelivery.ReloadKeepsFinished` | packages/core/chat/store.ts:385-401 | a finished or failed entry is still there after a reload |
| `UploadDelivery.TakeKeepsOwned` | packages/core/chat/store.ts:530-586 | every step keeps that each placeholder in flight has a request of its id and session that has not reported |
| `UploadDelivery.RunKeepsOwned` | packages/core/chat/store.ts:530-586 | over every run, so none is left spinning |
| `UploadDelivery.DeliveredSpinsNot` | packages/core/chat/store.ts:530-586 | an upload whose outcome was delivered is in flight in no slot |
| `UploadDelivery.FailLands` | packages/core/chat/store.ts:558-575 | a placeholder marked failed keeps its place and id and carries the error |
| `UploadDelivery.AttachLands` | packages/core/chat/store.ts:521-536 | an attachment is renewed in place or appended under its own id |
| `UploadDelivery.StageLands` | packages/views/chat/components/chat-input.tsx:384-390 | a staged restore puts exactly its files into the slot, in order |
| `UploadDelivery.PruneLands` | packages/views/chat/components/chat-input.tsx:229-247 | pruning takes out exactly the finished files the text no longer refers to, wherever they stand |
| `UploadDelivery.ClearLands` | packages/core/chat/store.ts:587-602 | clearing takes one session's text and files and nothing else |
| `UploadDelivery.DismissKills` | packages/views/editor/use-coordinated-uploads.ts:487-502 | dismissing removes the entry and, while it is in flight, leaves no live request of its id |
| `UploadDelivery.AbortKills` | packages/core/drafts/upload-coordinator.ts:107-113 | an abort leaves no live request of its id |
| `UploadDelivery.LogoutKills` | packages/core/drafts/upload-coordinator.ts:115-126 | a logout leaves no live request at all |
| `UploadDelivery.RestartKills` | packages/core/drafts/upload-coordinator.ts:1-61 | nor does a page reload, whose draft is what storage holds |
| `UploadVisibility.TakeHides` | packages/core/chat/store.ts:545-586 | a picked upload that is neither in memory nor in a stored slot a load would show stays so under every step, whatever legacy slots still hold it |
| `UploadVisibility.HiddenExactly` | packages/core/chat/store.ts:211-268 | it is never shown again in any run exactly when it is hidden in that sense |
| `UploadVisibility.RestartShows` | packages/core/chat/store.ts:211-268 | the run that shows it otherwise: a reload of that workspace, own slots and the adopted legacy slot alike |
| `UploadVisibility.NoUploadOutlivesLogoutExactly` | packages/core/drafts/cleanup-registry.ts:70-78 | after a logout an earlier upload is never shown again in any run exactly when no unlisted workspace has it in a slot of its own or in a legacy slot that can still be adopted, even if its request had resolved just before |
| `RestoreProtocol.TakeKeepsBase` | packages/core/chat/store.ts:134-149 | every step, safe or not: the stored ledger is the one in memory while its workspace is shown, holds only applied rows and every row awaiting confirmation, and never the offered one |
| `RestoreProtocol.RunKeepsBase` | packages/core/chat/store.ts:134-149 | so does every run, with its losses, retries, reloads, switches and sign-outs |
| `RestoreProtocol.TakeKeepsGuard` | packages/core/chat/store.ts:134-149 | for one row: applied and still on the server, in the cache or in an answer in flight implies in the ledger, kept by every step that is safe for that row |
| `RestoreProtocol.AtMostOnce` | packages/core/chat/store.ts:443-464 | over every run in which that row's own confirmations and the sign-outs are safe for it, it is applied once at most, whatever is confirmed of the others |
| `RestoreProtocol.ForgetIsSafeExactly` | packages/views/chat/components/use-chat-draft-restore.ts:116-133 | in every reachable state, forgetting on confirmation can lead to a second application exactly when the row still lingers in the cache or in an answer in flight |
| `RestoreProtocol.SignOutIsSafeExactly` | packages/views/auth/use-logout.ts:40-65 | a sign-out can lead to a second application, with nothing else going wrong, exactly when it clears the ledger while the server still has the row |
| `RestoreProtocol.LoginReapplies` | packages/views/auth/use-logout.ts:40-65 | the run: log in, open the workspace, fetch, offer and apply |
| `RestoreProtocol.GoneIsNeverApplied` | packages/core/chat/mutations.ts:15-50 | a row gone from server, cache and answers is never applied again, whatever the ledger says |
| `RestoreProtocol.ReplayWorks` | packages/views/chat/components/use-chat-draft-restore.ts:134-207 | a lingering row missing from the ledger can always be applied once more |
| `RestoreProtocol.RefetchDuringConsumeReoffers` | packages/core/chat/mutations.ts:27-50 | a concrete run: an answer that lands during the consume makes an applied row offerable again |
| `RestoreProtocol.CleanHandOff` | packages/core/chat/mutations.ts:27-50 | without a fetch in between, a hand-off removes the row from the cached list at once and ends with it gone from server, cache and ledger, applied once |
| `RestoreProtocol.LostConsumeConverges` | packages/views/chat/components/use-chat-draft-restore.ts:134-146 | a lost consume is sent again from the fetched list and ends the same way without another hand-off |
| `RestoreProtocol.DroppedCacheIsSafe` | packages/core/chat/mutations.ts:27-50 | dropping the cached list makes forgetting safe when no answer in flight holds the row |
| `RestoreProtocol.FreshStart` | packages/core/chat/store.ts:134-149 | both invariants hold when nothing has happened |
| `PendingQueues.SettledRunKeepsQueues` | packages/core/chat/store.ts:470-495 | over every run whose logouts list the current workspace, find no queue there, or are followed at once by a switch or reload, every session's queue in every workspace is exactly the accepted restores not yet dequeued or wiped, in order |
| `PendingQueues.QueuesKeepEveryRestore` | packages/core/chat/store.ts:470-495 | after no event of a run can a later such run break that, if and only if every logout lists the current workspace or finds no queue there |
| `PendingQueues.NextKeepsExactly` | packages/views/auth/use-logout.ts:40-50 | the same for one event: a logout that lists neither can lose a restore, everything else cannot |
| `PendingQueues.FreshStart` | packages/core/chat/store.ts:385-401 | an empty installation agrees with an empty log |
| `PendingQueues.UnlistedLogoutLosesQueues` | packages/views/auth/use-logout.ts:40-50 | after any other logout the next enqueue overwrites the workspace's stored queues: only the new restore is left |
| `PendingQueues.UnlistedLogoutDisagrees` | packages/views/auth/use-logout.ts:40-50 | so a restore waiting in another session is lost although nothing dequeued or wiped it |
| `PendingQueues.RunKeepsNoEmptyQueue` | packages/core/chat/store.ts:484-495 | over every run no empty queue is kept in memory |
| `PendingQueues.MemoryShowsTheQueue` | packages/core/chat/store.ts:470-495 | the queue in memory is that same list |
| `PendingQueues.ExpectedDistinct` | packages/core/chat/store.ts:470-483 | ids are unique within a queue and every entry belongs to its session |
| `PendingQueues.AcceptedExactly` | packages/core/chat/store.ts:470-483 | a restore is accepted exactly when its id is not waiting already |
| `PendingQueues.ExpectedEntered` | packages/core/chat/store.ts:470-483 | an accepted restore goes to the end of its own queue and no other queue changes |
| `PendingQueues.ExpectedWithout` | packages/core/chat/store.ts:484-495 | a dequeue removes that id only, a logout empties the listed workspaces, nothing else removes anything |
| `TimelineThread.BuildTimelineRows` | apps/mobile/lib/timeline-thread.ts:37-87 | rows in input order: every activity, every top-level comment, every orphaned reply, each with its thread; terminates although parent pointers may form loops |
| `TimelineThread.Partition` | apps/mobile/lib/timeline-thread.ts:44-61 | entries split into top-level ones and children lists, in input order |
| `TimelineThread.CollectDescendants` | apps/mobile/lib/timeline-thread.ts:63-80 | the queue loop terminates and lists a root's descendants in breadth-first order, none twice |
| `TimelineThread.BuildRow` | apps/mobile/lib/timeline-thread.ts:82-87 | a comment's row carries its descendants, an activity's none |
| `TimelineThread.TopLevelIsRoot` | apps/mobile/lib/timeline-thread.ts:44-61 | a top-level comment is nobody's listed child, so the search from it never returns to it |
| `TimelineThread.TopLevelExactly` | apps/mobile/lib/timeline-thread.ts:24-50 | a row of its own exactly for activities and for comments without a parent among the loaded comments |
| `TimelineThread.RowHoldsItsThread` | apps/mobile/lib/timeline-thread.ts:63-87 | an entry is among a row's replies exactly when following its parents leads to the row's comment |
| `TimelineThread.RowOrder` | apps/mobile/lib/timeline-thread.ts:63-80 | a parent precedes its replies, and siblings keep the input order and are all there |
| `TimelineThread.RootedUnlessLoop` | apps/mobile/lib/timeline-thread.ts:44-80 | every comment leads up to a row exactly when the parent pointers have no loop |
| `TimelineThread.NothingIsLostUnlessLoop` | apps/mobile/lib/timeline-thread.ts:37-87 | rows and replies together are a permutation of the input exactly when there is no loop, and never hold anything twice |
| `TimelineThread.SelfReplyIsLost` | apps/mobile/lib/timeline-thread.ts:48-87 | the shortest loop: a comment naming itself as its parent is in no row |
| `TimelineCoalesce.CoalesceTimeline` | apps/mobile/lib/timeline-coalesce.ts:29-58 | the loop that overwrites its last output computes `Coalesce` |
| `TimelineCoalesce.FoldOrPush` | apps/mobile/lib/timeline-coalesce.ts:34-55 | one entry overwrites the last output with the raised count, or is pushed |
| `TimelineCoalesce.AddTotal` | apps/mobile/lib/timeline-coalesce.ts:33-56 | one entry adds one to the total when it merges, its own count when it does not |
| `TimelineCoalesce.CountsSumToInput` | apps/mobile/lib/timeline-coalesce.ts:29-58 | without pre-set counts the output counts sum to the input length |
| `TimelineCoalesce.KeptSurvive` | apps/mobile/lib/timeline-coalesce.ts:27-58 | comments and `squad_leader_evaluated` entries survive one for one, unchanged, in order |
| `TimelineCoalesce.OutputSettled` | apps/mobile/lib/timeline-coalesce.ts:29-58 | for time-ordered input no two neighbours of the output could still merge, and it stays time-ordered |
| `TimelineCoalesce.CoalesceIdempotent` | apps/mobile/lib/timeline-coalesce.ts:29-58 | for time-ordered input coalescing again changes nothing |
| `TimelineCoalesce.FixedExactlyWhenSettled` | apps/mobile/lib/timeline-coalesce.ts:29-58 | for any input, coalescing changes nothing exactly when no two neighbours could merge |
| `TimelineCoalesce.IdempotentExactly` | apps/mobile/lib/timeline-coalesce.ts:29-58 | for input in any order, a second pass changes nothing exactly when no longest run of mergeable input entries ends with one that the entry before the run could have taken |
| `TimelineCoalesce.UnorderedNeedsASecondPass` | apps/mobile/lib/timeline-coalesce.ts:36-53 | an out-of-order input whose output still changes on a second pass |
| `TimelineCoalesce.CoalesceExactly` | apps/mobile/lib/timeline-coalesce.ts:9-58 | for any input the output is the one list that shows longest consecutive blocks, neighbours in a block being of one action by one actor, never a squad evaluation, and at most two minutes apart unless a task ended; each block as its newest entry with its size added to the count |
| `TimelineCoalesce.BlockIsAlike` | apps/mobile/lib/timeline-coalesce.ts:9-20 | all of a block is of one action by one actor |
| `TimelineCoalesce.OutputsDoNotJoin` | apps/mobile/lib/timeline-coalesce.ts:9-20 | on time-ordered input no two neighbours of the output meet the rule |
| `MentionSerialize.ReadMention` | apps/mobile/lib/mention-serialize.ts:142-167 | reading one sentinel run is one step of the scan: the name up to white space against the next marker, or failure |
| `MentionSerialize.SerializeMentions` | apps/mobile/lib/mention-serialize.ts:122-175 | the cursor loop computes `Serialize`: the scanned links, or the text without sentinels |
| `MentionDocuments.ScanDocument` | apps/mobile/lib/mention-serialize.ts:122-175 | on any rendered document of one-word chips, links exactly when the marker names are the chip names in order, else failure |
| `MentionDocuments.ScanStopsAtSpacedName` | apps/mobile/lib/mention-serialize.ts:149-159 | a chip whose name holds white space makes the scan fail |
| `MentionDocuments.RoundTrip` | apps/mobile/lib/mention-serialize.ts:108-175 | with markers in text order: exactly the linked text if all names are one word, the text without sentinels otherwise |
| `MentionDocuments.ParseReads` | apps/mobile/lib/mention-serialize.ts:122-175 | every text is the rendering of a document of plain text, one-word chips and stray sentinels |
| `MentionDocuments.SerializeAnything` | apps/mobile/lib/mention-serialize.ts:108-175 | for every text and every marker list: the linked text when the names match, the input minus its sentinels when not, so no user character is lost |
| `MentionDocuments.WithChipSpaced` | apps/mobile/lib/mention-serialize.ts:85-106 | picking a mention anywhere in plain text leaves a well-formed document with one more chip in that place |
| `MentionDocuments.MarkersStayInTextOrderExactly` | apps/mobile/lib/use-mention-input.ts:156-172 | appending the marker keeps text order exactly when all later chips equal the new one |
| `MentionDocuments.SentAfterInsertion` | apps/mobile/lib/use-mention-input.ts:156-172 | what is sent after such a pick: linked exactly when all later names are the same name, else plain |
| `MentionDocuments.SpacedNameFallsBack` | apps/mobile/lib/mention-serialize.ts:149-159 | inputs that are not linked: a single mention of a name with white space in it |
| `MentionDocuments.EarlierPickFallsBack` | apps/mobile/lib/use-mention-input.ts:156-172 | inputs that are not linked: a pick in front of a mention with another name |
| `MentionReading.TailIsRead` | server/internal/util/mention.go:16 | the server's pattern reads back type and id from what a link ends with, whatever follows |
| `MentionReading.LinkIsRead` | server/internal/util/mention.go:16-35 | after any text without a link's end, stray brackets included, a link is read as its marker's type and id, and reading goes on behind it |
| `MentionReading.LabelIsRead` | apps/mobile/lib/mention-serialize.ts:161-166 | its label is the name, with an `@` exactly for kinds other than issue |
| `MentionReading.ServerReadsChips` | server/internal/util/mention.go:22-35 | in the message sent for a document the server reads exactly its mentions, in order |
| `MentionReading.ServerReadsSession` | server/internal/util/mention.go:22-35 | so it does after every careful editing session |
| `MentionInput.TokenAtCursor` | apps/mobile/lib/mention-serialize.ts:47-78 | finds the token ending at the cursor, and finds none only if there is none; out-of-range cursors included |
| `MentionInput.TokenUnique` | apps/mobile/lib/mention-serialize.ts:47-78 | there is at most one token ending at a cursor |
| `MentionInput.InsertLands` | apps/mobile/lib/use-mention-input.ts:174-191 | the selection is replaced and the cursor stands the given distance before the end of the inserted text |
| `MentionInput.PressOpens` | apps/mobile/lib/use-mention-input.ts:137-154 | the button leaves an `@` before the cursor at which suggestions open with an empty query |
| `MentionInput.PickLands` | apps/mobile/lib/mention-serialize.ts:85-106 | a pick replaces the `@` and the query by the marked name and a space, the cursor behind it |
| `MentionInput.PrefixLands` | apps/mobile/lib/use-mention-input.ts:193-213 | a prefix goes to the start of the line that holds the selection's start, and the cursor stays at the text behind the selection |
| `MentionInput.MentionState.OnChangeText` | apps/mobile/lib/use-mention-input.ts:115-125 | the whole new state of the handler |
| `MentionInput.MentionState.OnSelectionChange` | apps/mobile/lib/use-mention-input.ts:126-136 | the whole new state of the handler |
| `MentionInput.MentionState.OnAtButtonPress` | apps/mobile/lib/use-mention-input.ts:137-155 | the whole new state of the handler |
| `MentionInput.MentionState.OnSelectMention` | apps/mobile/lib/use-mention-input.ts:156-173 | the whole new state of the handler; nothing without an active token |
| `MentionInput.MentionState.InsertText` | apps/mobile/lib/use-mention-input.ts:174-192 | the whole new state of the handler |
| `MentionInput.MentionState.InsertPrefix` | apps/mobile/lib/use-mention-input.ts:193-214 | inserts at the start of the cursor's line |
| `MentionInput.MentionState.RestoreSnapshot` | apps/mobile/lib/use-mention-input.ts:225-233 | text, selection and markers of the snapshot, no active token |
| `MentionInput.MentionState.ResetAll` | apps/mobile/lib/use-mention-input.ts:234-241 | back to the empty state |
| `MentionInput.MentionState.SerializeText` | apps/mobile/lib/use-mention-input.ts:215-219 | what the current text and markers serialize to |
| `MentionSessions.CutInGap` | apps/mobile/lib/use-mention-input.ts:115-124 | replacing a stretch of plain text between two mentions changes that stretch of the woven text and nothing else |
| `MentionSessions.CutsGapExactly` | apps/mobile/lib/use-mention-input.ts:115-124 | which replacements keep the form: any sentinel-free text, save that right after a mention white space or the end must follow |
| `MentionSessions.LineStartIsCareful` | apps/mobile/lib/use-mention-input.ts:193-213 | a line prefix is always one, whatever mentions the line holds, if no name holds a line break |
| `MentionSessions.AtButtonIsCareful` | apps/mobile/lib/use-mention-input.ts:137-154 | the `@` button is always one with the selection in plain text, even right after a one-word mention |
| `MentionSessions.InsertIsCareful` | apps/mobile/lib/use-mention-input.ts:174-191 | toolbar text is one with the selection in plain text, save right after a mention it would run on from |
| `MentionSessions.PickKeepsForm` | apps/mobile/lib/use-mention-input.ts:156-172 | picking after the last mention keeps text and markers in step |
| `MentionSessions.EditKeepsForm` | apps/mobile/lib/use-mention-input.ts:115-241 | so does every edit outside the mentions, before, between or after them, and going back to a snapshot |
| `MentionSessions.RunKeepsForm` | apps/mobile/lib/use-mention-input.ts:115-241 | the same over every such run |
| `MentionSessions.CarefulSessionLinksExactly` | apps/mobile/lib/use-mention-input.ts:105-241 | what such a session sends: the text with every mention linked in its place, if all names are one word; else the plain text |
| `InboxGrouping.GroupInboxItemsByIssue` | packages/core/inbox/queries.ts:105-140 | the grouping, sorting and merging loops compute `Grouped` |
| `InboxGrouping.GroupItems` | packages/core/inbox/queries.ts:106-112 | the keys in first-occurrence order and each key's items in input order |
| `InboxGrouping.MergeGroup` | packages/core/inbox/queries.ts:119-134 | the row of a sorted group |
| `InboxGrouping.NewestFirstSorts` | packages/core/inbox/queries.ts:115-118 | the sort is descending and keeps the elements |
| `InboxGrouping.HeadIsNewest` | packages/core/inbox/queries.ts:115-119 | its head is the newest item, the first in input order on ties |
| `InboxGrouping.RowIsNewest` | packages/core/inbox/queries.ts:114-135 | a row is its issue's newest item, changed at most by receiving the group's comment anchor |
| `InboxGrouping.FirstAnchorIsNewest` | packages/core/inbox/queries.ts:122-124 | that anchor is the newest non-empty one in the group, if there is any |
| `InboxGrouping.GroupedShape` | packages/core/inbox/queries.ts:105-140 | rows newest first, exactly one for every key that occurs and no other |
| `InboxGrouping.GroupedIdempotent` | packages/core/inbox/queries.ts:91-140 | grouping again changes nothing |
| `InboxGrouping.GroupedFixed` | packages/core/inbox/queries.ts:105-140 | any descending list with distinct keys is left alone |
| `InboxMutations.InboxCache.ArchiveInbox` | packages/core/inbox/mutations.ts:81-95 | the patched list and the snapshot for rollback |
| `InboxMutations.InboxCache.UnarchiveInbox` | packages/core/inbox/mutations.ts:121-137 | the patched archive and the snapshot |
| `InboxMutations.InboxCache.SetRead` | packages/core/inbox/mutations.ts:12-24 | both lists patched, both snapshots |
| `InboxMutations.InboxCache.MarkAllInboxRead` | packages/core/inbox/mutations.ts:155-164 | the patched list and the snapshot |
| `InboxMutations.GroupedWithout` | packages/core/inbox/queries.ts:105-140 | grouping without one issue's items is the grouped list without its row: other rows and their order stay |
| `InboxMutations.FlipRemovesRowExactly` | packages/core/inbox/mutations.ts:81-137 | archiving (or unarchiving) an item removes exactly its row from the shown list if and only if the patch catches every shown item of that row |
| `InboxMutations.SiblingEscapes` | packages/core/inbox/mutations.ts:81-137 | two inputs on which a sibling escapes: an empty issue id, and an issue id equal to another notification's own id |
| `InboxMutations.WholeRowIsCaught` | packages/core/inbox/mutations.ts:81-137 | which it does when no issue id is empty or equal to another item's id |
| `InboxMutations.UnreadWithout` | packages/core/inbox/queries.ts:75-84 | removing a row lowers the unread count by one exactly if the row was unread |
| `InboxMutations.ArchiveLowersUnread` | packages/core/inbox/mutations.ts:81-95 | for every item: archiving takes its row off the badge if that was unread and puts back what is left of the row if that is unread, which is nothing when the row is caught whole |
| `InboxMutations.MarkAllReadClearsBadge` | packages/core/inbox/mutations.ts:155-164 | marking all read makes the badge zero |
| `InboxMutations.MarkingCommutes` | packages/core/inbox/mutations.ts:12-62 | marking then grouping is grouping then marking: only the row whose newest item it is changes |
| `InboxMutations.MarkingMovesBadge` | packages/core/inbox/mutations.ts:12-62 | marking read or unread moves the badge by exactly the rows that showed that notification the other way |
| `InboxMutations.MarkAllKeepsArchive` | packages/core/inbox/mutations.ts:155-164 | marking all read leaves the archive unchanged |
| `TaskMessages.MergeMembers` | packages/core/chat/queries.ts:219-228 | the merge holds every existing entry and the incoming ones with new numbers: exactly the union of numbers, existing entries win |
| `TaskMessages.MergeIsStrictExactly` | packages/core/chat/queries.ts:219-228 | the result is strictly ordered exactly when the new part of the batch repeats no number |
| `TaskMessages.RepeatedNumberStays` | packages/core/chat/queries.ts:219-228 | a batch with one new number twice keeps both |
| `TaskMessages.DeliveriesKeepShape` | packages/core/chat/queries.ts:219-228 | after any deliveries: strictly ordered, nothing lost, exactly the delivered numbers |
| `TaskMessages.SortedByElements` | packages/core/chat/queries.ts:219-228 | a strictly ordered list is determined by its elements |
| `TaskMessages.DeliveriesCommute` | packages/core/chat/queries.ts:208-228 | when payloads are a function of the number, any order and grouping of live events and backfills ends in the same list |
| `Grouping.GroupBy` | packages/core/agents/derive-presence.ts:142-147 | one pass gives, for every id that occurs and no other, exactly its rows in order |
| `AgentPresence.AvailabilityDecays` | packages/core/agents/derive-presence.ts:26-35 | with no new data availability only ever turns from unstable to offline, five minutes after the runtime was last seen |
| `AgentPresence.AvailabilityExactly` | packages/core/agents/derive-presence.ts:26-35 | exactly when archived, online, unstable; offline otherwise, a missing runtime included |
| `AgentPresence.CountsExactly` | packages/core/agents/derive-presence.ts:59-121 | the counts are the numbers of running and of waiting tasks, none for an archived agent, and the capacity is the agent's |
| `AgentPresence.UnknownIsOffline` | packages/core/agents/use-agent-presence.ts:149-153 | an agent not in the list is offline and idle |
| `AgentPresence.DeriveWorkloadDetail` | packages/core/agents/derive-presence.ts:59-83 | the counting loop, and what working and idle mean about the tasks |
| `AgentPresence.DeriveAgentPresenceDetail` | packages/core/agents/derive-presence.ts:96-121 | archived wins over every runtime and task signal; otherwise both dimensions from their own inputs |
| `AgentPresence.BuildPresenceMap` | packages/core/agents/derive-presence.ts:126-155 | an entry for every agent id and no other, derived from the runtime index and the grouped tasks |
| `AgentPresence.BatchAgrees` | packages/core/agents/use-agent-presence.ts:149-159 | with distinct ids each entry is what the single-agent hook derives by find and filter |
| `AgentPresence.RunningCountsAddUp` | packages/core/agents/derive-presence.ts:126-155 | the running counts over a workspace add up to the running tasks of its live agents |
| `AgentActivity.DaysAgoIsCalendar` | packages/core/agents/use-agent-activity.ts:194-202 | the floored quotient counts calendar days |
| `AgentActivity.DeriveAgentActivity` | packages/core/agents/use-agent-activity.ts:126-161 | thirty buckets, each the sum of the rows of its day, oldest first; unreadable and out-of-window rows ignored; age capped |
| `AgentActivity.AgeExactly` | packages/core/agents/use-agent-activity.ts:150-156 | the age is the whole days since creation between none and thirty, thirty if unknown |
| `AgentActivity.BuildActivityMap` | packages/core/agents/use-agent-activity.ts:92-118 | an entry for every agent id and no other, each from exactly that agent's rows |
| `AgentActivity.SummarizeActivityWindow` | packages/core/agents/use-agent-activity.ts:172-192 | the clamped tail and its sums, the zero window included |
| `AgentActivity.WindowTotalsAreCalendarTotals` | packages/core/agents/use-agent-activity.ts:126-192 | the totals shown for any window are the sums of the rows on its calendar days: nothing lost, doubled or leaked |
| `AgentActivity.WiderShowsMore` | packages/core/agents/use-agent-activity.ts:172-192 | a narrower window is the end of a wider one and shows at most as much |
| `AgentActivity.WiderShowsMoreOfRows` | packages/core/agents/use-agent-activity.ts:126-192 | the same from the server's rows, when none of their counts is negative |
| `ViewedIssues.ViewedIssuesStore.Push` | apps/mobile/data/viewed-issues-store.ts:36-41 | the new state: this workspace's list, other workspaces untouched |
| `ViewedIssues.ViewedIssuesStore.Remove` | apps/mobile/data/viewed-issues-store.ts:42-52 | the new state; an unknown workspace gets no list |
| `ViewedIssues.ListIsFirstTen` | apps/mobile/data/viewed-issues-store.ts:22-41 | after any run of pushes over any workspaces a list is the first ten distinct ids of the reversed history |
| `ViewedIssues.ListIsNewestStretch` | apps/mobile/data/viewed-issues-store.ts:36-52 | with removals too: a gap-free beginning of the full recency order, at most ten, no repetition |
| `ViewedIssues.FirstsInOrder` | apps/mobile/data/viewed-issues-store.ts:36-41 | what "first distinct" means: no repetition, ordered by first occurrence |
| `RecentContexts.EntryKeyIdentifies` | packages/core/chat/recent-context-store.ts:32-34 | the text key identifies kind and id, whatever characters the id contains |
| `RecentContexts.RecentContextStore.FindOldest` | packages/core/chat/recent-context-store.ts:62-68 | the reduction finds a workspace with the earliest latest visit |
| `RecentContexts.RecentContextStore.RecordVisit` | packages/core/chat/recent-context-store.ts:40-74 | the new state, eviction included |
| `RecentContexts.RecentContextStore.ForgetContext` | packages/core/chat/recent-context-store.ts:75-89 | the new state; an emptied bucket goes |
| `RecentContexts.RecentContextStore.PruneWorkspaces` | packages/core/chat/recent-context-store.ts:90-100 | exactly the active workspaces stay, unchanged |
| `RecentContexts.PrunedExactly` | packages/core/chat/recent-context-store.ts:90-100 | a workspace survives a pruning, unchanged, exactly when it is active |
| `RecentContexts.RunBounded` | packages/core/chat/recent-context-store.ts:40-100 | over every run, whatever the clock: at most fifty workspaces, one to twenty entries each, distinct |
| `RecentContexts.BucketIsNewestStretch` | packages/core/chat/recent-context-store.ts:40-100 | over every run a bucket is a gap-free beginning of its workspace's recency order, evictions and prunings included |
| `RecentContexts.BucketIsLatestTwenty` | packages/core/chat/recent-context-store.ts:40-60 | with at most fifty workspaces and nothing forgotten or pruned: exactly the latest twenty |
| `RecentContexts.RunOrdered` | packages/core/chat/recent-context-store.ts:40-100 | under a strictly increasing clock every bucket is in visit order and no time is shared |
| `RecentContexts.EvictsTheStalest` | packages/core/chat/recent-context-store.ts:62-71 | a visit evicts a workspace exactly when the store is full, the visited one is new, and its own latest visit is the oldest of all |
| `RecentContexts.KeyOrderIsIrrelevant` | packages/core/chat/recent-context-store.ts:62-71 | the result does not depend on the order in which the engine lists keys |
| `RecentContexts.VisitedIsInFront` | packages/core/chat/recent-context-store.ts:40-74 | over every such run the workspace just visited is there with that visit in front |
| `RecentContexts.SelfEvictedExactly` | packages/core/chat/recent-context-store.ts:62-71 | with any clock, a visit evicts itself exactly when the store is full, its workspace is new, no other latest visit is earlier, and those listed before it are strictly later |
| `RecentContexts.ClockStepsBack` | packages/core/chat/recent-context-store.ts:40-74 | a run from an empty store that does: fifty workspaces visited, then a new one at an earlier time |
| `FeatureHash.XorBits` | packages/core/feature-flags/hash.ts:46-52 | the model's exclusive or works bit by bit |
| `FeatureHash.SignedStep` | packages/core/feature-flags/hash.ts:46-52 | signed exclusive or and `Math.imul` agree with the unsigned step of FNV-1a (draft-eastlake-fnv, section 2) |
| `FeatureHash.HashBytes` | packages/core/feature-flags/hash.ts:46-52 | the inner loop continues the unsigned hash over one part's bytes |
| `FeatureHash.HashParts` | packages/core/feature-flags/hash.ts:29-56 | the whole loop with `>>> 0` is unsigned 32-bit FNV-1a of the parts with one zero byte between each two |
| `FeatureHash.StepIsBijection` | packages/core/feature-flags/hash.ts:31-52 | each step is a bijection on 32-bit states, with its inverse given |
| `FeatureHash.SuffixKeepsDifference` | packages/core/feature-flags/hash.ts:46-52 | states that differ stay different over any common suffix, and only those |
| `FeatureHash.FedAgreesExactly` | packages/core/feature-flags/hash.ts:29-56 | exactly which pairs of byte strings are fed to the hash as the same bytes |
| `FeatureHash.FedDetermines` | packages/core/feature-flags/hash.ts:29-56 | without zero bytes in the keys the fed bytes determine key and identifier |
| `FeatureHash.PairsAreFedApart` | packages/core/feature-flags/hash.ts:29-66 | the same for strings through UTF-8 |
| `FeatureHash.Utf8Injective` | packages/core/feature-flags/hash.ts:41-45 | different strings have different UTF-8 bytes |
| `FeatureHash.BucketFor` | packages/core/feature-flags/hash.ts:63-66 | the bucket is the hash modulo one hundred, below one hundred |
| `FeatureHash.PercentIsThreshold` | packages/core/feature-flags/hash.ts:72-76 | every percent, out-of-range ones included, is a plain threshold on the bucket |
| `FeatureHash.BucketIsServers` | server/pkg/featureflag/hash.go:16-26 | the bucket is that of the server's writes: key, zero byte, identifier, from the standard offset basis with the standard prime |
| `FeatureHash.Utf8Samples` | packages/core/feature-flags/hash.ts:46-51 | sample characters of two, three and four bytes |
| `StaticProvider.Provider.Set` | packages/core/feature-flags/static-provider.ts:24-26 | that rule replaced and no other |
| `StaticProvider.Provider.LoadRules` | packages/core/feature-flags/static-provider.ts:32-35 | exactly the given rules |
| `StaticProvider.Provider.Lookup` | packages/core/feature-flags/static-provider.ts:41-46 | an unknown key has no decision, a known one its rule's |
| `StaticProvider.RolloutThreshold` | packages/core/feature-flags/static-provider.ts:48-75 | deny over allow over the percentage threshold: exactly when a rule with a rollout enables |
| `StaticProvider.DefaultExactly` | packages/core/feature-flags/static-provider.ts:48-75 | a rule without a rollout: deny over allow over its default, off if it has none |
| `StaticProvider.MatchesExactly` | packages/core/feature-flags/static-provider.ts:104-117 | a list names a context exactly when it holds the context's non-empty value for the list's attribute, the user by default |
| `StaticProvider.RaisingPercentKeepsEnabled` | packages/core/feature-flags/static-provider.ts:48-75 | raising the percentage never turns an enabled identifier off or moves it to another variant |
| `StaticProvider.VariantTellsEnabled` | packages/core/feature-flags/static-provider.ts:77-107 | two contexts see the same variant exactly when the rule is on for both or off for both, unless it names its own variant "off" |
| `ExceptionFuse.SessionStorage.ShouldDropException` | packages/core/analytics/exception-dedupe.ts:40-80 | the decision and the new counts, under every way storage can fail |
| `ExceptionFuse.CountsNeverExceedKept` | packages/core/analytics/exception-dedupe.ts:51-79 | over every run with any failures: at most fifty fingerprints, each count between one and three and never above what was kept |
| `ExceptionFuse.DropMeansThreeKept` | packages/core/analytics/exception-dedupe.ts:16-20 | a drop means at least three earlier events of that fingerprint were kept |
| `ExceptionFuse.FirstThreeKept` | packages/core/analytics/exception-dedupe.ts:8-20 | the first three of every fingerprint are always kept, whatever fails |
| `ExceptionFuse.ReliableIsExact` | packages/core/analytics/exception-dedupe.ts:25-31 | with reliable storage a tracked fingerprint is kept exactly min(n, 3) times, an untracked one always, and one goes untracked only when fifty are tracked |
| `ExceptionFuse.Hash` | packages/core/analytics/exception-dedupe.ts:176-182 | the loop of signed shifts and sums is djb2 with exclusive or modulo 2^32 |
| `Reconnect.BaseDelayGrows` | packages/core/api/ws-client.ts:164-167 | the base never decreases and is 30000 exactly from attempt five on |
| `Reconnect.DelayBounds` | packages/core/api/ws-client.ts:163-173 | for every attempt and every draw the delay is within a fifth of the base and at most 30000 |
| `Reconnect.DelaySpreads` | packages/core/api/ws-client.ts:163-175 | the lowest draw takes a fifth off, the middle one nothing, and a higher draw never waits less |
| `Reconnect.Client.Connect` | packages/core/api/ws-client.ts:73-89 | the new state of client and browser |
| `Reconnect.Client.ScheduleReconnect` | packages/core/api/ws-client.ts:163-180 | the delay comes from the attempt before the increment |
| `Reconnect.Client.RunCallbacks` | packages/core/api/ws-client.ts:186-192 | every callback once |
| `Reconnect.Client.OnAuthenticated` | packages/core/api/ws-client.ts:182-195 | the new state; callbacks only when a connection was authenticated before |
| `Reconnect.Client.Disconnect` | packages/core/api/ws-client.ts:197-214 | the new state: timer cleared, socket detached and closed, counters and callbacks reset |
| `Reconnect.Client.OnOpen` | packages/core/api/ws-client.ts:91-100 | with a token the socket waits for the acknowledgement, else it is authenticated at once |
| `Reconnect.Client.OnAuthAck` | packages/core/api/ws-client.ts:132-135 | an acknowledgement authenticates |
| `Reconnect.Client.OnClose` | packages/core/api/ws-client.ts:148-150 | a close schedules a reconnect unless the handler was removed |
| `Reconnect.Client.OnTimer` | packages/core/api/ws-client.ts:179 | the timer connects |
| `Reconnect.FreshClient` | packages/core/api/ws-client.ts:55-66 | a new client satisfies the invariant |
| `Reconnect.NextKeepsInv` | packages/core/api/ws-client.ts:73-214 | every event keeps at most one live socket or pending timer, the one the client holds |
| `Reconnect.RunKeepsInv` | packages/core/api/ws-client.ts:73-214 | the same over every run |
| `Reconnect.DisconnectLeavesNothing` | packages/core/api/ws-client.ts:197-214 | after a disconnect nothing is live or pending and the client's state is reset |
| `Reconnect.QuietAfterDisconnect` | packages/core/api/ws-client.ts:197-214 | and it stays so, with no callback run, over every run until someone connects |
| `Reconnect.CallbacksFireExactly` | packages/core/api/ws-client.ts:182-214 | over every run each callback fires exactly on the authentications after the first since the last disconnect while it was subscribed |
| `Reconnect.TriesExactlyWhileWanted` | packages/core/api/ws-client.ts:151-203 | over every run of a new client: after a connect with no later disconnect there is exactly one live socket or pending timer, otherwise none |
| `Reconnect.AttemptsAreFailures` | packages/core/api/ws-client.ts:174-183 | over every such run the attempt counter is the closes since the last authentication or disconnect |
| `Reconnect.TimersBackOff` | packages/core/api/ws-client.ts:163-180 | over every such run a pending timer waits a fifth either side of a second doubled for every earlier failure, half a minute at most |
| `Reconnect.ConnectIsSafeExactly` | packages/core/api/ws-client.ts:73-89 | an outside connect keeps the bound exactly when nothing is live or pending |

## Left out

- JSON text: a stored blob is the decoded value, or an unreadable one; the draft reader takes any record of strings.
- Strings are sequences of Unicode scalar values; offsets in UTF-16 code units are not modelled.
- Sizes, open and expanded flags, the floating window and other interface preferences of the chat store.
- Key order of records, except where a result could depend on it (the eviction of recent workspaces).
- DraftTexts.RunShowsPage: actions name a session or the new-chat slot, as the composer does, never a legacy key.
- UploadProtocol.RunKeepsInv: callbacks do not throw in these runs (`TwoOutcomesExactly` says what a throw does). `setInputDraftAttachments` is called as the composer calls it, to prune and to stage a restore into an empty slot; `addInputDraftAttachment` has no caller.
- UploadProtocol.TakeKeepsInv: the rows a restore stages have distinct ids that no pick has used, as server ids do.
- The composer's write of finished uploads into the editor body, and uploads bound to no draft.
- RestoreProtocol.AtMostOnce: the code does not enforce the conditions on confirmations and sign-outs; `ForgetIsSafeExactly`, `SignOutIsSafeExactly` and the runs say what happens without them. One composer per client.
- RestoreProtocol.SignOutIsSafeExactly: the row is one its ledger still guards; `LoginReapplies` needs no such condition.
- TimelineThread.BuildTimelineRows: needs distinct comment ids; with duplicates inside a loop the source's queue may never empty.
- TimelineCoalesce.CountsSumToInput: entries that arrive with a count of their own are covered by `AddTotal`.
- TimelineCoalesce.CoalesceIdempotent: time-ordered input; `IdempotentExactly` covers the rest.
- MentionReading.ServerReadsChips: names on one line without a link's end of their own, ids in the server's form, and plain text without a link's end, which is where other text would be read as a mention too; the server then drops repeated mentions.
- MentionSessions.CarefulSessionLinksExactly: edits inside a mention, and picks before one, leave the form; `SentAfterInsertion` is exact for the latter and `SerializeAnything` says what any text sends.
- Suggestion list, keyboard and focus handling of the mention input.
- Inbox timestamps that cannot be read; overlapping optimistic mutations with rollback and refetch.
- Session sorting and unread counting in the chat lists: single sorts and filters with no interplay.
- FeatureHash.BucketIsServers: the pinned sample buckets of both sides are not computed here.
- How an exception's fingerprint text is assembled, and collisions of its hash.
- WebSocket message dispatch, URL building and logging; callbacks that subscribe or unsubscribe while they run.
- Reconnect.DelayBounds: the jitter is exact real arithmetic; floating-point rounding of the product is not modelled.
- AgentActivity.DaysAgoIsCalendar: a zone at a fixed offset; days of 23 or 25 hours are not modelled.
- AgentPresence.BatchAgrees: distinct agent and runtime ids; with duplicates the batch keeps the last row and the hook the first.
- Runtime times that cannot be read.
- Network, schemas, rendering, routing, theming and the other parts of the repository not named above.
