/** The chat store as an object over a storage object, method by method against the value model. */
module ChatStore {
  import opened Basics
  import opened DraftUploads
  import opened ChatStorage
  import opened ChatSlots
  import opened ChatModel

  class Storage {
    var items: Disk

    method GetItem(k: Key) returns (b: Option<Blob>)
      ensures b == Get(items, k)
    {
      b := if k in items then Some(items[k]) else None;
    }

    method SetItem(k: Key, b: Blob)
      modifies this
      ensures items == Put(old(items), k, Some(b))
    {
      items := items[k := b];
    }

    method RemoveItem(k: Key)
      modifies this
      ensures items == Put(old(items), k, None)
    {
      items := items - {k};
    }
  }

  // ----- read and write helpers

  method PruneEntries<T(==)>(m: map<string, T>, empty: T) returns (pruned: map<string, T>)
    ensures pruned == map k | k in m && m[k] != empty :: m[k]
  {
    pruned := map[];
    var rest := m.Keys;
    while rest != {}
      invariant rest <= m.Keys
      invariant forall k :: k in pruned <==> k in m && k !in rest && m[k] != empty
      invariant forall k :: k in pruned ==> pruned[k] == m[k]
    {
      var k :| k in rest;
      if m[k] != empty {
        pruned := pruned[k := m[k]];
      }
      rest := rest - {k};
    }
    MapsEqual(pruned, map k | k in m && m[k] != empty :: m[k]);
  }

  method WriteDrafts(storage: Storage, key: Key, drafts: Drafts)
    modifies storage
    ensures storage.items == Put(old(storage.items), key, DraftsBlob(drafts))
  {
    var pruned := PruneEntries(drafts, "");
    assert pruned == PruneDrafts(drafts);
    if pruned == map[] {
      storage.RemoveItem(key);
    } else {
      storage.SetItem(key, DraftsJson(pruned));
    }
  }

  method WriteDraftAttachments(storage: Storage, key: Key, drafts: Slots)
    modifies storage
    ensures storage.items == Put(old(storage.items), key, SlotsBlob(drafts))
  {
    var pruned := PruneEntries(drafts, []);
    assert pruned == PruneSlots(drafts);
    if pruned == map[] {
      storage.RemoveItem(key);
    } else {
      storage.SetItem(key, UploadsJson(StoredSlots(pruned)));
    }
  }

  method WriteAppliedRestores(storage: Storage, key: Key, ids: seq<string>)
    modifies storage
    ensures storage.items == Put(old(storage.items), key, IdsBlob(ids))
  {
    if |ids| == 0 {
      storage.RemoveItem(key);
    } else {
      storage.SetItem(key, IdsJson(Present(ids)));
    }
  }

  method WritePendingSendRestores(storage: Storage, key: Key, queues: Queues)
    modifies storage
    ensures storage.items == Put(old(storage.items), key, QueuesBlob(queues))
  {
    var pruned := PruneEntries(queues, []);
    assert pruned == PruneSlots(queues);
    if pruned == map[] {
      storage.RemoveItem(key);
    } else {
      storage.SetItem(key, QueuesJson(StoredQueues(pruned)));
    }
  }

  method ReadDrafts(storage: Storage, key: Key) returns (drafts: Drafts)
    ensures drafts == DraftsOf(Get(storage.items, key))
  {
    var raw := storage.GetItem(key);
    drafts := if raw.Some? && raw.value.DraftsJson? then raw.value.drafts else map[];
  }

  method ReadDraftAttachments(storage: Storage, key: Key) returns (out: Slots)
    ensures out == SlotsOf(Get(storage.items, key))
  {
    var raw := storage.GetItem(key);
    if raw.None? || !raw.value.UploadsJson? {
      return map[];
    }
    var parsed := raw.value.slots;
    out := map[];
    var rest := parsed.Keys;
    while rest != {}
      invariant rest <= parsed.Keys
      invariant forall k :: k in out <==> k in parsed && k !in rest && SlotOf(parsed[k]) != []
      invariant forall k :: k in out ==> out[k] == SlotOf(parsed[k])
    {
      var draftKey :| draftKey in rest;
      rest := rest - {draftKey};
      if parsed[draftKey].SlotItems? {
        var uploads := NormalizeStoredUploads(parsed[draftKey].uploads);
        if |uploads| > 0 {
          out := out[draftKey := uploads];
        }
      }
    }
    MapsEqual(out, SlotsOf(raw));
  }

  method ReadAppliedRestores(storage: Storage, key: Key) returns (ids: seq<string>)
    ensures ids == IdsOf(Get(storage.items, key))
  {
    var raw := storage.GetItem(key);
    ids := if raw.Some? && raw.value.IdsJson? then Known(raw.value.ids) else [];
  }

  method ReadPendingSendRestores(storage: Storage, key: Key) returns (out: Queues)
    ensures out == QueuesOf(Get(storage.items, key))
  {
    var raw := storage.GetItem(key);
    if raw.None? || !raw.value.QueuesJson? {
      return map[];
    }
    var parsed := raw.value.queues;
    out := map[];
    var rest := parsed.Keys;
    while rest != {}
      invariant rest <= parsed.Keys
      invariant forall k :: k in out <==> k in parsed && k !in rest && QueueOf(parsed[k]) != []
      invariant forall k :: k in out ==> out[k] == QueueOf(parsed[k])
    {
      var sessionId :| sessionId in rest;
      rest := rest - {sessionId};
      if parsed[sessionId].QueueItems? {
        var queued := RestoresOf(parsed[sessionId].restores);
        if |queued| > 0 {
          out := out[sessionId := queued];
        }
      }
    }
    MapsEqual(out, QueuesOf(raw));
  }

  method LoadDraftSlots(storage: Storage, slug: string, agent: Option<string>) returns (drafts: Drafts, uploads: Slots)
    requires agent == TextOf(Get(storage.items, Key(AgentField, slug)))
    modifies storage
    ensures storage.items == MigratedDisk(old(storage.items), slug)
    ensures drafts == LoadDrafts(old(storage.items), slug) && uploads == LoadSlots(old(storage.items), slug)
  {
    var rawDrafts := ReadDrafts(storage, Key(DraftsField, slug));
    var rawUploads := ReadDraftAttachments(storage, Key(AttachmentsField, slug));
    var draftsChanged, uploadsChanged;
    drafts, draftsChanged := MigrateLegacyNewChatSlots(rawDrafts, agent);
    uploads, uploadsChanged := MigrateLegacyNewChatSlots(rawUploads, agent);
    if draftsChanged {
      WriteDrafts(storage, Key(DraftsField, slug), drafts);
    }
    if uploadsChanged {
      WriteDraftAttachments(storage, Key(AttachmentsField, slug), uploads);
    }
  }

  lemma LoadKeepsField(d: Disk, slug: string, f: Field)
    requires f != DraftsField && f != AttachmentsField
    ensures Get(MigratedDisk(d, slug), Key(f, slug)) == Get(d, Key(f, slug))
  {
  }

  const ALL_FIELDS := [AgentField, ProjectField, SessionField, DraftsField, AttachmentsField, AppliedField, QueuesField]

  lemma EveryFieldListed(f: Field)
    ensures f in ALL_FIELDS
  {
    assert f == ALL_FIELDS[0] || f == ALL_FIELDS[1] || f == ALL_FIELDS[2] || f == ALL_FIELDS[3]
        || f == ALL_FIELDS[4] || f == ALL_FIELDS[5] || f == ALL_FIELDS[6];
  }

  /** `clearWorkspaceStorage` for the keys of this model: the registered drafts and the chat selection keys. */
  method ClearWorkspaceStorage(storage: Storage, slug: string)
    modifies storage
    ensures storage.items == Cleared(old(storage.items), {slug})
  {
    ghost var before := storage.items;
    if slug != "" {
      for i := 0 to |ALL_FIELDS|
        invariant storage.items == map k | k in before && !(k.slug == slug && k.field in ALL_FIELDS[..i]) :: before[k]
      {
        storage.RemoveItem(Key(ALL_FIELDS[i], slug));
      }
      assert ALL_FIELDS[..|ALL_FIELDS|] == ALL_FIELDS;
      forall k: Key
        ensures k.field in ALL_FIELDS
      {
        EveryFieldListed(k.field);
      }
    }
    assert storage.items.Keys == Cleared(before, {slug}).Keys;
  }

  // ----- the store

  class Store {
    const storage: Storage
    var slug: string
    var activeSessionId: Option<string>
    var selectedAgentId: Option<string>
    var selectedProjectId: Option<string>
    var inputDrafts: Drafts
    var inputDraftAttachments: Slots
    var appliedDraftRestoreIds: seq<string>
    var pendingSendRestores: Queues

    ghost function State(): Chat
      reads this, storage
    {
      Chat(storage.items, slug, activeSessionId, selectedAgentId, selectedProjectId,
           inputDrafts, inputDraftAttachments, appliedDraftRestoreIds, pendingSendRestores)
    }

    /** Store creation under the workspace that is current by then. */
    constructor (storage: Storage, slug: string)
      modifies storage
      ensures this.storage == storage
      ensures State() == Load(old(storage.items), slug)
    {
      var agent := storage.GetItem(Key(AgentField, slug));
      var session := storage.GetItem(Key(SessionField, slug));
      var project := storage.GetItem(Key(ProjectField, slug));
      var drafts, uploads := LoadDraftSlots(storage, slug, TextOf(agent));
      var applied := ReadAppliedRestores(storage, Key(AppliedField, slug));
      var queues := ReadPendingSendRestores(storage, Key(QueuesField, slug));
      this.storage := storage;
      this.slug := slug;
      activeSessionId, selectedAgentId, selectedProjectId := TextOf(session), TextOf(agent), TextOf(project);
      inputDrafts, inputDraftAttachments := drafts, uploads;
      appliedDraftRestoreIds, pendingSendRestores := applied, queues;
    }

    /** Workspace switch: the slug changes and every slice is read again. */
    method SetCurrentWorkspace(next: string)
      modifies this, storage
      ensures State() == Next(old(State()), SwitchTo(next))
    {
      if slug == next {
        return;
      }
      slug := next;
      Rehydrate();
    }

    method Rehydrate()
      modifies this, storage
      ensures State() == Load(old(storage.items), old(slug))
    {
      var session := storage.GetItem(Key(SessionField, slug));
      var agent := storage.GetItem(Key(AgentField, slug));
      var project := storage.GetItem(Key(ProjectField, slug));
      ghost var d := storage.items;
      var drafts, uploads := LoadDraftSlots(storage, slug, TextOf(agent));
      LoadKeepsField(d, slug, AppliedField);
      LoadKeepsField(d, slug, QueuesField);
      var applied := ReadAppliedRestores(storage, Key(AppliedField, slug));
      var queues := ReadPendingSendRestores(storage, Key(QueuesField, slug));
      activeSessionId, selectedAgentId, selectedProjectId := TextOf(session), TextOf(agent), TextOf(project);
      inputDrafts, inputDraftAttachments := drafts, uploads;
      appliedDraftRestoreIds, pendingSendRestores := applied, queues;
    }

    /** Reset the registered slices in memory, then clear the storage of every listed workspace. */
    method LogOut(slugs: seq<string>)
      modifies this, storage
      ensures State() == Logout(old(State()), set j | 0 <= j < |slugs| :: slugs[j])
    {
      inputDrafts, inputDraftAttachments := map[], map[];
      appliedDraftRestoreIds, pendingSendRestores := [], map[];
      ghost var before := storage.items;
      for i := 0 to |slugs|
        invariant State() == Logout(old(State()), set j | 0 <= j < i :: slugs[j])
      {
        ghost var done := set j | 0 <= j < i :: slugs[j];
        ClearWorkspaceStorage(storage, slugs[i]);
        assert (set j | 0 <= j < i + 1 :: slugs[j]) == done + {slugs[i]};
        assert Cleared(Cleared(before, done), {slugs[i]}) == Cleared(before, done + {slugs[i]});
      }
    }

    method SetActiveSession(id: Option<string>)
      modifies this, storage
      ensures State() == old(State()).Step(ChatModel.SetActiveSession(id))
    {
      if id.Some? && id.value != "" {
        storage.SetItem(Key(SessionField, slug), Text(id.value));
      } else {
        storage.RemoveItem(Key(SessionField, slug));
      }
      activeSessionId := id;
    }

    method SetSelectedAgentId(id: string)
      modifies this, storage
      ensures State() == old(State()).Step(ChatModel.SetSelectedAgentId(id))
    {
      storage.SetItem(Key(AgentField, slug), Text(id));
      selectedAgentId := Some(id);
    }

    method SetSelectedProjectId(id: Option<string>)
      modifies this, storage
      ensures State() == old(State()).Step(ChatModel.SetSelectedProjectId(id))
    {
      if id.Some? && id.value != "" {
        storage.SetItem(Key(ProjectField, slug), Text(id.value));
      } else {
        storage.RemoveItem(Key(ProjectField, slug));
      }
      selectedProjectId := id;
    }

    method MarkDraftRestoreApplied(restoreId: string)
      modifies this, storage
      ensures State() == old(State()).Step(ChatModel.MarkDraftRestoreApplied(restoreId))
    {
      if restoreId in appliedDraftRestoreIds {
        return;
      }
      var next := appliedDraftRestoreIds + [restoreId];
      WriteAppliedRestores(storage, Key(AppliedField, slug), next);
      appliedDraftRestoreIds := next;
    }

    method ForgetDraftRestoreApplied(restoreId: string)
      modifies this, storage
      ensures State() == old(State()).Step(ChatModel.ForgetDraftRestoreApplied(restoreId))
    {
      if restoreId !in appliedDraftRestoreIds {
        return;
      }
      var next := Without(appliedDraftRestoreIds, restoreId);
      WriteAppliedRestores(storage, Key(AppliedField, slug), next);
      appliedDraftRestoreIds := next;
    }

    method EnqueuePendingSendRestore(restore: PendingSendRestore)
      modifies this, storage
      ensures State() == old(State()).Step(ChatModel.EnqueuePendingSendRestore(restore))
    {
      if restore.sessionId == "" || restore.id == "" {
        return;
      }
      var existing := Lookup(pendingSendRestores, restore.sessionId);
      if HasRestore(existing, restore.id) {
        return;
      }
      var next := pendingSendRestores[restore.sessionId := existing + [restore]];
      WritePendingSendRestores(storage, Key(QueuesField, slug), next);
      pendingSendRestores := next;
    }

    method DequeuePendingSendRestore(sessionId: string, restoreId: string)
      modifies this, storage
      ensures State() == old(State()).Step(ChatModel.DequeuePendingSendRestore(sessionId, restoreId))
    {
      var existing := Lookup(pendingSendRestores, sessionId);
      if !HasRestore(existing, restoreId) {
        return;
      }
      var remaining := WithoutRestore(existing, restoreId);
      var next := if |remaining| > 0
        then pendingSendRestores[sessionId := remaining] else pendingSendRestores - {sessionId};
      WritePendingSendRestores(storage, Key(QueuesField, slug), next);
      pendingSendRestores := next;
    }

    method SetInputDraft(sessionId: string, draft: string)
      modifies this, storage
      ensures State() == old(State()).Step(ChatModel.SetInputDraft(sessionId, draft))
    {
      var next := inputDrafts[sessionId := draft];
      WriteDrafts(storage, Key(DraftsField, slug), next);
      inputDrafts := next;
    }

    method AppendToInputDraft(sessionId: string, markdown: string)
      modifies this, storage
      ensures State() == old(State()).Step(ChatModel.AppendToInputDraft(sessionId, markdown))
    {
      var existing := if sessionId in inputDrafts then inputDrafts[sessionId] else "";
      var trimmed := TrimEnd(existing);
      var draft := if trimmed != "" then trimmed + "\n\n" + markdown else markdown;
      var next := inputDrafts[sessionId := draft];
      WriteDrafts(storage, Key(DraftsField, slug), next);
      inputDrafts := next;
    }

    /** Storage first, then memory. */
    method ReplaceUploads(next: Slots)
      modifies this`inputDraftAttachments, storage
      ensures State() == old(State()).Commit(NO_WRITE.(uploads := Some(next)))
    {
      WriteDraftAttachments(storage, Key(AttachmentsField, slug), next);
      inputDraftAttachments := next;
    }

    method SetInputDraftAttachments(sessionId: string, uploads: seq<DraftUpload>)
      modifies this, storage
      ensures State() == old(State()).Step(ChatModel.SetInputDraftAttachments(sessionId, uploads))
    {
      var next := inputDraftAttachments;
      if |uploads| > 0 {
        next := next[sessionId := uploads];
      } else {
        next := next - {sessionId};
      }
      ReplaceUploads(next);
    }

    method AddInputDraftAttachment(sessionId: string, attachment: Attachment)
      modifies this, storage
      ensures State() == old(State()).Step(ChatModel.AddInputDraftAttachment(sessionId, attachment))
    {
      if attachment.id == "" {
        return;
      }
      var existing := Lookup(inputDraftAttachments, sessionId);
      var wrapped := AttachmentToDraftUpload(attachment);
      var nextForKey := if HasAttachment(existing, attachment.id)
        then ReplaceAttachment(existing, attachment) else existing + [wrapped];
      var next := inputDraftAttachments[sessionId := nextForKey];
      ReplaceUploads(next);
    }

    method AddInputDraftUpload(sessionId: string, upload: DraftUpload)
      modifies this, storage
      ensures State() == old(State()).Step(ChatModel.AddInputDraftUpload(sessionId, upload))
    {
      var existing := Lookup(inputDraftAttachments, sessionId);
      if Tracks(existing, upload.clientUploadId) {
        return;
      }
      var next := inputDraftAttachments[sessionId := existing + [upload]];
      ReplaceUploads(next);
    }

    method SettleInputDraftUpload(sessionId: string, clientUploadId: string, attachment: Attachment)
      modifies this, storage
      ensures State() == old(State()).Step(ChatModel.SettleInputDraftUpload(sessionId, clientUploadId, attachment))
    {
      var existing := Lookup(inputDraftAttachments, sessionId);
      if !Tracks(existing, clientUploadId) {
        return;
      }
      var nextForKey := ReplaceUpload(existing, clientUploadId, UploadedAs(clientUploadId, attachment));
      var next := inputDraftAttachments[sessionId := nextForKey];
      ReplaceUploads(next);
    }

    method FailInputDraftUpload(sessionId: string, clientUploadId: string, error: Option<string>)
      modifies this, storage
      ensures State() == old(State()).Step(ChatModel.FailInputDraftUpload(sessionId, clientUploadId, error))
    {
      var existing := Lookup(inputDraftAttachments, sessionId);
      if !Tracks(existing, clientUploadId) {
        return;
      }
      var target := FindUpload(existing, clientUploadId);
      var failed := Pending(clientUploadId, target.filename, target.size, target.contentType, Failed, error);
      var next := inputDraftAttachments[sessionId := ReplaceUpload(existing, clientUploadId, failed)];
      FailEffect(State(), sessionId, clientUploadId, error);
      ReplaceUploads(next);
    }

    method RemoveInputDraftUpload(sessionId: string, clientUploadId: string)
      modifies this, storage
      ensures State() == old(State()).Step(ChatModel.RemoveInputDraftUpload(sessionId, clientUploadId))
    {
      var existing := Lookup(inputDraftAttachments, sessionId);
      if !Tracks(existing, clientUploadId) {
        return;
      }
      var remaining := DropUpload(existing, clientUploadId);
      var next := if |remaining| > 0
        then inputDraftAttachments[sessionId := remaining] else inputDraftAttachments - {sessionId};
      ReplaceUploads(next);
    }

    method ClearInputDraft(sessionId: string)
      modifies this, storage
      ensures State() == old(State()).Step(ChatModel.ClearInputDraft(sessionId))
    {
      if sessionId !in inputDrafts && sessionId !in inputDraftAttachments {
        return;
      }
      var nextDrafts := inputDrafts - {sessionId};
      var nextAttachments := inputDraftAttachments - {sessionId};
      WriteDrafts(storage, Key(DraftsField, slug), nextDrafts);
      WriteDraftAttachments(storage, Key(AttachmentsField, slug), nextAttachments);
      inputDrafts, inputDraftAttachments := nextDrafts, nextAttachments;
    }
  }
}
