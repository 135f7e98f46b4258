/** The chat store as a value: what every action does to memory and to storage, and what holds over whole runs. */
module ChatModel {
  import opened Basics
  import opened DraftUploads
  import opened ChatStorage
  import opened ChatSlots

  function TrimEnd(s: string): string {
    if s != "" && IsSpace(s[|s| - 1]) then TrimEnd(s[..|s| - 1]) else s
  }

  /** New text goes after a blank line, once the end of the old text is trimmed, or alone if there was only white
      space. */
  function Appended(existing: string, markdown: string): string {
    if TrimEnd(existing) != "" then TrimEnd(existing) + "\n\n" + markdown else markdown
  }

  predicate HasAttachment(uploads: seq<DraftUpload>, attachmentId: string) {
    exists i :: 0 <= i < |uploads| && uploads[i].Uploaded? && uploads[i].attachment.id == attachmentId
  }

  function ReplaceAttachment(uploads: seq<DraftUpload>, a: Attachment): seq<DraftUpload> {
    if uploads == [] then []
    else [if uploads[0].Uploaded? && uploads[0].attachment.id == a.id then AttachmentToDraftUpload(a) else uploads[0]]
         + ReplaceAttachment(uploads[1..], a)
  }

  /** The tracked placeholder marked failed, in its place. */
  function FailUpload(uploads: seq<DraftUpload>, id: string, error: Option<string>): seq<DraftUpload>
    requires Tracks(uploads, id)
  {
    var target := FindUpload(uploads, id);
    ReplaceUpload(uploads, id, Pending(id, target.filename, target.size, target.contentType, Failed, error))
  }

  function WithoutRestore(q: seq<PendingSendRestore>, id: string): (r: seq<PendingSendRestore>)
    ensures forall x :: x in r <==> x in q && x.id != id
  {
    if q == [] then []
    else if q[0].id == id then WithoutRestore(q[1..], id)
    else [q[0]] + WithoutRestore(q[1..], id)
  }

  predicate HasRestore(q: seq<PendingSendRestore>, id: string) {
    exists i :: 0 <= i < |q| && q[i].id == id
  }

  function Lookup<T>(m: map<string, seq<T>>, k: string): seq<T> {
    if k in m then m[k] else []
  }

  /** Set a slot, or drop its key when nothing is left in it. */
  function SetOrDelete<T>(m: map<string, seq<T>>, k: string, v: seq<T>): map<string, seq<T>> {
    if v != [] then m[k := v] else m - {k}
  }

  datatype Action =
    | SetActiveSession(session: Option<string>)
    | SetSelectedAgentId(agent: string)
    | SetSelectedProjectId(project: Option<string>)
    | MarkDraftRestoreApplied(restoreId: string)
    | ForgetDraftRestoreApplied(restoreId: string)
    | EnqueuePendingSendRestore(restore: PendingSendRestore)
    | DequeuePendingSendRestore(sessionId: string, restoreId: string)
    | SetInputDraft(sessionId: string, draft: string)
    | AppendToInputDraft(sessionId: string, markdown: string)
    | SetInputDraftAttachments(sessionId: string, uploads: seq<DraftUpload>)
    | AddInputDraftAttachment(sessionId: string, attachment: Attachment)
    | AddInputDraftUpload(sessionId: string, upload: DraftUpload)
    | SettleInputDraftUpload(sessionId: string, clientUploadId: string, attachment: Attachment)
    | FailInputDraftUpload(sessionId: string, clientUploadId: string, error: Option<string>)
    | RemoveInputDraftUpload(sessionId: string, clientUploadId: string)
    | ClearInputDraft(sessionId: string)

  datatype Chat = Chat(disk: Disk, slug: string,
                       session: Option<string>, agent: Option<string>, project: Option<string>,
                       drafts: Drafts, uploads: Slots, applied: seq<string>, queues: Queues)
  {
    function K(f: Field): Key { Key(f, slug) }

    function OnDisk(f: Field): Option<Blob> { Get(disk, K(f)) }

    function WriteText(f: Field, v: Option<string>): Disk {
      Put(disk, K(f), if v.Some? then Some(Text(v.value)) else None)
    }

    /** Write the slices an action replaces: storage first, then memory. */
    function Commit(w: Write): Chat {
      var d1 := if w.drafts.Some? then Put(disk, K(DraftsField), DraftsBlob(w.drafts.value)) else disk;
      var d2 := if w.uploads.Some? then Put(d1, K(AttachmentsField), SlotsBlob(w.uploads.value)) else d1;
      var d3 := if w.applied.Some? then Put(d2, K(AppliedField), IdsBlob(w.applied.value)) else d2;
      var d4 := if w.queues.Some? then Put(d3, K(QueuesField), QueuesBlob(w.queues.value)) else d3;
      this.(disk := d4, drafts := w.drafts.GetOr(drafts), uploads := w.uploads.GetOr(uploads),
            applied := w.applied.GetOr(applied), queues := w.queues.GetOr(queues))
    }

    function Slot(sessionId: string): seq<DraftUpload> { Lookup(uploads, sessionId) }

    function LedgerEffect(a: Action): (w: Write)
      ensures w.drafts.None? && w.uploads.None? && w.queues.None?
    {
      if a.MarkDraftRestoreApplied? && a.restoreId !in applied
      then NO_WRITE.(applied := Some(applied + [a.restoreId]))
      else if a.ForgetDraftRestoreApplied? && a.restoreId in applied
      then NO_WRITE.(applied := Some(Without(applied, a.restoreId)))
      else NO_WRITE
    }

    function QueueEffect(a: Action): (w: Write)
      ensures w.drafts.None? && w.uploads.None? && w.applied.None?
    {
      if a.EnqueuePendingSendRestore? then
        var r, existing := a.restore, Lookup(queues, a.restore.sessionId);
        if r.sessionId == "" || r.id == "" || HasRestore(existing, r.id) then NO_WRITE
        else NO_WRITE.(queues := Some(queues[r.sessionId := existing + [r]]))
      else if a.DequeuePendingSendRestore? then
        var existing := Lookup(queues, a.sessionId);
        if !HasRestore(existing, a.restoreId) then NO_WRITE
        else NO_WRITE.(queues := Some(SetOrDelete(queues, a.sessionId, WithoutRestore(existing, a.restoreId))))
      else NO_WRITE
    }

    function DraftEffect(a: Action): (w: Write)
      ensures w.applied.None? && w.queues.None?
      ensures w.uploads.Some? ==> a.ClearInputDraft?
    {
      if a.SetInputDraft? then NO_WRITE.(drafts := Some(drafts[a.sessionId := a.draft]))
      else if a.AppendToInputDraft? then
        var existing := if a.sessionId in drafts then drafts[a.sessionId] else "";
        NO_WRITE.(drafts := Some(drafts[a.sessionId := Appended(existing, a.markdown)]))
      else if a.ClearInputDraft? && (a.sessionId in drafts || a.sessionId in uploads) then
        NO_WRITE.(drafts := Some(drafts - {a.sessionId}), uploads := Some(uploads - {a.sessionId}))
      else NO_WRITE
    }

    function UploadEffect(a: Action): (w: Write)
      ensures w.drafts.None? && w.applied.None? && w.queues.None?
    {
      match a
      case SetInputDraftAttachments(sid, us) =>
        NO_WRITE.(uploads := Some(SetOrDelete(uploads, sid, us)))
      case AddInputDraftAttachment(sid, a) =>
        if a.id == "" then NO_WRITE
        else if HasAttachment(Slot(sid), a.id)
        then NO_WRITE.(uploads := Some(uploads[sid := ReplaceAttachment(Slot(sid), a)]))
        else NO_WRITE.(uploads := Some(uploads[sid := Slot(sid) + [AttachmentToDraftUpload(a)]]))
      case AddInputDraftUpload(sid, u) =>
        if Tracks(Slot(sid), u.clientUploadId) then NO_WRITE
        else NO_WRITE.(uploads := Some(uploads[sid := Slot(sid) + [u]]))
      case SettleInputDraftUpload(sid, id, a) =>
        if !Tracks(Slot(sid), id) then NO_WRITE
        else NO_WRITE.(uploads := Some(uploads[sid := ReplaceUpload(Slot(sid), id, UploadedAs(id, a))]))
      case FailInputDraftUpload(sid, id, error) =>
        if !Tracks(Slot(sid), id) then NO_WRITE
        else NO_WRITE.(uploads := Some(uploads[sid := FailUpload(Slot(sid), id, error)]))
      case RemoveInputDraftUpload(sid, id) =>
        if !Tracks(Slot(sid), id) then NO_WRITE
        else NO_WRITE.(uploads := Some(SetOrDelete(uploads, sid, DropUpload(Slot(sid), id))))
      case _ => NO_WRITE
    }

    /** Which slices an action replaces, and with what. */
    function Effect(a: Action): Write {
      if a.MarkDraftRestoreApplied? || a.ForgetDraftRestoreApplied? then LedgerEffect(a)
      else if a.EnqueuePendingSendRestore? || a.DequeuePendingSendRestore? then QueueEffect(a)
      else if a.SetInputDraft? || a.AppendToInputDraft? || a.ClearInputDraft? then DraftEffect(a)
      else UploadEffect(a)
    }

    function Step(a: Action): Chat {
      if a.SetActiveSession? then
        this.(disk := WriteText(SessionField, Truthy(a.session)), session := a.session)
      else if a.SetSelectedAgentId? then
        this.(disk := WriteText(AgentField, Some(a.agent)), agent := Some(a.agent))
      else if a.SetSelectedProjectId? then
        this.(disk := WriteText(ProjectField, Truthy(a.project)), project := a.project)
      else
        Commit(Effect(a))
    }
  }

  /** The slices one action replaces. */
  datatype Write = Write(drafts: Option<Drafts>, uploads: Option<Slots>,
                         applied: Option<seq<string>>, queues: Option<Queues>)

  const NO_WRITE: Write := Write(None, None, None, None)

  /** Identifiers are stored only when non-empty, so an empty one reads back as none. */
  function Truthy(v: Option<string>): Option<string> {
    if v == Some("") then None else v
  }

  /** Store creation, page reload and workspace rehydration all read one workspace's keys. */
  function Load(d: Disk, slug: string): Chat {
    Chat(MigratedDisk(d, slug), slug,
         TextOf(Get(d, Key(SessionField, slug))),
         TextOf(Get(d, Key(AgentField, slug))),
         TextOf(Get(d, Key(ProjectField, slug))),
         LoadDrafts(d, slug), LoadSlots(d, slug),
         IdsOf(Get(d, Key(AppliedField, slug))),
         QueuesOf(Get(d, Key(QueuesField, slug))))
  }

  /** `clearWorkspaceStorage` for each listed workspace. */
  function Cleared(d: Disk, slugs: set<string>): Disk {
    map k | k in d && (k.slug == "" || k.slug !in slugs) :: d[k]
  }

  /** Logout empties the four registered slices, then clears the listed workspaces' keys. */
  function Logout(s: Chat, slugs: set<string>): Chat {
    s.(disk := Cleared(s.disk, slugs), drafts := map[], uploads := map[], applied := [], queues := map[])
  }

  datatype Event = Act(action: Action) | SwitchTo(slug: string) | Reload(slug: string) | LogOut(slugs: set<string>)

  function Next(s: Chat, e: Event): Chat {
    match e
    case Act(a) => s.Step(a)
    case SwitchTo(slug) => if slug == s.slug then s else Load(s.disk, slug)
    case Reload(slug) => Load(s.disk, slug)
    case LogOut(slugs) => Logout(s, slugs)
  }

  function Run(s: Chat, events: seq<Event>): Chat
    decreases |events|
  {
    if events == [] then s else Run(Next(s, events[0]), events[1..])
  }

  // ----- write-through

  /** Decoding this workspace's keys gives memory: text without empty drafts, uploads without the ones in
      flight, the ledger exactly, the queues exactly up to a missing attachment list. */
  ghost predicate MirrorsDrafts(s: Chat) {
    && PruneDrafts(DraftsOf(s.OnDisk(DraftsField))) == PruneDrafts(s.drafts)
    && SlotsOf(s.OnDisk(AttachmentsField)) == SettledSlots(s.uploads)
    && IdsOf(s.OnDisk(AppliedField)) == s.applied
    && QueuesOf(s.OnDisk(QueuesField)) == ReloadedQueues(s.queues)
  }

  ghost predicate MirrorsSelection(s: Chat) {
    && TextOf(s.OnDisk(AgentField)) == s.agent
    && Truthy(TextOf(s.OnDisk(SessionField))) == Truthy(s.session)
    && Truthy(TextOf(s.OnDisk(ProjectField))) == Truthy(s.project)
  }

  /** What a commit leaves under each of the workspace's keys. */
  lemma CommitOnDisk(s: Chat, w: Write)
    ensures var t := s.Commit(w);
            && t.OnDisk(DraftsField) == (if w.drafts.Some? then DraftsBlob(w.drafts.value) else s.OnDisk(DraftsField))
            && t.OnDisk(AttachmentsField)
               == (if w.uploads.Some? then SlotsBlob(w.uploads.value) else s.OnDisk(AttachmentsField))
            && t.OnDisk(AppliedField) == (if w.applied.Some? then IdsBlob(w.applied.value) else s.OnDisk(AppliedField))
            && t.OnDisk(QueuesField) == (if w.queues.Some? then QueuesBlob(w.queues.value) else s.OnDisk(QueuesField))
  {
  }

  lemma CommitMirrors(s: Chat, w: Write)
    requires MirrorsDrafts(s)
    ensures MirrorsDrafts(s.Commit(w))
  {
    CommitOnDisk(s, w);
    WritesReadBack(s, w, s.Commit(w));
  }

  lemma WritesReadBack(s: Chat, w: Write, t: Chat)
    requires MirrorsDrafts(s)
    requires t.OnDisk(DraftsField) == (if w.drafts.Some? then DraftsBlob(w.drafts.value) else s.OnDisk(DraftsField))
    requires t.OnDisk(AttachmentsField)
             == (if w.uploads.Some? then SlotsBlob(w.uploads.value) else s.OnDisk(AttachmentsField))
    requires t.OnDisk(AppliedField) == (if w.applied.Some? then IdsBlob(w.applied.value) else s.OnDisk(AppliedField))
    requires t.OnDisk(QueuesField) == (if w.queues.Some? then QueuesBlob(w.queues.value) else s.OnDisk(QueuesField))
    requires t.drafts == w.drafts.GetOr(s.drafts) && t.uploads == w.uploads.GetOr(s.uploads)
    requires t.applied == w.applied.GetOr(s.applied) && t.queues == w.queues.GetOr(s.queues)
    ensures MirrorsDrafts(t)
  {
    DraftsRoundTrip(t.drafts);
    PruneIdempotent(t.drafts);
    SlotsRoundTrip(t.uploads);
    IdsRoundTrip(t.applied);
    QueuesRoundTrip(t.queues);
  }

  lemma SelectionKeepsDrafts(s: Chat, f: Field, v: Option<string>)
    requires MirrorsDrafts(s)
    requires f in {AgentField, ProjectField, SessionField}
    ensures MirrorsDrafts(s.(disk := s.WriteText(f, v)))
  {
  }

  lemma CommitKeepsSelection(s: Chat, w: Write)
    ensures MirrorsSelection(s) ==> MirrorsSelection(s.Commit(w))
  {
    CommitFrame(s, w, AgentField);
    CommitFrame(s, w, ProjectField);
    CommitFrame(s, w, SessionField);
  }

  lemma CommitFrame(s: Chat, w: Write, f: Field)
    requires f in {AgentField, ProjectField, SessionField}
    ensures s.Commit(w).OnDisk(f) == s.OnDisk(f)
  {
    var key := s.K(f);
    assert forall g: Field, b: Option<Blob>, d: Disk :: g != f ==> Get(Put(d, s.K(g), b), key) == Get(d, key);
  }

  lemma FailEffect(s: Chat, sessionId: string, id: string, error: Option<string>)
    requires Tracks(s.Slot(sessionId), id)
    ensures s.Effect(FailInputDraftUpload(sessionId, id, error))
         == NO_WRITE.(uploads := Some(s.uploads[sessionId := FailUpload(s.Slot(sessionId), id, error)]))
  {
  }

  /** Every action keeps storage and memory in step. */
  lemma StepMirrors(s: Chat, a: Action)
    requires MirrorsDrafts(s)
    ensures MirrorsDrafts(s.Step(a))
  {
    if a.SetActiveSession? {
      SelectionKeepsDrafts(s, SessionField, Truthy(a.session));
    } else if a.SetSelectedAgentId? {
      SelectionKeepsDrafts(s, AgentField, Some(a.agent));
    } else if a.SetSelectedProjectId? {
      SelectionKeepsDrafts(s, ProjectField, Truthy(a.project));
    } else {
      CommitMirrors(s, s.Effect(a));
    }
  }

  lemma StepMirrorsSelection(s: Chat, a: Action)
    requires MirrorsSelection(s)
    ensures MirrorsSelection(s.Step(a))
  {
    if !a.SetActiveSession? && !a.SetSelectedAgentId? && !a.SetSelectedProjectId? {
      CommitKeepsSelection(s, s.Effect(a));
    }
  }

  // ----- isolation

  ghost predicate SameElsewhere(d: Disk, e: Disk, slug: string) {
    forall k: Key :: k.slug != slug ==> Get(d, k) == Get(e, k)
  }

  lemma CommitIsolated(s: Chat, w: Write)
    ensures s.Commit(w).slug == s.slug && SameElsewhere(s.disk, s.Commit(w).disk, s.slug)
  {
  }

  /** No action touches another workspace's keys, nor does loading one. */
  lemma StepIsolated(s: Chat, a: Action)
    ensures s.Step(a).slug == s.slug
    ensures SameElsewhere(s.disk, s.Step(a).disk, s.slug)
  {
    if !a.SetActiveSession? && !a.SetSelectedAgentId? && !a.SetSelectedProjectId? {
      CommitIsolated(s, s.Effect(a));
    }
  }

  lemma LoadIsolated(d: Disk, slug: string)
    ensures SameElsewhere(d, Load(d, slug).disk, slug)
  {
  }

  /** Loading looks at nothing but the workspace's own keys. */
  lemma LoadDependsOnOwnKeys(d: Disk, e: Disk, slug: string)
    requires forall k: Key :: k.slug == slug ==> Get(d, k) == Get(e, k)
    ensures Load(d, slug).(disk := map[]) == Load(e, slug).(disk := map[])
  {
    assert forall f: Field :: Get(d, Key(f, slug)) == Get(e, Key(f, slug));
  }

  // ----- loading

  /** Loading writes no other field than the two it migrates. */
  lemma LoadKeepsFields(d: Disk, slug: string, f: Field)
    requires f != DraftsField && f != AttachmentsField
    ensures Load(d, slug).OnDisk(f) == Get(d, Key(f, slug))
  {
  }

  /** Whatever storage holds, a load leaves memory and storage in step. */
  lemma LoadMirrors(d: Disk, slug: string)
    ensures MirrorsDrafts(Load(d, slug)) && MirrorsSelection(Load(d, slug))
  {
    LoadMirrorsDrafts(d, slug);
    LoadMirrorsSlots(d, slug);
    ReadsAreStable(Get(d, Key(QueuesField, slug)));
    LoadKeepsFields(d, slug, AppliedField);
    LoadKeepsFields(d, slug, QueuesField);
    LoadKeepsFields(d, slug, AgentField);
    LoadKeepsFields(d, slug, SessionField);
    LoadKeepsFields(d, slug, ProjectField);
  }

  lemma LoadMirrorsDrafts(d: Disk, slug: string)
    ensures PruneDrafts(DraftsOf(Get(MigratedDisk(d, slug), Key(DraftsField, slug))))
         == PruneDrafts(LoadDrafts(d, slug))
  {
    var m := LoadDrafts(d, slug);
    var stored := DraftsOf(Get(d, Key(DraftsField, slug)));
    MigrationEffect(stored, TextOf(Get(d, Key(AgentField, slug))));
    DraftsRoundTrip(m);
    PruneIdempotent(m);
    assert Get(MigratedDisk(d, slug), Key(DraftsField, slug)) == Get(MigratedDrafts(d, slug), Key(DraftsField, slug));
  }

  lemma LoadMirrorsSlots(d: Disk, slug: string)
    ensures SlotsOf(Get(MigratedDisk(d, slug), Key(AttachmentsField, slug))) == SettledSlots(LoadSlots(d, slug))
  {
    LoadedSlotsSettled(d, slug);
    MigrationEffect(SlotsOf(Get(d, Key(AttachmentsField, slug))), TextOf(Get(d, Key(AgentField, slug))));
    assert Get(MigratedDrafts(d, slug), Key(AttachmentsField, slug)) == Get(d, Key(AttachmentsField, slug));
  }

  ghost predicate NoLegacySlots(s: Chat) {
    !HasLegacy(s.drafts) && !HasLegacy(s.uploads)
  }

  /** The composer asks for a session's own slot or the one for a new session, never for a legacy key. */
  predicate NamesLegacySlot(a: Action) {
    (a.SetInputDraft? || a.AppendToInputDraft? || a.SetInputDraftAttachments? || a.AddInputDraftAttachment?
     || a.AddInputDraftUpload? || a.SettleInputDraftUpload? || a.FailInputDraftUpload? || a.RemoveInputDraftUpload?)
    && IsLegacy(a.sessionId)
  }

  lemma StepKeepsNoLegacySlots(s: Chat, a: Action)
    requires NoLegacySlots(s) && !NamesLegacySlot(a)
    ensures NoLegacySlots(s.Step(a))
  {
    var t := s.Step(a);
    forall k | k in t.drafts ensures !IsLegacy(k) {
      if k !in s.drafts {
        DraftKeys(s, a, k);
      }
    }
    forall k | k in t.uploads ensures !IsLegacy(k) {
      if k !in s.uploads {
        UploadKeys(s, a, k);
      }
    }
  }

  lemma DraftKeys(s: Chat, a: Action, k: string)
    requires k in s.Step(a).drafts && k !in s.drafts
    ensures (a.SetInputDraft? || a.AppendToInputDraft?) && k == a.sessionId
  {
  }

  lemma UploadKeys(s: Chat, a: Action, k: string)
    requires k in s.Step(a).uploads && k !in s.uploads
    ensures (a.SetInputDraftAttachments? || a.AddInputDraftAttachment? || a.AddInputDraftUpload?
             || a.SettleInputDraftUpload? || a.FailInputDraftUpload? || a.RemoveInputDraftUpload?)
            && k == a.sessionId
  {
  }

  lemma LoadHasNoLegacySlots(d: Disk, slug: string)
    ensures NoLegacySlots(Load(d, slug))
  {
    var agent := TextOf(Get(d, Key(AgentField, slug)));
    MigrationEffect(DraftsOf(Get(d, Key(DraftsField, slug))), agent);
    MigrationEffect(SlotsOf(Get(d, Key(AttachmentsField, slug))), agent);
  }

  ghost predicate NamesNoLegacySlot(events: seq<Event>) {
    forall a :: Act(a) in events ==> !NamesLegacySlot(a)
  }

  /** Loading migrates legacy keys away, and over every run none comes back. */
  lemma {:induction false} RunKeepsNoLegacySlots(s: Chat, events: seq<Event>)
    requires NoLegacySlots(s) && NamesNoLegacySlot(events)
    ensures NoLegacySlots(Run(s, events))
    decreases |events|
  {
    if events != [] {
      var e := events[0];
      assert e in events && forall x :: x in events[1..] ==> x in events;
      match e {
        case Act(a) => StepKeepsNoLegacySlots(s, a);
        case SwitchTo(slug) => LoadHasNoLegacySlots(s.disk, slug);
        case Reload(slug) => LoadHasNoLegacySlots(s.disk, slug);
        case LogOut(slugs) =>
      }
      RunKeepsNoLegacySlots(Next(s, e), events[1..]);
    }
  }

  /** A reload gives back the four slices, settled; nothing else is lost and nothing appears. */
  lemma ReloadSettles(s: Chat)
    requires MirrorsDrafts(s) && NoLegacySlots(s)
    ensures var t := Load(s.disk, s.slug);
            && PruneDrafts(t.drafts) == PruneDrafts(s.drafts)
            && t.uploads == SettledSlots(s.uploads)
            && t.applied == s.applied
            && t.queues == ReloadedQueues(s.queues)
  {
    var agent := TextOf(s.OnDisk(AgentField));
    var drafts := DraftsOf(s.OnDisk(DraftsField));
    MigrationEffect(drafts, agent);
    MigrationEffect(SettledSlots(s.uploads), agent);
    assert !HasLegacy(SettledSlots(s.uploads));
    var m := Migrate(drafts, agent);
    forall k
      ensures k in PruneDrafts(m) <==> k in PruneDrafts(s.drafts)
      ensures k in PruneDrafts(m) ==> m[k] == s.drafts[k]
    {
      assert k in PruneDrafts(drafts) <==> k in PruneDrafts(s.drafts);
      LegacyDraftsAreEmpty(s, drafts, LegacySlot(agent));
      if k in PruneDrafts(s.drafts) {
        assert PruneDrafts(drafts)[k] == PruneDrafts(s.drafts)[k];
      }
    }
    MapsEqual(PruneDrafts(m), PruneDrafts(s.drafts));
  }

  lemma LegacyDraftsAreEmpty(s: Chat, drafts: Drafts, key: string)
    requires PruneDrafts(drafts) == PruneDrafts(s.drafts) && !HasLegacy(s.drafts)
    requires IsLegacy(key)
    ensures key in drafts ==> drafts[key] == ""
  {
    assert key !in PruneDrafts(drafts);
  }

  // ----- whole runs

  /** The slices a logout resets hold nothing that a reload would bring back. */
  ghost predicate NothingKept(s: Chat) {
    && PruneDrafts(s.drafts) == map[] && SettledSlots(s.uploads) == map[]
    && s.applied == [] && ReloadedQueues(s.queues) == map[]
  }

  predicate Listed(s: Chat, slugs: set<string>) {
    s.slug != "" && s.slug in slugs
  }

  /** A logout resets memory and then clears the listed workspaces, so it keeps the two in step exactly when the current
      workspace is listed, or when there was nothing to keep. */
  lemma LogoutMirrorsExactly(s: Chat, slugs: set<string>)
    requires MirrorsDrafts(s)
    ensures MirrorsDrafts(Logout(s, slugs)) <==> Listed(s, slugs) || NothingKept(s)
  {
    var t := Logout(s, slugs);
    if Listed(s, slugs) {
      assert forall f: Field :: t.OnDisk(f) == None;
    }
  }

  ghost predicate NothingSelected(s: Chat) {
    s.agent == None && Truthy(s.session) == None && Truthy(s.project) == None
  }

  /** The selection is not reset: memory keeps the agent, session and project that were selected, so clearing their
      keys puts the two out of step unless nothing was selected. */
  lemma LogoutSelectionExactly(s: Chat, slugs: set<string>)
    requires MirrorsSelection(s)
    ensures var t := Logout(s, slugs);
            && t.agent == s.agent && t.session == s.session && t.project == s.project
            && (MirrorsSelection(t) <==> !Listed(s, slugs) || NothingSelected(s))
  {
    var t := Logout(s, slugs);
    forall f: Field
      ensures t.OnDisk(f) == if Listed(s, slugs) then None else s.OnDisk(f)
    {
    }
  }

  ghost predicate Covered(s: Chat, e: Event) {
    e.LogOut? ==> Listed(s, e.slugs) || NothingKept(s)
  }

  ghost predicate CoveredRun(s: Chat, events: seq<Event>)
    decreases |events|
  {
    events == [] || (Covered(s, events[0]) && CoveredRun(Next(s, events[0]), events[1..]))
  }

  lemma NextMirrorsExactly(s: Chat, e: Event)
    requires MirrorsDrafts(s)
    ensures MirrorsDrafts(Next(s, e)) <==> Covered(s, e)
  {
    match e
    case Act(a) => StepMirrors(s, a);
    case SwitchTo(slug) => LoadMirrors(s.disk, slug);
    case Reload(slug) => LoadMirrors(s.disk, slug);
    case LogOut(slugs) => LogoutMirrorsExactly(s, slugs);
  }

  ghost predicate MirrorsThroughout(s: Chat, events: seq<Event>)
    decreases |events|
  {
    MirrorsDrafts(s) && (events != [] ==> MirrorsThroughout(Next(s, events[0]), events[1..]))
  }

  /** Write-through over every run of actions, switches, reloads and logouts: storage and memory stay in step all along
      exactly when every logout is covered. */
  lemma {:induction false} RunMirrorsExactly(s: Chat, events: seq<Event>)
    requires MirrorsDrafts(s)
    ensures MirrorsThroughout(s, events) <==> CoveredRun(s, events)
    decreases |events|
  {
    if events != [] {
      NextMirrorsExactly(s, events[0]);
      if Covered(s, events[0]) {
        RunMirrorsExactly(Next(s, events[0]), events[1..]);
      }
    }
  }

  ghost predicate SelectionCovered(s: Chat, e: Event) {
    e.LogOut? ==> !Listed(s, e.slugs) || NothingSelected(s)
  }

  lemma NextSelectionExactly(s: Chat, e: Event)
    requires MirrorsSelection(s)
    ensures MirrorsSelection(Next(s, e)) <==> SelectionCovered(s, e)
  {
    match e
    case Act(a) => StepMirrorsSelection(s, a);
    case SwitchTo(slug) => LoadMirrors(s.disk, slug);
    case Reload(slug) => LoadMirrors(s.disk, slug);
    case LogOut(slugs) => LogoutSelectionExactly(s, slugs);
  }

  ghost predicate SelectionCoveredRun(s: Chat, events: seq<Event>)
    decreases |events|
  {
    events == [] || (SelectionCovered(s, events[0]) && SelectionCoveredRun(Next(s, events[0]), events[1..]))
  }

  ghost predicate SelectionThroughout(s: Chat, events: seq<Event>)
    decreases |events|
  {
    MirrorsSelection(s) && (events != [] ==> SelectionThroughout(Next(s, events[0]), events[1..]))
  }

  /** The same for the selected agent, session and project. */
  lemma {:induction false} RunSelectionExactly(s: Chat, events: seq<Event>)
    requires MirrorsSelection(s)
    ensures SelectionThroughout(s, events) <==> SelectionCoveredRun(s, events)
    decreases |events|
  {
    if events != [] {
      NextSelectionExactly(s, events[0]);
      if SelectionCovered(s, events[0]) {
        RunSelectionExactly(Next(s, events[0]), events[1..]);
      }
    }
  }

  /** Whatever came before, a reload, or a switch elsewhere, brings the two in step again. */
  lemma LoadingRepairs(s: Chat, slug: string)
    ensures MirrorsDrafts(Next(s, Reload(slug)))
    ensures slug != s.slug ==> MirrorsDrafts(Next(s, SwitchTo(slug)))
  {
    LoadMirrors(s.disk, slug);
  }

  /** A sign-out resets and clears, and then leaves the workspace. */
  function SignedOut(s: Chat, slugs: set<string>): Chat {
    Next(Next(s, LogOut(slugs)), SwitchTo(""))
  }

  /** So whether or not the list had the workspace, a finished sign-out from it leaves storage and memory in step, and
      memory shows what is stored under no workspace: nothing that was selected or typed before. */
  lemma SignOutSettles(s: Chat, slugs: set<string>)
    requires s.slug != ""
    ensures var t := SignedOut(s, slugs);
            && t.slug == "" && MirrorsDrafts(t) && MirrorsSelection(t)
            && t.(disk := map[]) == Load(s.disk, "").(disk := map[])
  {
    var out := Logout(s, slugs);
    LoadMirrors(out.disk, "");
    assert forall k: Key :: k.slug == "" ==> Get(out.disk, k) == Get(s.disk, k);
    LoadDependsOnOwnKeys(out.disk, s.disk, "");
  }

  /** What a logout leaves readable: nothing of a listed workspace, everything of an unlisted one. */
  lemma LogoutLeavesExactly(s: Chat, slugs: set<string>, slug: string)
    ensures slug != "" && slug in slugs ==>
              var t := Load(Logout(s, slugs).disk, slug);
              t.drafts == map[] && t.uploads == map[] && t.applied == [] && t.queues == map[] && t.agent == None
    ensures slug == "" || slug !in slugs ==>
              Load(Logout(s, slugs).disk, slug).(disk := map[]) == Load(s.disk, slug).(disk := map[])
  {
    var e := Logout(s, slugs).disk;
    if slug != "" && slug in slugs {
      assert forall f: Field :: Get(e, Key(f, slug)) == None;
    } else {
      assert forall k: Key :: k.slug == slug ==> Get(s.disk, k) == Get(e, k);
      LoadDependsOnOwnKeys(e, s.disk, slug);
    }
  }

  /** Events that happen in another workspace than `home`. */
  ghost predicate Away(events: seq<Event>, home: string) {
    forall e :: e in events ==>
      match e
      case Act(_) => true
      case SwitchTo(slug) => slug != home
      case Reload(slug) => slug != home
      case LogOut(slugs) => home == "" || home !in slugs
  }

  lemma {:induction false} RunAway(s: Chat, events: seq<Event>, home: string)
    requires s.slug != home && Away(events, home)
    ensures Run(s, events).slug != home
    ensures forall k: Key :: k.slug == home ==> Get(Run(s, events).disk, k) == Get(s.disk, k)
    decreases |events|
  {
    if events != [] {
      var e := events[0];
      assert e in events;
      var t := Next(s, e);
      match e {
        case Act(a) => StepIsolated(s, a);
        case SwitchTo(slug) => LoadIsolated(s.disk, slug);
        case Reload(slug) => LoadIsolated(s.disk, slug);
        case LogOut(slugs) =>
      }
      assert forall x :: x in events[1..] ==> x in events;
      RunAway(t, events[1..], home);
    }
  }

  /** Leaving a workspace, doing anything elsewhere and coming back is the same as reloading it in place. */
  lemma ThereAndBack(s: Chat, away: string, events: seq<Event>)
    requires away != s.slug && Away(events, s.slug)
    ensures var t := Run(Next(s, SwitchTo(away)), events);
            Next(t, SwitchTo(s.slug)).(disk := map[]) == Load(s.disk, s.slug).(disk := map[])
  {
    var s1 := Next(s, SwitchTo(away));
    LoadIsolated(s.disk, away);
    RunAway(s1, events, s.slug);
    var t := Run(s1, events);
    LoadDependsOnOwnKeys(t.disk, s.disk, s.slug);
  }

  /** So everything that a reload keeps is there again on return. */
  lemma BackHomeRestores(s: Chat, away: string, events: seq<Event>)
    requires MirrorsDrafts(s) && MirrorsSelection(s) && NoLegacySlots(s)
    requires away != s.slug && Away(events, s.slug)
    ensures var t := Next(Run(Next(s, SwitchTo(away)), events), SwitchTo(s.slug));
            && PruneDrafts(t.drafts) == PruneDrafts(s.drafts) && t.uploads == SettledSlots(s.uploads)
            && t.applied == s.applied && t.queues == ReloadedQueues(s.queues)
            && t.agent == s.agent && Truthy(t.session) == Truthy(s.session) && Truthy(t.project) == Truthy(s.project)
  {
    ThereAndBack(s, away, events);
    ReloadSettles(s);
  }
}
