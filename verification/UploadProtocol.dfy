/** Uploads that outlive their composer: every interleaving of picks, network events, continuations, aborts,
    dismissals, clears, workspace switches, logouts and reloads. */
module UploadProtocol {
  import opened Basics
  import opened DraftUploads
  import opened ChatStorage
  import opened ChatSlots
  import opened ChatModel
  import opened UploadCoordinator

  datatype Request = Request(id: string, session: string, phase: Phase)

  /** `minted`, `results` and `staged` record history: the ids ever picked, what each uploaded request delivered, and
      the ids of rows a restore put into a draft. */
  datatype System = System(chat: Chat, coord: Coord, requests: map<nat, Request>,
                           delivered: seq<nat>, minted: set<string>, results: map<string, Attachment>,
                           staged: set<string>)

  datatype StepKind =
    | Pick(id: string, session: string, filename: string, size: int, contentType: Option<string>)
    | NetworkResolves(controller: nat, attachment: Attachment)
    | NetworkRejects(controller: nat, abortError: bool, message: string)
    | Continue(controller: nat)
    | Dismiss(session: string, id: string)
    | Abort(id: string)
    | Prune(session: string, unreferenced: set<Attachment>)
    | Stage(session: string, attachments: seq<Attachment>)
    | Other(action: Action)
    | Switch(slug: string)
    | Restart(slug: string)
    | LogOutOf(slugs: set<string>)

  /** Actions other code may take on the same store without knowing an upload id; the slot is replaced whole only by the
      pruning and staging steps. */
  predicate Harmless(a: Action) {
    !a.SetInputDraftAttachments? && !a.AddInputDraftAttachment? && !a.AddInputDraftUpload?
    && !a.SettleInputDraftUpload?
  }

  /** The finished uploads the body no longer refers to go; placeholders stay. */
  function Referenced(uploads: seq<DraftUpload>, unreferenced: set<Attachment>): (r: seq<DraftUpload>)
    ensures forall u :: u in r ==> u in uploads
  {
    if uploads == [] then []
    else if uploads[0].Uploaded? && uploads[0].attachment in unreferenced then Referenced(uploads[1..], unreferenced)
    else [uploads[0]] + Referenced(uploads[1..], unreferenced)
  }

  function StagedUploads(attachments: seq<Attachment>): (r: seq<DraftUpload>)
    ensures |r| == |attachments|
    ensures forall i :: 0 <= i < |r| ==> r[i] == AttachmentToDraftUpload(attachments[i])
  {
    if attachments == [] then [] else [AttachmentToDraftUpload(attachments[0])] + StagedUploads(attachments[1..])
  }

  function IdSet(uploads: seq<DraftUpload>): set<string> {
    set u | u in uploads :: u.clientUploadId
  }

  /** Client ids are minted fresh; network events concern requests that are still running; a restore waits for an empty
      slot and brings distinct server rows. */
  ghost predicate Enabled(s: System, k: StepKind) {
    match k
    case Pick(id, _, _, _, _) => id !in s.minted && id !in s.staged
    case NetworkResolves(c, _) => c in s.requests && s.requests[c].phase.Running?
    case NetworkRejects(c, _, _) => c in s.requests && s.requests[c].phase.Running?
    case Continue(c) => c in s.requests && (s.requests[c].phase.Resolved? || s.requests[c].phase.Rejected?)
    case Other(a) => Harmless(a)
    case Stage(session, attachments) =>
      var rows := StagedUploads(attachments);
      s.chat.Slot(session) == [] && Distinct(Ids(rows)) && IdSet(rows) !! s.minted
    case _ => true
  }

  /** The composer's `onSettled`: write only while the draft still tracks the placeholder. */
  function OnSettled(chat: Chat, r: Request, o: Outcome): Chat {
    if !Tracks(chat.Slot(r.session), r.id) then chat
    else match o
      case Delivered(a) => chat.Step(SettleInputDraftUpload(r.session, r.id, a))
      case FailedWith(_) => chat.Step(RemoveInputDraftUpload(r.session, r.id))
  }

  function SetPhase(requests: map<nat, Request>, c: nat, phase: Phase): map<nat, Request>
    requires c in requests
  {
    requests[c := requests[c].(phase := phase)]
  }

  function ContinueRequest(s: System, c: nat): System
    requires c in s.requests
  {
    var r := s.requests[c];
    var outcomes := Outcomes(r.phase, c in s.coord.aborted, NoThrow);
    var settled := s.(requests := SetPhase(s.requests, c, Done), coord := s.coord.Finish(r.id, c));
    if outcomes == [] then settled
    else settled.(chat := OnSettled(s.chat, r, outcomes[0]),
                  delivered := s.delivered + [c],
                  results := if outcomes[0].Delivered? then s.results[r.id := outcomes[0].attachment] else s.results)
  }

  ghost function Take(s: System, k: StepKind): System
    requires Enabled(s, k)
  {
    match k
    case Pick(id, session, filename, size, contentType) =>
      var placeholder := Pending(id, filename, size, contentType, Uploading, None);
      s.(chat := s.chat.Step(AddInputDraftUpload(session, placeholder)),
         coord := s.coord.Start(id),
         requests := s.requests[s.coord.next := Request(id, session, Running)],
         minted := s.minted + {id})
    case NetworkResolves(c, a) => s.(requests := SetPhase(s.requests, c, Resolved(a)))
    case NetworkRejects(c, abortError, message) =>
      s.(requests := SetPhase(s.requests, c, Rejected(abortError, message)))
    case Continue(c) => ContinueRequest(s, c)
    case Dismiss(session, id) =>
      var tracked := s.chat.Slot(session);
      s.(coord := if Tracks(tracked, id) && FindUpload(tracked, id).InFlight() then s.coord.AbortOne(id) else s.coord,
         chat := s.chat.Step(RemoveInputDraftUpload(session, id)))
    case Abort(id) => s.(coord := s.coord.AbortOne(id))
    case Prune(session, unreferenced) =>
      var uploads := s.chat.Slot(session);
      var kept := Referenced(uploads, unreferenced);
      if |kept| == |uploads| then s else s.(chat := s.chat.Step(SetInputDraftAttachments(session, kept)))
    case Stage(session, attachments) =>
      var rows := StagedUploads(attachments);
      s.(chat := s.chat.Step(SetInputDraftAttachments(session, rows)), staged := s.staged + IdSet(rows))
    case Other(a) => s.(chat := s.chat.Step(a))
    case Switch(slug) => s.(chat := Next(s.chat, SwitchTo(slug)))
    case Restart(slug) =>
      s.(chat := Load(s.chat.disk, slug), coord := s.coord.(controllers := map[]), requests := map[])
    case LogOutOf(slugs) => s.(coord := s.coord.AbortEvery(), chat := Logout(s.chat, slugs))
  }

  ghost predicate Enables(s: System, ks: seq<StepKind>)
    decreases |ks|
  {
    ks == [] || (Enabled(s, ks[0]) && Enables(Take(s, ks[0]), ks[1..]))
  }

  ghost function TakeAll(s: System, ks: seq<StepKind>): System
    requires Enables(s, ks)
    decreases |ks|
  {
    if ks == [] then s else TakeAll(Take(s, ks[0]), ks[1..])
  }

  // ----- the controller map

  ghost predicate Live(s: System, c: nat) {
    c in s.requests && !s.requests[c].phase.Done? && c !in s.coord.aborted
  }

  /** The map holds exactly the started requests that have neither finished nor been aborted. */
  ghost predicate ControllersExact(s: System) {
    && (forall id :: id in s.coord.controllers ==>
          Live(s, s.coord.controllers[id]) && s.requests[s.coord.controllers[id]].id == id)
    && (forall c :: Live(s, c) ==>
          s.requests[c].id in s.coord.controllers && s.coord.controllers[s.requests[c].id] == c)
  }

  ghost predicate RequestsSound(s: System) {
    && (forall c :: c in s.requests ==> c < s.coord.next && s.requests[c].id in s.minted)
    && (forall c :: c in s.coord.aborted ==> c < s.coord.next)
    && (forall c, d :: c in s.requests && d in s.requests && s.requests[c].id == s.requests[d].id ==> c == d)
  }

  ghost predicate DeliveredOnce(s: System) {
    && Distinct(s.delivered)
    && (forall c :: c in s.delivered ==> c < s.coord.next)
    && (forall c :: c in s.delivered && c in s.requests ==> s.requests[c].phase.Done?)
    && (forall c :: c in s.requests && s.requests[c].id in s.results ==> s.requests[c].phase.Done?)
    && s.results.Keys <= s.minted
  }

  lemma PickKeepsRequests(s: System, k: StepKind)
    requires k.Pick? && Enabled(s, k)
    requires ControllersExact(s) && RequestsSound(s) && DeliveredOnce(s)
    ensures ControllersExact(Take(s, k)) && RequestsSound(Take(s, k)) && DeliveredOnce(Take(s, k))
  {
    var t := Take(s, k);
    var c := s.coord.next;
    assert c !in s.requests && c !in s.coord.aborted;
    forall d | Live(t, d)
      ensures t.requests[d].id in t.coord.controllers && t.coord.controllers[t.requests[d].id] == d
    {
      if d != c {
        assert Live(s, d);
      }
    }
  }

  /** Settling a request takes its controller out, and no other. */
  lemma FinishKeepsControllers(s: System, t: System, c: nat)
    requires ControllersExact(s) && RequestsSound(s)
    requires c in s.requests && t.requests == SetPhase(s.requests, c, Done)
    requires t.coord == s.coord.Finish(s.requests[c].id, c) && t.minted == s.minted
    ensures ControllersExact(t) && RequestsSound(t)
  {
    forall d | Live(t, d)
      ensures t.requests[d].id in t.coord.controllers && t.coord.controllers[t.requests[d].id] == d
    {
      assert d != c && Live(s, d);
    }
  }

  lemma FinishKeepsDelivered(s: System, t: System, c: nat)
    requires RequestsSound(s) && DeliveredOnce(s)
    requires c in s.requests && !s.requests[c].phase.Done? && t.requests == SetPhase(s.requests, c, Done)
    requires t.coord.next == s.coord.next && t.minted == s.minted
    requires t.delivered == s.delivered || t.delivered == s.delivered + [c]
    requires t.results.Keys <= s.results.Keys + {s.requests[c].id}
    ensures DeliveredOnce(t)
  {
    if t.delivered != s.delivered {
      DistinctAppend(s.delivered, [c]);
    }
  }

  lemma ContinueKeepsRequests(s: System, c: nat)
    requires Enabled(s, Continue(c))
    requires ControllersExact(s) && RequestsSound(s) && DeliveredOnce(s)
    ensures var t := Take(s, Continue(c)); ControllersExact(t) && RequestsSound(t) && DeliveredOnce(t)
  {
    var t := Take(s, Continue(c));
    FinishKeepsControllers(s, t, c);
    FinishKeepsDelivered(s, t, c);
  }

  lemma AbortKeepsRequests(s: System, t: System)
    requires ControllersExact(s) && RequestsSound(s) && DeliveredOnce(s)
    requires t.requests == s.requests && t.delivered == s.delivered && t.minted == s.minted && t.results == s.results
    requires t.coord == s.coord || t.coord == s.coord.AbortEvery()
             || exists id :: t.coord == s.coord.AbortOne(id)
    ensures ControllersExact(t) && RequestsSound(t) && DeliveredOnce(t)
  {
    forall d | Live(t, d)
      ensures t.requests[d].id in t.coord.controllers && t.coord.controllers[t.requests[d].id] == d
    {
      assert Live(s, d);
    }
  }

  lemma PhaseKeepsRequests(s: System, c: nat, phase: Phase)
    requires ControllersExact(s) && RequestsSound(s) && DeliveredOnce(s)
    requires c in s.requests && s.requests[c].phase.Running? && !phase.Done?
    ensures var t := s.(requests := SetPhase(s.requests, c, phase));
            ControllersExact(t) && RequestsSound(t) && DeliveredOnce(t)
  {
    var t := s.(requests := SetPhase(s.requests, c, phase));
    assert forall d :: Live(t, d) <==> Live(s, d);
  }

  lemma TakeKeepsRequests(s: System, k: StepKind)
    requires Enabled(s, k)
    requires ControllersExact(s) && RequestsSound(s) && DeliveredOnce(s)
    ensures ControllersExact(Take(s, k)) && RequestsSound(Take(s, k)) && DeliveredOnce(Take(s, k))
  {
    match k
    case Pick(_, _, _, _, _) => PickKeepsRequests(s, k);
    case NetworkResolves(c, a) => PhaseKeepsRequests(s, c, Resolved(a));
    case NetworkRejects(c, e, m) => PhaseKeepsRequests(s, c, Rejected(e, m));
    case Continue(c) => ContinueKeepsRequests(s, c);
    case Restart(_) =>
    case _ => AbortKeepsRequests(s, Take(s, k));
  }

  // ----- the drafts

  /** What is known of upload ids: the minted ones, what their requests delivered, those of staged rows, and ids that
      must not show up. */
  datatype Book = Book(minted: set<string>, results: map<string, Attachment>, staged: set<string>, banned: set<string>)

  /** A picked upload, finished only with what its own request delivered, or a row staged by a restore. */
  ghost predicate EntryOk(b: Book, u: DraftUpload) {
    && u.clientUploadId !in b.banned
    && (u.clientUploadId in b.minted || u.clientUploadId in b.staged)
    && (u.Uploaded? && u.clientUploadId in b.minted ==>
          u.clientUploadId in b.results && u.attachment == b.results[u.clientUploadId].(downloadUrl := ""))
  }

  ghost predicate SlotOk(b: Book, us: seq<DraftUpload>) {
    Distinct(Ids(us)) && forall u :: u in us ==> EntryOk(b, u)
  }

  ghost predicate SlotsOk(b: Book, m: Slots) {
    forall k :: k in m ==> SlotOk(b, m[k])
  }

  /** Every slot, in memory and in the storage of every workspace. */
  ghost predicate ChatOk(b: Book, s: Chat) {
    && SlotsOk(b, s.uploads)
    && forall w: string :: SlotsOk(b, SlotsOf(Get(s.disk, Key(AttachmentsField, w))))
  }

  ghost predicate Grows(b: Book, c: Book) {
    b.minted <= c.minted && b.staged <= c.staged && b.banned == c.banned
    && b.staged !! c.minted
    && forall id :: id in b.results ==> id in c.results && c.results[id] == b.results[id]
  }

  lemma GrowingKeepsChat(b: Book, c: Book, s: Chat)
    requires ChatOk(b, s) && Grows(b, c)
    ensures ChatOk(c, s)
  {
    forall us | SlotOk(b, us) ensures SlotOk(c, us) {
    }
  }

  lemma SettlingKeepsSlots(b: Book, m: Slots)
    requires SlotsOk(b, m)
    ensures SlotsOk(b, SettledSlots(m))
  {
    forall k | k in SettledSlots(m)
      ensures SlotOk(b, Settled(m[k]))
    {
      SettledKeepsDistinct(m[k]);
    }
  }

  lemma CommitKeepsChat(b: Book, s: Chat, w: Write)
    requires ChatOk(b, s) && (w.uploads.Some? ==> SlotsOk(b, w.uploads.value))
    ensures ChatOk(b, s.Commit(w))
  {
    var t := s.Commit(w);
    CommitOnDisk(s, w);
    CommitIsolated(s, w);
    if w.uploads.Some? {
      SlotsRoundTrip(w.uploads.value);
      SettlingKeepsSlots(b, w.uploads.value);
    }
    StoredElsewhere(b, s, t);
  }

  lemma StoredElsewhere(b: Book, s: Chat, t: Chat)
    requires ChatOk(b, s) && SlotsOk(b, t.uploads)
    requires SameElsewhere(s.disk, t.disk, t.slug)
    requires SlotsOk(b, SlotsOf(t.OnDisk(AttachmentsField)))
    ensures ChatOk(b, t)
  {
    forall v: string
      ensures SlotsOk(b, SlotsOf(Get(t.disk, Key(AttachmentsField, v))))
    {
      assert SlotsOk(b, SlotsOf(Get(s.disk, Key(AttachmentsField, v))));
      if v != t.slug {
        assert Get(t.disk, Key(AttachmentsField, v)) == Get(s.disk, Key(AttachmentsField, v));
      }
    }
  }

  lemma LoadKeepsChat(b: Book, s: Chat, slug: string)
    requires ChatOk(b, s)
    ensures ChatOk(b, Load(s.disk, slug))
  {
    var t := Load(s.disk, slug);
    var raw := SlotsOf(Get(s.disk, Key(AttachmentsField, slug)));
    assert SlotsOk(b, raw);
    forall k | k in t.uploads
      ensures SlotOk(b, t.uploads[k])
    {
      assert k in raw || (k == NEW_SESSION && t.uploads[k] == raw[LegacySlot(t.agent)]);
    }
    LoadMirrorsSlots(s.disk, slug);
    SettlingKeepsSlots(b, t.uploads);
    LoadIsolated(s.disk, slug);
    StoredElsewhere(b, s, t);
  }

  lemma LogoutKeepsChat(b: Book, s: Chat, slugs: set<string>)
    requires ChatOk(b, s)
    ensures ChatOk(b, Logout(s, slugs))
  {
    var t := Logout(s, slugs);
    forall v: string
      ensures SlotsOk(b, SlotsOf(Get(t.disk, Key(AttachmentsField, v))))
    {
      assert SlotsOk(b, SlotsOf(Get(s.disk, Key(AttachmentsField, v))));
    }
  }

  lemma ReplaceKeepsSlot(b: Book, us: seq<DraftUpload>, id: string, v: DraftUpload)
    requires SlotOk(b, us) && v.clientUploadId == id && EntryOk(b, v)
    ensures SlotOk(b, ReplaceUpload(us, id, v))
  {
    assert Ids(ReplaceUpload(us, id, v)) == Ids(us);
  }

  lemma {:induction false} ReferencedKeepsSlot(b: Book, us: seq<DraftUpload>, unreferenced: set<Attachment>)
    requires SlotOk(b, us)
    ensures SlotOk(b, Referenced(us, unreferenced))
  {
    if us != [] {
      assert Ids(us)[1..] == Ids(us[1..]);
      ReferencedKeepsSlot(b, us[1..], unreferenced);
      var rest := Referenced(us[1..], unreferenced);
      forall j | 0 <= j < |rest|
        ensures Ids(rest)[j] != us[0].clientUploadId
      {
        assert rest[j] in us[1..];
        var k :| 0 <= k < |us[1..]| && us[1..][k] == rest[j];
        assert Ids(us)[k + 1] == rest[j].clientUploadId;
      }
      assert Ids([us[0]] + rest) == [us[0].clientUploadId] + Ids(rest);
      DistinctCons(us[0].clientUploadId, Ids(rest));
    }
  }

  lemma StagedIsSlot(b: Book, attachments: seq<Attachment>)
    requires var rows := StagedUploads(attachments);
             Distinct(Ids(rows)) && IdSet(rows) <= b.staged && b.staged !! b.minted && b.banned <= b.minted
    ensures SlotOk(b, StagedUploads(attachments))
  {
    var rows := StagedUploads(attachments);
    forall u | u in rows
      ensures EntryOk(b, u)
    {
      assert u.clientUploadId in IdSet(rows);
    }
  }

  lemma ReplaceSlotKeepsChat(b: Book, s: Chat, session: string, us: seq<DraftUpload>)
    requires ChatOk(b, s) && SlotOk(b, us)
    ensures ChatOk(b, s.Step(SetInputDraftAttachments(session, us)))
  {
    CommitKeepsChat(b, s, s.Effect(SetInputDraftAttachments(session, us)));
  }

  lemma DropKeepsSlot(b: Book, us: seq<DraftUpload>, id: string)
    requires SlotOk(b, us)
    ensures SlotOk(b, DropUpload(us, id))
  {
    DropKeepsDistinct(us, id);
  }

  /** What an action that knows no attachment makes of the slots. */
  lemma HarmlessKeepsChat(b: Book, s: Chat, a: Action)
    requires ChatOk(b, s) && Harmless(a)
    ensures ChatOk(b, s.Step(a))
  {
    if a.SetActiveSession? {
      SelectionKeepsChat(b, s, SessionField, Truthy(a.session));
    } else if a.SetSelectedAgentId? {
      SelectionKeepsChat(b, s, AgentField, Some(a.agent));
    } else if a.SetSelectedProjectId? {
      SelectionKeepsChat(b, s, ProjectField, Truthy(a.project));
    } else {
      HarmlessEffect(b, s, a);
      CommitKeepsChat(b, s, s.Effect(a));
    }
  }

  lemma HarmlessEffect(b: Book, s: Chat, a: Action)
    requires ChatOk(b, s) && Harmless(a)
    ensures s.Effect(a).uploads.Some? ==> SlotsOk(b, s.Effect(a).uploads.value)
  {
    if a.FailInputDraftUpload? {
      FailEffectOk(b, s, a);
    } else if a.RemoveInputDraftUpload? {
      RemoveEffectOk(b, s, a);
    } else if a.ClearInputDraft? {
    } else {
      NoUploadEffect(s, a);
    }
  }

  lemma NoUploadEffect(s: Chat, a: Action)
    requires Harmless(a) && !a.FailInputDraftUpload? && !a.RemoveInputDraftUpload? && !a.ClearInputDraft?
    ensures s.Effect(a).uploads.None?
  {
  }

  lemma FailEffectOk(b: Book, s: Chat, a: Action)
    requires ChatOk(b, s) && a.FailInputDraftUpload?
    ensures s.Effect(a).uploads.Some? ==> SlotsOk(b, s.Effect(a).uploads.value)
  {
    if Tracks(s.Slot(a.sessionId), a.clientUploadId) {
      FailEffect(s, a.sessionId, a.clientUploadId, a.error);
      FailKeepsSlots(b, s, a.sessionId, a.clientUploadId, a.error);
    }
  }

  lemma RemoveEffect(s: Chat, sid: string, id: string)
    ensures s.Effect(RemoveInputDraftUpload(sid, id)).uploads
         == if Tracks(s.Slot(sid), id) then Some(SetOrDelete(s.uploads, sid, DropUpload(s.Slot(sid), id))) else None
  {
  }

  lemma RemoveEffectOk(b: Book, s: Chat, a: Action)
    requires ChatOk(b, s) && a.RemoveInputDraftUpload?
    ensures s.Effect(a).uploads.Some? ==> SlotsOk(b, s.Effect(a).uploads.value)
  {
    RemoveEffect(s, a.sessionId, a.clientUploadId);
    if Tracks(s.Slot(a.sessionId), a.clientUploadId) {
      RemoveKeepsSlots(b, s, a.sessionId, a.clientUploadId);
    }
  }

  lemma FailKeepsSlots(b: Book, s: Chat, session: string, id: string, error: Option<string>)
    requires ChatOk(b, s) && Tracks(s.Slot(session), id)
    ensures SlotsOk(b, s.uploads[session := FailUpload(s.Slot(session), id, error)])
  {
    var us := s.Slot(session);
    assert SlotOk(b, us);
    var target := FindUpload(us, id);
    ReplaceKeepsSlot(b, us, id, Pending(id, target.filename, target.size, target.contentType, Failed, error));
  }

  lemma RemoveKeepsSlots(b: Book, s: Chat, session: string, id: string)
    requires ChatOk(b, s) && Tracks(s.Slot(session), id)
    ensures SlotsOk(b, SetOrDelete(s.uploads, session, DropUpload(s.Slot(session), id)))
  {
    assert SlotOk(b, s.Slot(session));
    DropKeepsSlot(b, s.Slot(session), id);
  }

  lemma SelectionKeepsChat(b: Book, s: Chat, f: Field, v: Option<string>)
    requires ChatOk(b, s) && f != AttachmentsField
    ensures ChatOk(b, s.(disk := s.WriteText(f, v)))
  {
    forall w: string
      ensures Get(s.WriteText(f, v), Key(AttachmentsField, w)) == Get(s.disk, Key(AttachmentsField, w))
    {
    }
  }

  lemma SettleKeepsChat(b: Book, s: Chat, session: string, id: string, a: Attachment)
    requires ChatOk(b, s) && id in b.minted && id !in b.banned && id in b.results && b.results[id] == a
    ensures ChatOk(b, s.Step(SettleInputDraftUpload(session, id, a)))
  {
    var action := SettleInputDraftUpload(session, id, a);
    if Tracks(s.Slot(session), id) {
      assert SlotOk(b, s.Slot(session));
      ReplaceKeepsSlot(b, s.Slot(session), id, UploadedAs(id, a));
    }
    CommitKeepsChat(b, s, s.Effect(action));
  }

  lemma AppendKeepsSlot(b: Book, us: seq<DraftUpload>, u: DraftUpload)
    requires SlotOk(b, us) && EntryOk(b, u) && !Tracks(us, u.clientUploadId)
    ensures SlotOk(b, us + [u])
  {
    assert Ids(us + [u]) == Ids(us) + [u.clientUploadId];
    DistinctAppend(Ids(us), [u.clientUploadId]);
  }

  lemma PickKeepsChat(b: Book, s: Chat, session: string, u: DraftUpload)
    requires ChatOk(b, s) && EntryOk(b, u)
    ensures ChatOk(b, s.Step(AddInputDraftUpload(session, u)))
  {
    if !Tracks(s.Slot(session), u.clientUploadId) {
      AppendKeepsSlot(b, s.Slot(session), u);
    }
    CommitKeepsChat(b, s, s.Effect(AddInputDraftUpload(session, u)));
  }

  // ----- invariant and theorems

  ghost function BookOf(s: System, banned: set<string>): Book {
    Book(s.minted, s.results, s.staged, banned)
  }

  ghost predicate Inv(s: System, banned: set<string>) {
    && ControllersExact(s) && RequestsSound(s) && DeliveredOnce(s)
    && banned <= s.minted && s.minted !! s.staged
    && ChatOk(BookOf(s, banned), s.chat)
  }

  lemma ContinueKeepsInv(s: System, c: nat, banned: set<string>)
    requires Inv(s, banned) && Enabled(s, Continue(c))
    ensures Inv(Take(s, Continue(c)), banned)
  {
    var t := Take(s, Continue(c));
    ContinueKeepsRequests(s, c);
    var r := s.requests[c];
    var outcomes := Outcomes(r.phase, c in s.coord.aborted, NoThrow);
    GrowingKeepsChat(BookOf(s, banned), BookOf(t, banned), s.chat);
    if outcomes != [] && Tracks(s.chat.Slot(r.session), r.id) {
      var b := BookOf(t, banned);
      assert SlotOk(b, s.chat.Slot(r.session));
      var u := FindUpload(s.chat.Slot(r.session), r.id);
      assert EntryOk(b, u);
      match outcomes[0] {
        case Delivered(a) => SettleKeepsChat(b, s.chat, r.session, r.id, a);
        case FailedWith(_) => HarmlessKeepsChat(b, s.chat, RemoveInputDraftUpload(r.session, r.id));
      }
    }
  }

  lemma TakeKeepsInv(s: System, k: StepKind, banned: set<string>)
    requires Inv(s, banned) && Enabled(s, k)
    ensures Inv(Take(s, k), banned)
  {
    var t := Take(s, k);
    TakeKeepsRequests(s, k);
    var b := BookOf(s, banned);
    match k {
      case Pick(id, session, filename, size, contentType) =>
        GrowingKeepsChat(b, BookOf(t, banned), s.chat);
        PickKeepsChat(BookOf(t, banned), s.chat, session, Pending(id, filename, size, contentType, Uploading, None));
      case Continue(c) => ContinueKeepsInv(s, c, banned);
      case Dismiss(session, id) => HarmlessKeepsChat(b, s.chat, RemoveInputDraftUpload(session, id));
      case Prune(session, unreferenced) =>
        assert SlotOk(b, s.chat.Slot(session));
        ReferencedKeepsSlot(b, s.chat.Slot(session), unreferenced);
        ReplaceSlotKeepsChat(b, s.chat, session, Referenced(s.chat.Slot(session), unreferenced));
      case Stage(session, attachments) =>
        GrowingKeepsChat(b, BookOf(t, banned), s.chat);
        StagedIsSlot(BookOf(t, banned), attachments);
        ReplaceSlotKeepsChat(BookOf(t, banned), s.chat, session, StagedUploads(attachments));
      case Other(a) => HarmlessKeepsChat(b, s.chat, a);
      case Switch(slug) => LoadKeepsChat(b, s.chat, slug);
      case Restart(slug) => LoadKeepsChat(b, s.chat, slug);
      case LogOutOf(slugs) => LogoutKeepsChat(b, s.chat, slugs);
      case _ =>
    }
  }

  /** Over every run: at most one outcome per request, an exact controller map, distinct placeholder ids in every
      slot of every workspace, and every finished entry holding the attachment its own request delivered. */
  lemma {:induction false} RunKeepsInv(s: System, ks: seq<StepKind>, banned: set<string>)
    requires Inv(s, banned) && Enables(s, ks)
    ensures Inv(TakeAll(s, ks), banned)
    decreases |ks|
  {
    if ks != [] {
      TakeKeepsInv(s, ks[0], banned);
      RunKeepsInv(Take(s, ks[0]), ks[1..], banned);
    }
  }

  /** A fresh installation satisfies the invariant. */
  lemma FreshStart(slug: string)
    ensures Inv(System(Load(map[], slug), Coord(map[], {}, 0), map[], [], {}, map[], {}), {})
  {
    var d: Disk := map[];
    assert forall w: string :: SlotsOf(Get(d, Key(AttachmentsField, w))) == map[];
    assert LoadSlots(d, slug) == map[];
  }

  // ----- gone for good

  /** No slot, in memory or in the storage of any workspace, tracks the id. */
  ghost predicate Untracked(chat: Chat, id: string) {
    && NoSlotTracks(chat.uploads, id)
    && forall w: string :: NoSlotTracks(SlotsOf(Get(chat.disk, Key(AttachmentsField, w))), id)
  }

  ghost predicate NoSlotTracks(m: Slots, id: string) {
    forall k :: k in m ==> !Tracks(m[k], id)
  }

  lemma BannedIsUntracked(b: Book, chat: Chat, id: string)
    requires ChatOk(b, chat) && id in b.banned
    ensures Untracked(chat, id)
  {
    forall m: Slots | SlotsOk(b, m)
      ensures NoSlotTracks(m, id)
    {
      forall k | k in m ensures !Tracks(m[k], id) {
        assert SlotOk(b, m[k]);
        assert forall i :: 0 <= i < |m[k]| ==> m[k][i] in m[k];
      }
    }
  }

  lemma UntrackedIsBanned(b: Book, chat: Chat, id: string)
    requires ChatOk(b, chat) && Untracked(chat, id)
    ensures ChatOk(b.(banned := b.banned + {id}), chat)
  {
    forall m: Slots | SlotsOk(b, m) && NoSlotTracks(m, id)
      ensures SlotsOk(b.(banned := b.banned + {id}), m)
    {
      forall k | k in m
        ensures SlotOk(b.(banned := b.banned + {id}), m[k])
      {
        assert SlotOk(b, m[k]) && !Tracks(m[k], id);
        assert forall u :: u in m[k] ==> u.clientUploadId != id;
      }
    }
  }

  /** Once no slot tracks a picked upload, whether it was dismissed, cleared, pruned, failed or dropped by a reload,
      nothing that happens later brings it back: not a request that resolves afterwards, not a switch, not a reload. */
  lemma GoneStaysGone(s: System, ks: seq<StepKind>, id: string)
    requires Inv(s, {}) && Enables(s, ks) && id in s.minted && Untracked(s.chat, id)
    ensures Untracked(TakeAll(s, ks).chat, id)
  {
    UntrackedIsBanned(BookOf(s, {}), s.chat, id);
    RunKeepsInv(s, ks, {id});
    BannedIsUntracked(BookOf(TakeAll(s, ks), {id}), TakeAll(s, ks).chat, id);
  }

  ghost predicate UntrackedAfter(s: System, ks: seq<StepKind>, id: string) {
    Enables(s, ks) ==> Untracked(TakeAll(s, ks).chat, id)
  }

  /** So an upload is gone for every run to come exactly when no slot tracks it now. */
  lemma GoneExactly(s: System, id: string)
    requires Inv(s, {}) && id in s.minted
    ensures Untracked(s.chat, id) <==> forall ks :: UntrackedAfter(s, ks, id)
  {
    if Untracked(s.chat, id) {
      forall ks
        ensures UntrackedAfter(s, ks, id)
      {
        if Enables(s, ks) {
          GoneStaysGone(s, ks, id);
        }
      }
    } else {
      assert !UntrackedAfter(s, [], id);
    }
  }
}
