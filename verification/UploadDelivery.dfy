/** What the outcome of an upload does to the draft: a delivered file takes its placeholder's place, a failed one goes,
    and no placeholder is left spinning. */
module UploadDelivery {
  import opened Basics
  import opened DraftUploads
  import opened ChatStorage
  import opened ChatSlots
  import opened ChatModel
  import opened UploadCoordinator
  import opened UploadProtocol

  // ----- one outcome

  /** The placeholder is now the finished file, in its place, and everything else is as it was. */
  ghost predicate Finishes(was: seq<DraftUpload>, now: seq<DraftUpload>, id: string, a: Attachment) {
    && |now| == |was|
    && forall i :: 0 <= i < |was| ==>
         if was[i].clientUploadId != id then now[i] == was[i]
         else now[i].Uploaded? && now[i].clientUploadId == id && now[i].attachment == a.(downloadUrl := "")
              && now[i].filename == a.filename && now[i].size == a.sizeBytes
              && now[i].contentType == if a.contentType == "" then None else Some(a.contentType)
  }

  /** Nothing but the slot of one session differs. */
  ghost predicate OnlySlot(c: Chat, t: Chat, session: string) {
    && (forall k :: k != session ==> (k in t.uploads <==> k in c.uploads))
    && (forall k :: k != session && k in c.uploads ==> t.uploads[k] == c.uploads[k])
    && t.drafts == c.drafts && t.applied == c.applied && t.queues == c.queues && t.slug == c.slug
    && t.agent == c.agent && t.session == c.session && t.project == c.project
  }

  lemma SettleLands(c: Chat, session: string, id: string, a: Attachment)
    requires Tracks(c.Slot(session), id)
    ensures var t := c.Step(SettleInputDraftUpload(session, id, a));
            Finishes(c.Slot(session), t.Slot(session), id, a) && OnlySlot(c, t, session)
  {
  }

  /** A delivered upload lands: whenever the continuation of a resolved request runs while the draft still tracks it,
      the placeholder becomes the uploaded file and nothing else changes. */
  lemma DeliveryLands(s: System, c: nat)
    requires Enabled(s, Continue(c)) && s.requests[c].phase.Resolved?
    requires Tracks(s.chat.Slot(s.requests[c].session), s.requests[c].id)
    ensures var r, t := s.requests[c], Take(s, Continue(c));
            && Finishes(s.chat.Slot(r.session), t.chat.Slot(r.session), r.id, r.phase.attachment)
            && OnlySlot(s.chat, t.chat, r.session)
  {
    var r := s.requests[c];
    assert Outcomes(r.phase, c in s.coord.aborted, NoThrow) == [Delivered(r.phase.attachment)];
    SettleLands(s.chat, r.session, r.id, r.phase.attachment);
  }

  /** What is finished or failed is still there after a reload. */
  lemma ReloadKeepsFinished(c: Chat, session: string, u: DraftUpload)
    requires MirrorsDrafts(c) && NoLegacySlots(c) && u in c.Slot(session) && !u.InFlight()
    ensures u in Load(c.disk, c.slug).Slot(session)
  {
    ReloadSettles(c);
    assert u in Settled(c.uploads[session]);
  }

  lemma {:induction false} DropConcat(a: seq<DraftUpload>, b: seq<DraftUpload>, id: string)
    ensures DropUpload(a + b, id) == DropUpload(a, id) + DropUpload(b, id)
  {
    if a == [] {
      assert a + b == b;
    } else {
      var rest := a[1..];
      assert (a + b)[1..] == rest + b;
      DropConcat(rest, b, id);
      if a[0].clientUploadId != id {
        ConcatAssociates([a[0]], DropUpload(rest, id), DropUpload(b, id));
      }
    }
  }

  /** The one entry with this id, and the others around it. */
  ghost predicate Around(us: seq<DraftUpload>, id: string, before: seq<DraftUpload>, u: DraftUpload,
                         after: seq<DraftUpload>) {
    && us == before + ([u] + after) && u.clientUploadId == id
    && (forall j :: 0 <= j < |before| ==> before[j].clientUploadId != id)
    && forall j :: 0 <= j < |after| ==> after[j].clientUploadId != id
  }

  lemma DropMiddle(us: seq<DraftUpload>, id: string, before: seq<DraftUpload>, u: DraftUpload, after: seq<DraftUpload>)
    requires Around(us, id, before, u, after)
    ensures DropUpload(us, id) == before + after
  {
    NothingDropped(before, id);
    NothingDropped(after, id);
    DropConcat(before, [u] + after, id);
    assert ([u] + after)[1..] == after;
  }

  lemma {:induction false} NothingDropped(us: seq<DraftUpload>, id: string)
    requires forall j :: 0 <= j < |us| ==> us[j].clientUploadId != id
    ensures DropUpload(us, id) == us
  {
    if us != [] {
      assert forall j :: 0 <= j < |us[1..]| ==> us[1..][j] == us[j + 1];
      NothingDropped(us[1..], id);
    }
  }

  lemma RemoveLands(c: Chat, session: string, id: string, before: seq<DraftUpload>, u: DraftUpload,
                    after: seq<DraftUpload>)
    requires Around(c.Slot(session), id, before, u, after)
    ensures var t := c.Step(RemoveInputDraftUpload(session, id));
            t.Slot(session) == before + after && OnlySlot(c, t, session)
  {
    DropMiddle(c.Slot(session), id, before, u, after);
    RemoveEffect(c, session, id);
    assert c.Slot(session)[|before|] == u;
  }

  /** A failed upload goes from its place, and nothing else changes. */
  lemma FailureRemoves(s: System, c: nat, before: seq<DraftUpload>, u: DraftUpload, after: seq<DraftUpload>)
    requires Enabled(s, Continue(c)) && s.requests[c].phase.Rejected? && c !in s.coord.aborted
    requires !s.requests[c].phase.abortError
    requires Around(s.chat.Slot(s.requests[c].session), s.requests[c].id, before, u, after)
    ensures var r, t := s.requests[c], Take(s, Continue(c));
            t.chat.Slot(r.session) == before + after && OnlySlot(s.chat, t.chat, r.session)
  {
    var r := s.requests[c];
    assert Outcomes(r.phase, false, NoThrow) == [FailedWith(r.phase.message)];
    assert s.chat.Slot(r.session)[|before|] == u;
    RemoveLands(s.chat, r.session, r.id, before, u, after);
  }

  /** A request that fails after an abort, or whose placeholder is gone, changes no draft. */
  lemma SilentOutcome(s: System, c: nat)
    requires Enabled(s, Continue(c))
    requires !Tracks(s.chat.Slot(s.requests[c].session), s.requests[c].id)
             || (s.requests[c].phase.Rejected? && (c in s.coord.aborted || s.requests[c].phase.abortError))
    ensures Take(s, Continue(c)).chat == s.chat
  {
  }

  /** A picked file shows as a placeholder at the end of its slot. */
  lemma PickShows(s: System, k: StepKind)
    requires k.Pick? && Enabled(s, k) && !Tracks(s.chat.Slot(k.session), k.id)
    ensures var t := Take(s, k);
            && t.chat.Slot(k.session)
               == s.chat.Slot(k.session) + [Pending(k.id, k.filename, k.size, k.contentType, Uploading, None)]
            && OnlySlot(s.chat, t.chat, k.session)
  {
    AddLands(s.chat, k.session, Pending(k.id, k.filename, k.size, k.contentType, Uploading, None));
  }

  lemma AddLands(c: Chat, session: string, u: DraftUpload)
    requires !Tracks(c.Slot(session), u.clientUploadId)
    ensures var t := c.Step(AddInputDraftUpload(session, u));
            t.Slot(session) == c.Slot(session) + [u] && OnlySlot(c, t, session)
  {
  }

  lemma FailLands(c: Chat, session: string, id: string, error: Option<string>, i: nat)
    requires i < |c.Slot(session)| && Tracks(c.Slot(session), id)
    ensures var was, t := c.Slot(session), c.Step(FailInputDraftUpload(session, id, error));
            var now := t.Slot(session);
            && |now| == |was| && OnlySlot(c, t, session)
            && if was[i].clientUploadId != id then now[i] == was[i]
               else now[i].Pending? && now[i].clientUploadId == id && now[i].status == Failed && now[i].error == error
  {
    FailEffect(c, session, id, error);
  }

  // ----- no placeholder is left spinning

  /** The request that is still to report on a placeholder. */
  ghost predicate Owns(s: System, session: string, id: string, c: nat) {
    c in s.requests && s.requests[c].id == id && s.requests[c].session == session && c !in s.delivered
  }

  ghost predicate Owned(s: System, session: string, id: string) {
    exists c :: Owns(s, session, id, c)
  }

  ghost predicate Spins(m: Slots, session: string, u: DraftUpload) {
    session in m && u in m[session] && u.InFlight()
  }

  ghost predicate AllOwned(s: System) {
    forall k: string, u: DraftUpload :: Spins(s.chat.uploads, k, u) ==> Owned(s, k, u.clientUploadId)
  }

  /** No placeholder is new. */
  ghost predicate SpinsBefore(m: Slots, n: Slots) {
    forall k: string, u: DraftUpload :: Spins(n, k, u) ==> Spins(m, k, u)
  }

  lemma ReplacedSpins(us: seq<DraftUpload>, id: string, v: DraftUpload, u: DraftUpload)
    requires u in ReplaceUpload(us, id, v) && u.InFlight() && !v.InFlight()
    ensures u in us && u.clientUploadId != id
  {
  }

  lemma SettleSpins(c: Chat, session: string, id: string, a: Attachment)
    ensures SpinsBefore(c.uploads, c.Step(SettleInputDraftUpload(session, id, a)).uploads)
  {
    forall u | u in ReplaceUpload(c.Slot(session), id, UploadedAs(id, a)) && u.InFlight() ensures u in c.Slot(session) {
      ReplacedSpins(c.Slot(session), id, UploadedAs(id, a), u);
    }
  }

  lemma FailSpins(c: Chat, session: string, id: string, error: Option<string>)
    ensures SpinsBefore(c.uploads, c.Step(FailInputDraftUpload(session, id, error)).uploads)
  {
    if Tracks(c.Slot(session), id) {
      FailEffect(c, session, id, error);
      var target := FindUpload(c.Slot(session), id);
      var v := Pending(id, target.filename, target.size, target.contentType, Failed, error);
      forall u | u in ReplaceUpload(c.Slot(session), id, v) && u.InFlight() ensures u in c.Slot(session) {
        ReplacedSpins(c.Slot(session), id, v, u);
      }
    }
  }

  lemma RemoveSpins(c: Chat, session: string, id: string)
    ensures SpinsBefore(c.uploads, c.Step(RemoveInputDraftUpload(session, id)).uploads)
  {
    RemoveEffect(c, session, id);
  }

  lemma EffectSpins(c: Chat, a: Action)
    requires Harmless(a) || a.SettleInputDraftUpload?
    ensures SpinsBefore(c.uploads, c.Step(a).uploads)
  {
    if a.SettleInputDraftUpload? {
      SettleSpins(c, a.sessionId, a.clientUploadId, a.attachment);
    } else if a.FailInputDraftUpload? {
      FailSpins(c, a.sessionId, a.clientUploadId, a.error);
    } else if a.RemoveInputDraftUpload? {
      RemoveSpins(c, a.sessionId, a.clientUploadId);
    }
  }

  lemma ReplacedSlotSpins(c: Chat, session: string, us: seq<DraftUpload>)
    requires forall u :: u in us && u.InFlight() ==> u in c.Slot(session)
    ensures SpinsBefore(c.uploads, c.Step(SetInputDraftAttachments(session, us)).uploads)
  {
  }

  lemma LoadSpinsNot(d: Disk, slug: string, k: string, u: DraftUpload)
    ensures !Spins(Load(d, slug).uploads, k, u)
  {
    LoadedSlotsSettled(d, slug);
    var m := LoadSlots(d, slug);
    if k in m {
      assert k in SettledSlots(m) && m[k] == Settled(m[k]);
    }
  }

  lemma StillOwned(s: System, t: System)
    requires AllOwned(s) && SpinsBefore(s.chat.uploads, t.chat.uploads)
    requires t.delivered == s.delivered
    requires forall c :: c in s.requests ==>
               c in t.requests && t.requests[c].id == s.requests[c].id && t.requests[c].session == s.requests[c].session
    ensures AllOwned(t)
  {
    forall k: string, u: DraftUpload | Spins(t.chat.uploads, k, u) ensures Owned(t, k, u.clientUploadId) {
      assert Owned(s, k, u.clientUploadId);
      var c :| Owns(s, k, u.clientUploadId, c);
      assert Owns(t, k, u.clientUploadId, c);
    }
  }

  lemma PickKeepsOwned(s: System, k: StepKind)
    requires k.Pick? && Enabled(s, k) && AllOwned(s) && RequestsSound(s) && DeliveredOnce(s)
    ensures AllOwned(Take(s, k))
  {
    var t := Take(s, k);
    assert Owns(t, k.session, k.id, s.coord.next);
    forall x: string, u: DraftUpload | Spins(t.chat.uploads, x, u) ensures Owned(t, x, u.clientUploadId) {
      PickSpins(s, k, x, u);
      if Spins(s.chat.uploads, x, u) {
        var c :| Owns(s, x, u.clientUploadId, c);
        assert Owns(t, x, u.clientUploadId, c);
      }
    }
  }

  lemma PickSpins(s: System, k: StepKind, x: string, u: DraftUpload)
    requires k.Pick? && Enabled(s, k) && Spins(Take(s, k).chat.uploads, x, u)
    ensures Spins(s.chat.uploads, x, u) || (x == k.session && u.clientUploadId == k.id)
  {
  }

  lemma DeliveredSlot(c: Chat, session: string, id: string, a: Attachment, u: DraftUpload)
    requires Tracks(c.Slot(session), id) && u.clientUploadId == id
    ensures !Spins(c.Step(SettleInputDraftUpload(session, id, a)).uploads, session, u)
  {
    if u.InFlight() && u in ReplaceUpload(c.Slot(session), id, UploadedAs(id, a)) {
      ReplacedSpins(c.Slot(session), id, UploadedAs(id, a), u);
    }
  }

  /** Once its request has reported, nothing of that id spins in the session it was picked for. */
  lemma ReportedSpinsNot(c: Chat, r: Request, o: Outcome, u: DraftUpload)
    requires u.clientUploadId == r.id
    ensures !Spins(OnSettled(c, r, o).uploads, r.session, u)
  {
    if !Tracks(c.Slot(r.session), r.id) {
      assert forall v :: v in c.Slot(r.session) ==> v.clientUploadId != r.id;
    } else if o.Delivered? {
      DeliveredSlot(c, r.session, r.id, o.attachment, u);
    } else {
      RemoveEffect(c, r.session, r.id);
    }
  }

  lemma SettledSpins(c: Chat, r: Request, o: Outcome)
    ensures SpinsBefore(c.uploads, OnSettled(c, r, o).uploads)
  {
    if Tracks(c.Slot(r.session), r.id) {
      match o
      case Delivered(a) => EffectSpins(c, SettleInputDraftUpload(r.session, r.id, a));
      case FailedWith(_) => EffectSpins(c, RemoveInputDraftUpload(r.session, r.id));
    }
  }

  lemma ContinueKeepsOwned(s: System, c: nat)
    requires Enabled(s, Continue(c)) && AllOwned(s)
    ensures AllOwned(Take(s, Continue(c)))
  {
    var t, r := Take(s, Continue(c)), s.requests[c];
    var outcomes := Outcomes(r.phase, c in s.coord.aborted, NoThrow);
    if outcomes == [] {
      StillOwned(s, t);
    } else {
      SettledSpins(s.chat, r, outcomes[0]);
      forall k: string, u: DraftUpload | Spins(t.chat.uploads, k, u) ensures Owned(t, k, u.clientUploadId) {
        var d :| Owns(s, k, u.clientUploadId, d);
        if d == c {
          ReportedSpinsNot(s.chat, r, outcomes[0], u);
          assert false;
        }
        assert Owns(t, k, u.clientUploadId, d);
      }
    }
  }

  lemma SlotKeepsOwned(s: System, k: StepKind)
    requires (k.Prune? || k.Stage?) && Enabled(s, k) && AllOwned(s)
    ensures AllOwned(Take(s, k))
  {
    if k.Prune? {
      ReplacedSlotSpins(s.chat, k.session, Referenced(s.chat.Slot(k.session), k.unreferenced));
    } else {
      var rows := StagedUploads(k.attachments);
      assert forall u :: u in rows ==> !u.InFlight();
      ReplacedSlotSpins(s.chat, k.session, rows);
    }
    StillOwned(s, Take(s, k));
  }

  lemma ChatKeepsOwned(s: System, k: StepKind)
    requires (k.Other? || k.Dismiss? || k.LogOutOf? || k.Abort?) && Enabled(s, k) && AllOwned(s)
    ensures AllOwned(Take(s, k))
  {
    if k.Other? {
      EffectSpins(s.chat, k.action);
    } else if k.Dismiss? {
      EffectSpins(s.chat, RemoveInputDraftUpload(k.session, k.id));
    }
    StillOwned(s, Take(s, k));
  }

  lemma LoadKeepsOwned(s: System, k: StepKind)
    requires (k.Switch? || k.Restart?) && AllOwned(s)
    ensures AllOwned(Take(s, k))
  {
    var t := Take(s, k);
    forall x: string, u: DraftUpload | Spins(t.chat.uploads, x, u) ensures Owned(t, x, u.clientUploadId) {
      if k.Restart? || k.slug != s.chat.slug {
        LoadSpinsNot(s.chat.disk, k.slug, x, u);
        assert false;
      }
      var c :| Owns(s, x, u.clientUploadId, c);
      assert Owns(t, x, u.clientUploadId, c);
    }
  }

  lemma TakeKeepsOwned(s: System, k: StepKind)
    requires Enabled(s, k) && AllOwned(s) && RequestsSound(s) && DeliveredOnce(s)
    ensures AllOwned(Take(s, k))
  {
    match k
    case Pick(_, _, _, _, _) => PickKeepsOwned(s, k);
    case Continue(c) => ContinueKeepsOwned(s, c);
    case NetworkResolves(_, _) => StillOwned(s, Take(s, k));
    case NetworkRejects(_, _, _) => StillOwned(s, Take(s, k));
    case Prune(_, _) => SlotKeepsOwned(s, k);
    case Stage(_, _) => SlotKeepsOwned(s, k);
    case Switch(_) => LoadKeepsOwned(s, k);
    case Restart(_) => LoadKeepsOwned(s, k);
    case _ => ChatKeepsOwned(s, k);
  }

  /** Over every run each placeholder that still spins has a request that has not reported yet. */
  lemma {:induction false} RunKeepsOwned(s: System, ks: seq<StepKind>, banned: set<string>)
    requires Inv(s, banned) && AllOwned(s) && Enables(s, ks)
    ensures AllOwned(TakeAll(s, ks))
    decreases |ks|
  {
    if ks != [] {
      TakeKeepsOwned(s, ks[0]);
      TakeKeepsInv(s, ks[0], banned);
      RunKeepsOwned(Take(s, ks[0]), ks[1..], banned);
    }
  }

  lemma ReportedOwnsNothing(s: System, c: nat, k: string)
    requires RequestsSound(s) && c in s.delivered && c in s.requests
    ensures !Owned(s, k, s.requests[c].id)
  {
    forall d ensures !Owns(s, k, s.requests[c].id, d) {
    }
  }

  /** So an upload whose request has delivered its outcome spins nowhere. */
  lemma DeliveredSpinsNot(s: System, c: nat, k: string, u: DraftUpload)
    requires AllOwned(s) && RequestsSound(s) && c in s.delivered && c in s.requests
    requires u.clientUploadId == s.requests[c].id
    ensures !Spins(s.chat.uploads, k, u)
  {
    ReportedOwnsNothing(s, c, k);
  }

  lemma FreshStart(slug: string)
    ensures AllOwned(System(Load(map[], slug), Coord(map[], {}, 0), map[], [], {}, map[], {}))
  {
    forall k: string, u: DraftUpload ensures !Spins(Load(map[], slug).uploads, k, u) {
      LoadSpinsNot(map[], slug, k, u);
    }
  }

  // ----- whole uploads

  lemma Prepend(s: System, k: StepKind, ks: seq<StepKind>)
    requires Enabled(s, k) && Enables(Take(s, k), ks)
    ensures Enables(s, [k] + ks) && TakeAll(s, [k] + ks) == TakeAll(Take(s, k), ks)
  {
    assert ([k] + ks)[1..] == ks;
  }

  /** What the network says about a request is what its continuation finds. */
  lemma AnsweredThenContinued(s: System, c: nat, k: StepKind)
    requires Enabled(s, k)
    requires (k.NetworkResolves? && k.controller == c) || (k.NetworkRejects? && k.controller == c)
    ensures Enables(s, [k, Continue(c)]) && TakeAll(s, [k, Continue(c)]) == Take(Take(s, k), Continue(c))
    ensures Take(s, k).chat == s.chat && Take(s, k).coord == s.coord
    ensures var r := Take(s, k).requests[c];
            && r.id == s.requests[c].id && r.session == s.requests[c].session
            && r.phase == if k.NetworkResolves? then Resolved(k.attachment) else Rejected(k.abortError, k.message)
  {
    Prepend(Take(s, k), Continue(c), []);
    Prepend(s, k, [Continue(c)]);
    assert [Continue(c)] + [] == [Continue(c)] && [k] + [Continue(c)] == [k, Continue(c)];
  }

  /** From the network's answer to the draft: a resolved request finishes its placeholder. */
  lemma ResolvedUploadLands(s: System, c: nat, a: Attachment)
    requires Enabled(s, NetworkResolves(c, a)) && Tracks(s.chat.Slot(s.requests[c].session), s.requests[c].id)
    ensures var r, ks := s.requests[c], [NetworkResolves(c, a), Continue(c)];
            && Enables(s, ks)
            && Finishes(s.chat.Slot(r.session), TakeAll(s, ks).chat.Slot(r.session), r.id, a)
            && OnlySlot(s.chat, TakeAll(s, ks).chat, r.session)
  {
    AnsweredThenContinued(s, c, NetworkResolves(c, a));
    DeliveryLands(Take(s, NetworkResolves(c, a)), c);
  }

  /** A rejected one takes it away. */
  lemma RejectedUploadGoes(s: System, c: nat, message: string, before: seq<DraftUpload>, u: DraftUpload,
                           after: seq<DraftUpload>)
    requires Enabled(s, NetworkRejects(c, false, message)) && c !in s.coord.aborted
    requires Around(s.chat.Slot(s.requests[c].session), s.requests[c].id, before, u, after)
    ensures var r, ks := s.requests[c], [NetworkRejects(c, false, message), Continue(c)];
            && Enables(s, ks) && TakeAll(s, ks).chat.Slot(r.session) == before + after
            && OnlySlot(s.chat, TakeAll(s, ks).chat, r.session)
  {
    AnsweredThenContinued(s, c, NetworkRejects(c, false, message));
    FailureRemoves(Take(s, NetworkRejects(c, false, message)), c, before, u, after);
  }

  lemma AbortedOneIsDead(s: System, t: System, id: string, c: nat)
    requires ControllersExact(s) && t.requests == s.requests && t.coord == s.coord.AbortOne(id) && Live(t, c)
    ensures t.requests[c].id != id
  {
    assert Live(s, c);
  }

  /** Dismissing a placeholder in flight, or aborting its id, leaves no request of that id that can still report a
      failure. */
  lemma AbortKills(s: System, id: string, c: nat)
    requires ControllersExact(s) && Live(Take(s, Abort(id)), c)
    ensures s.requests[c].id != id && Take(s, Abort(id)).chat == s.chat
  {
    AbortedOneIsDead(s, Take(s, Abort(id)), id, c);
  }

  lemma DismissKills(s: System, session: string, id: string, before: seq<DraftUpload>, u: DraftUpload,
                     after: seq<DraftUpload>, c: nat)
    requires ControllersExact(s) && Around(s.chat.Slot(session), id, before, u, after)
    ensures var t := Take(s, Dismiss(session, id));
            && t.chat.Slot(session) == before + after && OnlySlot(s.chat, t.chat, session)
            && (u.InFlight() && Live(t, c) ==> s.requests[c].id != id)
            && (!u.InFlight() ==> t.coord == s.coord)
  {
    var t := Take(s, Dismiss(session, id));
    RemoveLands(s.chat, session, id, before, u, after);
    FoundInMiddle(s.chat.Slot(session), id, before, u, after);
    if u.InFlight() && Live(t, c) {
      AbortedOneIsDead(s, t, id, c);
    }
  }

  lemma FoundInMiddle(us: seq<DraftUpload>, id: string, before: seq<DraftUpload>, u: DraftUpload,
                      after: seq<DraftUpload>)
    requires Around(us, id, before, u, after)
    ensures Tracks(us, id) && FindUpload(us, id) == u
  {
    assert us[|before|] == u;
    assert forall v :: v in us ==> v in before || v == u || v in after;
  }

  /** A logout leaves no request alive and nothing on screen. */
  lemma LogoutKills(s: System, slugs: set<string>, c: nat)
    requires ControllersExact(s)
    ensures var t := Take(s, LogOutOf(slugs)); !Live(t, c) && t.coord.controllers == map[] && t.chat.uploads == map[]
  {
    if Live(s, c) {
      assert s.coord.controllers[s.requests[c].id] == c;
    }
  }

  // ----- slots replaced whole

  lemma SetSlotLands(c: Chat, session: string, us: seq<DraftUpload>)
    ensures var t := c.Step(SetInputDraftAttachments(session, us));
            t.Slot(session) == us && (session in t.uploads <==> us != []) && OnlySlot(c, t, session)
  {
  }

  /** A staged restore puts exactly its files into the slot, finished, each under its own id. */
  lemma StageLands(s: System, session: string, attachments: seq<Attachment>)
    requires Enabled(s, Stage(session, attachments))
    ensures var t := Take(s, Stage(session, attachments));
            var now := t.chat.Slot(session);
            && |now| == |attachments| && OnlySlot(s.chat, t.chat, session)
            && forall i :: 0 <= i < |now| ==>
                 && now[i].Uploaded? && now[i].attachment == attachments[i].(downloadUrl := "")
                 && now[i].clientUploadId == if attachments[i].id == "" then attachments[i].url else attachments[i].id
  {
    SetSlotLands(s.chat, session, StagedUploads(attachments));
  }

  lemma {:induction false} ReferencedConcat(a: seq<DraftUpload>, b: seq<DraftUpload>, gone: set<Attachment>)
    ensures Referenced(a + b, gone) == Referenced(a, gone) + Referenced(b, gone)
  {
    if a == [] {
      assert a + b == b;
    } else {
      var rest := a[1..];
      assert (a + b)[1..] == rest + b;
      ReferencedConcat(rest, b, gone);
      ConcatAssociates([a[0]], Referenced(rest, gone), Referenced(b, gone));
    }
  }

  lemma {:induction false} ReferencedOne(u: DraftUpload, gone: set<Attachment>)
    ensures Referenced([u], gone) == if u.Uploaded? && u.attachment in gone then [] else [u]
  {
    assert [u][1..] == [];
  }

  lemma {:induction false} ReferencedAll(us: seq<DraftUpload>, gone: set<Attachment>)
    requires |Referenced(us, gone)| == |us|
    ensures Referenced(us, gone) == us
  {
    if us != [] {
      ReferencedShrinks(us[1..], gone);
      if |Referenced(us[1..], gone)| == |us[1..]| {
        ReferencedAll(us[1..], gone);
      }
    }
  }

  lemma {:induction false} ReferencedShrinks(us: seq<DraftUpload>, gone: set<Attachment>)
    ensures |Referenced(us, gone)| <= |us|
  {
    if us != [] {
      ReferencedShrinks(us[1..], gone);
    }
  }

  lemma PrunedAround(before: seq<DraftUpload>, u: DraftUpload, after: seq<DraftUpload>, gone: set<Attachment>)
    ensures Referenced(before + ([u] + after), gone)
         == Referenced(before, gone) + ((if u.Uploaded? && u.attachment in gone then [] else [u])
                                        + Referenced(after, gone))
  {
    ReferencedConcat(before, [u] + after, gone);
    ReferencedConcat([u], after, gone);
    ReferencedOne(u, gone);
  }

  lemma PruneSets(s: System, session: string, gone: set<Attachment>)
    ensures var t := Take(s, Prune(session, gone));
            t.chat.Slot(session) == Referenced(s.chat.Slot(session), gone) && OnlySlot(s.chat, t.chat, session)
  {
    var us := s.chat.Slot(session);
    SetSlotLands(s.chat, session, Referenced(us, gone));
    if |Referenced(us, gone)| == |us| {
      ReferencedAll(us, gone);
    }
  }

  /** Pruning takes out exactly the finished files the text no longer refers to, wherever they stand, and keeps the
      others in order. */
  lemma PruneLands(s: System, session: string, gone: set<Attachment>, before: seq<DraftUpload>, u: DraftUpload,
                   after: seq<DraftUpload>)
    requires s.chat.Slot(session) == before + ([u] + after)
    ensures var t := Take(s, Prune(session, gone));
            && t.chat.Slot(session)
               == Referenced(before, gone) + ((if u.Uploaded? && u.attachment in gone then [] else [u])
                                              + Referenced(after, gone))
            && OnlySlot(s.chat, t.chat, session)
  {
    PrunedAround(before, u, after, gone);
    PruneSets(s, session, gone);
  }

  /** Clearing takes the text and the files of one session, and nothing else. */
  lemma ClearLands(c: Chat, session: string)
    ensures var t := c.Step(ClearInputDraft(session));
            && session !in t.drafts && session !in t.uploads
            && t.drafts == c.drafts - {session} && t.uploads == c.uploads - {session}
            && t.applied == c.applied && t.queues == c.queues
  {
  }

  ghost predicate IsFileOf(u: DraftUpload, a: Attachment) {
    u.Uploaded? && u.clientUploadId == a.id && u.attachment == a.(downloadUrl := "")
  }

  lemma {:induction false} ReplacedInPlace(us: seq<DraftUpload>, a: Attachment)
    requires a.id != ""
    ensures var now := ReplaceAttachment(us, a);
            |now| == |us| && forall i :: 0 <= i < |us| ==>
              if us[i].Uploaded? && us[i].attachment.id == a.id then IsFileOf(now[i], a) else now[i] == us[i]
  {
    if us != [] {
      ReplacedInPlace(us[1..], a);
    }
  }

  /** An attachment that the slot already holds is renewed in its place; a new one goes to the end. */
  lemma AttachLands(c: Chat, session: string, a: Attachment)
    requires a.id != ""
    ensures var was, t := c.Slot(session), c.Step(AddInputDraftAttachment(session, a));
            var now := t.Slot(session);
            && OnlySlot(c, t, session)
            && if exists i :: 0 <= i < |was| && was[i].Uploaded? && was[i].attachment.id == a.id then
                 |now| == |was| && forall i :: 0 <= i < |was| ==>
                   if was[i].Uploaded? && was[i].attachment.id == a.id then IsFileOf(now[i], a) else now[i] == was[i]
               else |now| == |was| + 1 && now[..|was|] == was && IsFileOf(now[|was|], a)
  {
    ReplacedInPlace(c.Slot(session), a);
  }

  /** A page reload leaves no request and no controller. */
  lemma RestartKills(s: System, slug: string, c: nat)
    ensures var t := Take(s, Restart(slug));
            !Live(t, c) && t.requests == map[] && t.coord.controllers == map[] && t.chat == Load(s.chat.disk, slug)
  {
  }
}
