/** What a user can still be shown of an upload: memory now, and whatever a later switch or reload reads into it. */
module UploadVisibility {
  import opened Basics
  import opened DraftUploads
  import opened ChatStorage
  import opened ChatSlots
  import opened ChatModel
  import opened UploadCoordinator
  import opened UploadProtocol

  function StoredSlots(d: Disk, w: string): Slots {
    SlotsOf(Get(d, Key(AttachmentsField, w)))
  }

  /** A stored slot that some later load shows: a slot of its own, or a legacy one that would be adopted. Which legacy
      slot is adopted depends on the stored agent, which only the workspace now shown can still choose. */
  predicate Readable(chat: Chat, w: string, k: string) {
    !IsLegacy(k)
    || (NEW_SESSION !in StoredSlots(chat.disk, w)
        && (w == chat.slug || k == LegacySlot(TextOf(Get(chat.disk, Key(AgentField, w))))))
  }

  ghost predicate Returns(chat: Chat, w: string, id: string) {
    exists k :: k in StoredSlots(chat.disk, w) && Tracks(StoredSlots(chat.disk, w)[k], id) && Readable(chat, w, k)
  }

  /** Neither on screen nor readable from any workspace. */
  ghost predicate Hidden(chat: Chat, id: string) {
    NoSlotTracks(chat.uploads, id) && forall w: string :: !Returns(chat, w, id)
  }

  // ----- hidden stays hidden

  lemma ElsewhereStays(c: Chat, t: Chat, w: string, id: string)
    requires !Returns(c, w, id) && w != t.slug
    requires forall f: Field :: Get(t.disk, Key(f, w)) == Get(c.disk, Key(f, w))
    ensures !Returns(t, w, id)
  {
    assert StoredSlots(t.disk, w) == StoredSlots(c.disk, w);
  }

  lemma HereStays(c: Chat, t: Chat, id: string)
    requires !Returns(c, c.slug, id) && t.slug == c.slug
    requires StoredSlots(t.disk, c.slug) == StoredSlots(c.disk, c.slug)
    ensures !Returns(t, c.slug, id)
  {
  }

  lemma HereIsHidden(t: Chat, id: string)
    requires NoSlotTracks(StoredSlots(t.disk, t.slug), id)
    ensures !Returns(t, t.slug, id)
  {
  }

  lemma SettledHides(m: Slots, id: string)
    requires NoSlotTracks(m, id)
    ensures NoSlotTracks(SettledSlots(m), id)
  {
    forall k | k in SettledSlots(m) ensures !Tracks(Settled(m[k]), id) {
      assert forall i :: 0 <= i < |Settled(m[k])| ==> Settled(m[k])[i] in m[k];
    }
  }

  lemma CommitHidesHere(c: Chat, w: Write, id: string)
    requires Hidden(c, id) && (w.uploads.Some? ==> NoSlotTracks(w.uploads.value, id))
    ensures !Returns(c.Commit(w), c.slug, id)
  {
    var t := c.Commit(w);
    CommitOnDisk(c, w);
    if w.uploads.Some? {
      SlotsRoundTrip(w.uploads.value);
      SettledHides(w.uploads.value, id);
      HereIsHidden(t, id);
    } else {
      HereStays(c, t, id);
    }
  }

  lemma CommitHides(c: Chat, w: Write, id: string)
    requires Hidden(c, id) && (w.uploads.Some? ==> NoSlotTracks(w.uploads.value, id))
    ensures Hidden(c.Commit(w), id)
  {
    var t := c.Commit(w);
    CommitIsolated(c, w);
    CommitHidesHere(c, w, id);
    forall v: string ensures !Returns(t, v, id) {
      if v != c.slug {
        ElsewhereStays(c, t, v, id);
      }
    }
  }

  lemma SelectionHides(c: Chat, t: Chat, f: Field, v: Option<string>, id: string)
    requires Hidden(c, id) && f != AttachmentsField
    requires t.disk == c.WriteText(f, v) && t.slug == c.slug && t.uploads == c.uploads
    ensures Hidden(t, id)
  {
    forall w: string ensures !Returns(t, w, id) {
      if w != c.slug {
        ElsewhereStays(c, t, w, id);
      } else {
        HereStays(c, t, id);
      }
    }
  }

  /** The actions that bring an upload into a slot that did not have it. */
  predicate Brings(a: Action, id: string) {
    || (a.SetInputDraftAttachments? && Tracks(a.uploads, id))
    || (a.AddInputDraftUpload? && a.upload.clientUploadId == id)
    || a.AddInputDraftAttachment?
  }

  lemma EffectHides(c: Chat, a: Action, id: string)
    requires NoSlotTracks(c.uploads, id) && !Brings(a, id)
    ensures c.Effect(a).uploads.Some? ==> NoSlotTracks(c.Effect(a).uploads.value, id)
  {
  }

  lemma ActionHides(c: Chat, a: Action, id: string)
    requires Hidden(c, id) && !Brings(a, id)
    ensures Hidden(c.Step(a), id)
  {
    if a.SetActiveSession? {
      SelectionHides(c, c.Step(a), SessionField, Truthy(a.session), id);
    } else if a.SetSelectedAgentId? {
      SelectionHides(c, c.Step(a), AgentField, Some(a.agent), id);
    } else if a.SetSelectedProjectId? {
      SelectionHides(c, c.Step(a), ProjectField, Truthy(a.project), id);
    } else {
      EffectHides(c, a, id);
      CommitHides(c, c.Effect(a), id);
    }
  }

  lemma LoadedHides(c: Chat, slug: string, id: string)
    requires Hidden(c, id)
    ensures NoSlotTracks(Load(c.disk, slug).uploads, id)
  {
    var raw, m := StoredSlots(c.disk, slug), LoadSlots(c.disk, slug);
    var agent := TextOf(Get(c.disk, Key(AgentField, slug)));
    assert !Returns(c, slug, id);
    forall k | k in m ensures !Tracks(m[k], id) {
      if k in raw {
        assert m[k] == raw[k] && Readable(c, slug, k);
      } else {
        assert m[k] == raw[LegacySlot(agent)] && Readable(c, slug, LegacySlot(agent));
      }
    }
  }

  lemma LoadHides(c: Chat, slug: string, id: string)
    requires Hidden(c, id)
    ensures Hidden(Load(c.disk, slug), id)
  {
    var t := Load(c.disk, slug);
    LoadedHides(c, slug, id);
    LoadIsolated(c.disk, slug);
    LoadMirrorsSlots(c.disk, slug);
    SettledHides(t.uploads, id);
    HereIsHidden(t, id);
    forall w: string ensures !Returns(t, w, id) {
      if w != slug {
        ElsewhereStays(c, t, w, id);
      }
    }
  }

  lemma LogoutHides(c: Chat, slugs: set<string>, id: string)
    requires Hidden(c, id)
    ensures Hidden(Logout(c, slugs), id)
  {
    var t := Logout(c, slugs);
    forall w: string ensures !Returns(t, w, id) {
      LogoutReturns(c, slugs, w, id);
      assert !Returns(c, w, id);
    }
  }

  lemma LogoutReturns(c: Chat, slugs: set<string>, w: string, id: string)
    ensures Returns(Logout(c, slugs), w, id) <==> (w == "" || w !in slugs) && Returns(c, w, id)
  {
    var t := Logout(c, slugs);
    assert forall f: Field :: Get(t.disk, Key(f, w)) == if w == "" || w !in slugs then Get(c.disk, Key(f, w)) else None;
    assert StoredSlots(t.disk, w) == if w == "" || w !in slugs then StoredSlots(c.disk, w) else map[];
  }

  lemma StagedIsOther(rows: seq<DraftUpload>, minted: set<string>, id: string)
    requires IdSet(rows) !! minted && id in minted
    ensures !Tracks(rows, id)
  {
    forall i | 0 <= i < |rows| ensures rows[i].clientUploadId != id {
      assert rows[i] in rows && rows[i].clientUploadId in IdSet(rows);
    }
  }

  lemma KeptIsOther(us: seq<DraftUpload>, unreferenced: set<Attachment>, id: string)
    requires !Tracks(us, id)
    ensures !Tracks(Referenced(us, unreferenced), id)
  {
    var r := Referenced(us, unreferenced);
    forall i | 0 <= i < |r| ensures r[i].clientUploadId != id {
      assert r[i] in us;
    }
  }

  lemma SettledElsewhere(c: Chat, r: Request, o: Outcome, id: string)
    requires Hidden(c, id)
    ensures Hidden(OnSettled(c, r, o), id)
  {
    if Tracks(c.Slot(r.session), r.id) {
      match o
      case Delivered(a) => ActionHides(c, SettleInputDraftUpload(r.session, r.id, a), id);
      case FailedWith(_) => ActionHides(c, RemoveInputDraftUpload(r.session, r.id), id);
    }
  }

  lemma ContinueHides(s: System, c: nat, id: string)
    requires Enabled(s, Continue(c)) && Hidden(s.chat, id)
    ensures Hidden(Take(s, Continue(c)).chat, id)
  {
    var r := s.requests[c];
    var outcomes := Outcomes(r.phase, c in s.coord.aborted, NoThrow);
    if outcomes != [] {
      SettledElsewhere(s.chat, r, outcomes[0], id);
    }
  }

  lemma SlotHides(s: System, k: StepKind, id: string)
    requires (k.Prune? || k.Stage?) && Enabled(s, k) && Hidden(s.chat, id) && id in s.minted
    ensures Hidden(Take(s, k).chat, id)
  {
    if k.Prune? {
      var us := s.chat.Slot(k.session);
      KeptIsOther(us, k.unreferenced, id);
      ActionHides(s.chat, SetInputDraftAttachments(k.session, Referenced(us, k.unreferenced)), id);
    } else {
      var rows := StagedUploads(k.attachments);
      StagedIsOther(rows, s.minted, id);
      ActionHides(s.chat, SetInputDraftAttachments(k.session, rows), id);
    }
  }

  lemma ChatHides(s: System, k: StepKind, id: string)
    requires k.Other? || k.Switch? || k.Restart? || k.LogOutOf?
    requires Enabled(s, k) && Hidden(s.chat, id)
    ensures Hidden(Take(s, k).chat, id)
  {
    match k
    case Other(a) => ActionHides(s.chat, a, id);
    case Switch(slug) => LoadHides(s.chat, slug, id);
    case Restart(slug) => LoadHides(s.chat, slug, id);
    case LogOutOf(slugs) => LogoutHides(s.chat, slugs, id);
  }

  lemma UploadHides(s: System, k: StepKind, id: string)
    requires (k.Pick? || k.Dismiss?) && Enabled(s, k) && Hidden(s.chat, id) && id in s.minted
    ensures Hidden(Take(s, k).chat, id)
  {
    if k.Pick? {
      var placeholder := Pending(k.id, k.filename, k.size, k.contentType, Uploading, None);
      ActionHides(s.chat, AddInputDraftUpload(k.session, placeholder), id);
    } else {
      ActionHides(s.chat, RemoveInputDraftUpload(k.session, k.id), id);
    }
  }

  /** A picked upload that is hidden is not brought back by any step. */
  lemma TakeHides(s: System, k: StepKind, id: string)
    requires Enabled(s, k) && Hidden(s.chat, id) && id in s.minted
    ensures Hidden(Take(s, k).chat, id) && id in Take(s, k).minted
  {
    match k
    case Pick(_, _, _, _, _) => UploadHides(s, k, id);
    case Dismiss(_, _) => UploadHides(s, k, id);
    case Continue(c) => ContinueHides(s, c, id);
    case Prune(_, _) => SlotHides(s, k, id);
    case Stage(_, _) => SlotHides(s, k, id);
    case Other(_) => ChatHides(s, k, id);
    case Switch(_) => ChatHides(s, k, id);
    case Restart(_) => ChatHides(s, k, id);
    case LogOutOf(_) => ChatHides(s, k, id);
    case _ =>
  }

  lemma {:induction false} RunHides(s: System, ks: seq<StepKind>, id: string)
    requires Enables(s, ks) && Hidden(s.chat, id) && id in s.minted
    ensures Hidden(TakeAll(s, ks).chat, id)
    decreases |ks|
  {
    if ks != [] {
      TakeHides(s, ks[0], id);
      RunHides(Take(s, ks[0]), ks[1..], id);
    }
  }

  // ----- what is not hidden can be shown

  ghost predicate UnseenAfter(s: System, ks: seq<StepKind>, id: string) {
    Enables(s, ks) ==> NoSlotTracks(TakeAll(s, ks).chat.uploads, id)
  }

  /** Reading a workspace shows its readable slots as it now is. */
  lemma LoadShows(c: Chat, w: string, k: string, id: string)
    requires k in StoredSlots(c.disk, w) && Tracks(StoredSlots(c.disk, w)[k], id)
    requires !IsLegacy(k)
             || (NEW_SESSION !in StoredSlots(c.disk, w) && k == LegacySlot(TextOf(Get(c.disk, Key(AgentField, w)))))
    ensures !NoSlotTracks(Load(c.disk, w).uploads, id)
  {
    var m := LoadSlots(c.disk, w);
    var shown := if IsLegacy(k) then NEW_SESSION else k;
    assert shown in m && m[shown] == StoredSlots(c.disk, w)[k];
  }

  lemma RestartShows(s: System, w: string, k: string, id: string)
    requires k in StoredSlots(s.chat.disk, w) && Tracks(StoredSlots(s.chat.disk, w)[k], id)
    requires !IsLegacy(k)
             || (NEW_SESSION !in StoredSlots(s.chat.disk, w)
                 && k == LegacySlot(TextOf(Get(s.chat.disk, Key(AgentField, w)))))
    ensures !UnseenAfter(s, [Restart(w)], id)
  {
    LoadShows(s.chat, w, k, id);
    assert Enables(Take(s, Restart(w)), []);
    assert TakeAll(s, [Restart(w)]) == Take(s, Restart(w));
  }

  /** In the workspace now shown, the agent whose legacy slot it is can be selected first. */
  lemma ChosenShows(s: System, k: string, id: string)
    requires k in StoredSlots(s.chat.disk, s.chat.slug) && Tracks(StoredSlots(s.chat.disk, s.chat.slug)[k], id)
    requires IsLegacy(k) && NEW_SESSION !in StoredSlots(s.chat.disk, s.chat.slug)
    ensures !UnseenAfter(s, [Other(SetSelectedAgentId(k[|LEGACY_PREFIX|..])), Restart(s.chat.slug)], id)
  {
    var choose, w := Other(SetSelectedAgentId(k[|LEGACY_PREFIX|..])), s.chat.slug;
    var t := Take(s, choose);
    assert k == LegacySlot(Some(k[|LEGACY_PREFIX|..]));
    assert StoredSlots(t.chat.disk, w) == StoredSlots(s.chat.disk, w);
    RestartShows(t, w, k, id);
    assert [choose, Restart(w)][1..] == [Restart(w)];
  }

  /** A picked upload is never shown again, whatever happens, exactly when it is hidden now. */
  lemma HiddenExactly(s: System, id: string)
    requires id in s.minted
    ensures Hidden(s.chat, id) <==> forall ks :: UnseenAfter(s, ks, id)
  {
    if Hidden(s.chat, id) {
      forall ks ensures UnseenAfter(s, ks, id) {
        if Enables(s, ks) {
          RunHides(s, ks, id);
        }
      }
    } else if !NoSlotTracks(s.chat.uploads, id) {
      assert !UnseenAfter(s, [], id);
    } else {
      var w: string :| Returns(s.chat, w, id);
      var k :| k in StoredSlots(s.chat.disk, w) && Tracks(StoredSlots(s.chat.disk, w)[k], id) && Readable(s.chat, w, k);
      if IsLegacy(k) && w == s.chat.slug {
        ChosenShows(s, k, id);
      } else {
        RestartShows(s, w, k, id);
      }
    }
  }

  // ----- logout

  /** No workspace that the logout does not list can show the upload again. */
  ghost predicate OnlyInListed(chat: Chat, slugs: set<string>, id: string) {
    forall w: string :: w == "" || w !in slugs ==> !Returns(chat, w, id)
  }

  /** An upload picked before a logout is never shown after it, in any run, exactly when no unlisted workspace has it
      in a slot that a load shows: under a key of its own, or under a legacy key that can still be adopted. */
  lemma NoUploadOutlivesLogoutExactly(s: System, slugs: set<string>, id: string)
    requires id in s.minted
    ensures var t := Take(s, LogOutOf(slugs));
            OnlyInListed(s.chat, slugs, id) <==> forall ks :: UnseenAfter(t, ks, id)
  {
    var t := Take(s, LogOutOf(slugs));
    forall w: string
      ensures Returns(t.chat, w, id) <==> (w == "" || w !in slugs) && Returns(s.chat, w, id)
    {
      LogoutReturns(s.chat, slugs, w, id);
    }
    HiddenExactly(t, id);
  }
}
