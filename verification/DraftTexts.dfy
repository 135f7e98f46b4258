/** What a user typed and selected, kept in a plain machine without storage, memory or migration, and the proof that the
    chat store shows the same after any run. */
module DraftTexts {
  import opened Basics
  import opened DraftUploads
  import opened ChatStorage
  import opened ChatSlots
  import opened ChatModel

  // ----- appending

  ghost predicate AllSpace(s: string) {
    forall i :: 0 <= i < |s| ==> IsSpace(s[i])
  }

  /** The old text up to its last visible character, a blank line and the new text; or the new text alone when nothing
      was visible. */
  ghost predicate Continues(was: string, markdown: string, now: string) {
    if AllSpace(was) then now == markdown
    else exists n :: 0 < n <= |was| && !IsSpace(was[n - 1]) && AllSpace(was[n..]) && now == was[..n] + "\n\n" + markdown
  }

  lemma {:induction false} TrimmedEnd(s: string)
    ensures TrimEnd(s) <= s && AllSpace(s[|TrimEnd(s)|..])
    ensures TrimEnd(s) != "" ==> !IsSpace(TrimEnd(s)[|TrimEnd(s)| - 1])
  {
    if s != "" && IsSpace(s[|s| - 1]) {
      var init, n := s[..|s| - 1], |TrimEnd(s)|;
      TrimmedEnd(init);
      forall i | 0 <= i < |s[n..]| ensures IsSpace(s[n..][i]) {
        if i < |init[n..]| {
          assert s[n..][i] == init[n..][i];
        }
      }
    }
  }

  lemma AppendedContinues(was: string, markdown: string)
    ensures Continues(was, markdown, Appended(was, markdown))
  {
    TrimmedEnd(was);
    var n := |TrimEnd(was)|;
    if n == 0 {
      assert was[0..] == was;
    } else {
      assert TrimEnd(was) == was[..n];
      assert !IsSpace(was[n - 1]);
    }
  }

  lemma NoLaterCut(s: string, m: nat, n: nat)
    requires m <= |s| && AllSpace(s[m..])
    requires 0 < n <= |s| && !IsSpace(s[n - 1])
    ensures n <= m
  {
    assert forall i :: m <= i < |s| ==> s[m..][i - m] == s[i];
  }

  lemma OnePlaceToCut(was: string, m: nat, n: nat)
    requires 0 < m <= |was| && !IsSpace(was[m - 1]) && AllSpace(was[m..])
    requires 0 < n <= |was| && !IsSpace(was[n - 1]) && AllSpace(was[n..])
    ensures m == n
  {
    NoLaterCut(was, m, n);
    NoLaterCut(was, n, m);
  }

  /** That leaves no choice. */
  lemma ContinuesExactly(was: string, markdown: string, now: string)
    ensures Continues(was, markdown, now) <==> now == Appended(was, markdown)
  {
    AppendedContinues(was, markdown);
    if Continues(was, markdown, now) && !AllSpace(was) {
      var m :| 0 < m <= |was| && !IsSpace(was[m - 1]) && AllSpace(was[m..]) && now == was[..m] + "\n\n" + markdown;
      var n :| 0 < n <= |was| && !IsSpace(was[n - 1]) && AllSpace(was[n..])
               && Appended(was, markdown) == was[..n] + "\n\n" + markdown;
      OnePlaceToCut(was, m, n);
    }
  }

  // ----- the plain machine

  datatype Place = Place(slug: string, sessionId: string)

  /** Which workspace is shown, the text of every session of every workspace, and what is selected where. */
  datatype Page = Page(slug: string, texts: map<Place, string>, choices: map<Key, string>)
  {
    function Text(slug: string, sessionId: string): string {
      if Place(slug, sessionId) in texts then texts[Place(slug, sessionId)] else ""
    }

    function Choice(f: Field, slug: string): Option<string> {
      if Key(f, slug) in choices then Some(choices[Key(f, slug)]) else None
    }

    function Choose(f: Field, v: Option<string>): Page {
      this.(choices := if v.Some? then choices[Key(f, slug) := v.value] else choices - {Key(f, slug)})
    }

    function Write(sessionId: string, text: string): Page {
      this.(texts := texts[Place(slug, sessionId) := text])
    }
  }

  ghost predicate Edits(p: Page, a: Action, q: Page) {
    match a
    case SetInputDraft(sid, draft) => q == p.Write(sid, draft)
    case AppendToInputDraft(sid, markdown) =>
      exists text :: Continues(p.Text(p.slug, sid), markdown, text) && q == p.Write(sid, text)
    case ClearInputDraft(sid) => q == p.Write(sid, "")
    case SetSelectedAgentId(agent) => q == p.Choose(AgentField, Some(agent))
    case SetActiveSession(session) => q == p.Choose(SessionField, if session == Some("") then None else session)
    case SetSelectedProjectId(project) => q == p.Choose(ProjectField, if project == Some("") then None else project)
    case _ => q == p
  }

  /** One event: an edit of the workspace shown, showing another one, or forgetting the workspaces that a logout
      lists. */
  ghost predicate Turns(p: Page, e: Event, q: Page) {
    match e
    case Act(a) => Edits(p, a, q)
    case SwitchTo(slug) => q == p.(slug := slug)
    case Reload(slug) => q == p.(slug := slug)
    case LogOut(slugs) =>
      q == Page(p.slug, map k | k in p.texts && (k.slug == "" || k.slug !in slugs) :: p.texts[k],
                map k | k in p.choices && (k.slug == "" || k.slug !in slugs) :: p.choices[k])
  }

  // ----- the store does the same

  function TextIn(m: Drafts, sid: string): string {
    if sid in m then m[sid] else ""
  }

  function StoredDrafts(d: Disk, w: string): Drafts {
    DraftsOf(Get(d, Key(DraftsField, w)))
  }

  predicate Selects(f: Field) {
    f == AgentField || f == SessionField || f == ProjectField
  }

  /** Storage holds the texts and the selections of one workspace of the page; no text is under a legacy key. */
  ghost predicate StoresAt(d: Disk, p: Page, w: string) {
    && (forall sid: string :: TextIn(StoredDrafts(d, w), sid) == p.Text(w, sid))
    && (forall f: Field :: Selects(f) ==> TextOf(Get(d, Key(f, w))) == p.Choice(f, w))
    && !HasLegacy(StoredDrafts(d, w))
  }

  ghost predicate Stores(d: Disk, p: Page) {
    forall w: string :: StoresAt(d, p, w)
  }

  ghost predicate MirrorsTexts(s: Chat) {
    PruneDrafts(StoredDrafts(s.disk, s.slug)) == PruneDrafts(s.drafts)
  }

  ghost predicate Agrees(s: Chat, p: Page) {
    s.slug == p.slug && Stores(s.disk, p) && !HasLegacy(s.drafts)
  }

  lemma PrunedText(m: Drafts, sid: string)
    ensures TextIn(PruneDrafts(m), sid) == TextIn(m, sid)
  {
  }

  lemma MirroredText(s: Chat, sid: string)
    requires MirrorsTexts(s)
    ensures TextIn(StoredDrafts(s.disk, s.slug), sid) == TextIn(s.drafts, sid)
  {
    PrunedText(StoredDrafts(s.disk, s.slug), sid);
    PrunedText(s.drafts, sid);
  }

  /** Memory shows the page. */
  lemma ShowsPage(s: Chat, p: Page, sid: string)
    requires Agrees(s, p) && MirrorsTexts(s)
    ensures TextIn(s.drafts, sid) == p.Text(s.slug, sid)
  {
    MirroredText(s, sid);
    assert StoresAt(s.disk, p, s.slug);
  }

  lemma StepMirrorsTexts(s: Chat, a: Action)
    requires MirrorsTexts(s)
    ensures MirrorsTexts(s.Step(a))
  {
    if !a.SetActiveSession? && !a.SetSelectedAgentId? && !a.SetSelectedProjectId? {
      CommitOnDisk(s, s.Effect(a));
      DraftsRoundTrip(s.Step(a).drafts);
      PruneIdempotent(s.Step(a).drafts);
    }
  }

  /** What an action does to the texts in memory. */
  lemma TextAfter(s: Chat, a: Action, sid: string)
    ensures var now := TextIn(s.Step(a).drafts, sid);
            if a.SetInputDraft? && a.sessionId == sid then now == a.draft
            else if a.AppendToInputDraft? && a.sessionId == sid then
              Continues(TextIn(s.drafts, sid), a.markdown, now)
            else if a.ClearInputDraft? && a.sessionId == sid then now == ""
            else now == TextIn(s.drafts, sid)
  {
    if a.AppendToInputDraft? {
      AppendedContinues(TextIn(s.drafts, sid), a.markdown);
    }
  }

  lemma PageTextAfter(p: Page, a: Action, q: Page, sid: string)
    requires Edits(p, a, q)
    ensures q.slug == p.slug
    ensures var now := q.Text(p.slug, sid);
            if a.SetInputDraft? && a.sessionId == sid then now == a.draft
            else if a.AppendToInputDraft? && a.sessionId == sid then
              Continues(p.Text(p.slug, sid), a.markdown, now)
            else if a.ClearInputDraft? && a.sessionId == sid then now == ""
            else now == p.Text(p.slug, sid)
    ensures forall w: string, x: string :: w != p.slug ==> q.Text(w, x) == p.Text(w, x)
  {
  }

  lemma EditKeepsTextHere(s: Chat, p: Page, a: Action, q: Page, sid: string)
    requires Agrees(s, p) && MirrorsTexts(s) && Edits(p, a, q)
    ensures TextIn(StoredDrafts(s.Step(a).disk, s.slug), sid) == q.Text(s.slug, sid)
  {
    StepIsolated(s, a);
    StepMirrorsTexts(s, a);
    MirroredText(s.Step(a), sid);
    ShowsPage(s, p, sid);
    TextAfter(s, a, sid);
    PageTextAfter(p, a, q, sid);
    if a.AppendToInputDraft? && a.sessionId == sid {
      ContinuesExactly(TextIn(s.drafts, sid), a.markdown, TextIn(s.Step(a).drafts, sid));
      ContinuesExactly(TextIn(s.drafts, sid), a.markdown, q.Text(p.slug, sid));
    }
  }

  lemma EditKeepsTexts(s: Chat, p: Page, a: Action, q: Page, w: string, sid: string)
    requires Agrees(s, p) && MirrorsTexts(s) && Edits(p, a, q)
    ensures TextIn(StoredDrafts(s.Step(a).disk, w), sid) == q.Text(w, sid)
  {
    assert StoresAt(s.disk, p, w);
    if w == s.slug {
      EditKeepsTextHere(s, p, a, q, sid);
    } else {
      StepIsolated(s, a);
      PageTextAfter(p, a, q, sid);
      assert Get(s.Step(a).disk, Key(DraftsField, w)) == Get(s.disk, Key(DraftsField, w));
    }
  }

  /** What an action does to the stored selections. */
  lemma ChoiceAfter(s: Chat, a: Action, w: string, f: Field)
    requires Selects(f)
    ensures TextOf(Get(s.Step(a).disk, Key(f, w)))
         == if a.SetSelectedAgentId? && w == s.slug && f == AgentField then Some(a.agent)
            else if a.SetActiveSession? && w == s.slug && f == SessionField
            then (if a.session == Some("") then None else a.session)
            else if a.SetSelectedProjectId? && w == s.slug && f == ProjectField
            then (if a.project == Some("") then None else a.project)
            else TextOf(Get(s.disk, Key(f, w)))
  {
    if !a.SetActiveSession? && !a.SetSelectedAgentId? && !a.SetSelectedProjectId? {
      CommitIsolated(s, s.Effect(a));
      CommitFrame(s, s.Effect(a), f);
    }
  }

  lemma EditKeepsChoices(s: Chat, p: Page, a: Action, q: Page, w: string, f: Field)
    requires Agrees(s, p) && Edits(p, a, q) && Selects(f)
    ensures TextOf(Get(s.Step(a).disk, Key(f, w))) == q.Choice(f, w)
  {
    assert StoresAt(s.disk, p, w);
    ChoiceAfter(s, a, w, f);
  }

  lemma NoLegacyText(s: Chat, a: Action)
    requires !HasLegacy(s.drafts) && !NamesLegacySlot(a)
    ensures !HasLegacy(s.Step(a).drafts)
  {
    forall k | k in s.Step(a).drafts ensures !IsLegacy(k) {
      if k !in s.drafts {
        DraftKeys(s, a, k);
      }
    }
  }

  lemma NoLegacyStored(s: Chat, a: Action, w: string)
    requires MirrorsTexts(s) && !HasLegacy(s.drafts) && !NamesLegacySlot(a) && !HasLegacy(StoredDrafts(s.disk, w))
    ensures !HasLegacy(StoredDrafts(s.Step(a).disk, w))
  {
    StepIsolated(s, a);
    if w != s.slug {
      assert Get(s.Step(a).disk, Key(DraftsField, w)) == Get(s.disk, Key(DraftsField, w));
    } else if !a.SetActiveSession? && !a.SetSelectedAgentId? && !a.SetSelectedProjectId? {
      NoLegacyText(s, a);
      CommitOnDisk(s, s.Effect(a));
      DraftsRoundTrip(s.Step(a).drafts);
    }
  }

  lemma EditStoresAt(s: Chat, p: Page, a: Action, q: Page, w: string)
    requires Agrees(s, p) && MirrorsTexts(s) && !NamesLegacySlot(a) && Edits(p, a, q)
    ensures StoresAt(s.Step(a).disk, q, w)
  {
    assert StoresAt(s.disk, p, w);
    forall sid: string ensures TextIn(StoredDrafts(s.Step(a).disk, w), sid) == q.Text(w, sid) {
      EditKeepsTexts(s, p, a, q, w, sid);
    }
    forall f: Field | Selects(f) ensures TextOf(Get(s.Step(a).disk, Key(f, w))) == q.Choice(f, w) {
      EditKeepsChoices(s, p, a, q, w, f);
    }
    NoLegacyStored(s, a, w);
  }

  lemma EditAgrees(s: Chat, p: Page, a: Action, q: Page)
    requires Agrees(s, p) && MirrorsTexts(s) && !NamesLegacySlot(a) && Edits(p, a, q)
    ensures Agrees(s.Step(a), q)
  {
    StepIsolated(s, a);
    NoLegacyText(s, a);
    PageTextAfter(p, a, q, "");
    forall w: string ensures StoresAt(s.Step(a).disk, q, w) {
      EditStoresAt(s, p, a, q, w);
    }
  }

  /** Reading a workspace without legacy texts writes no text and no selection. */
  lemma LoadKeepsPage(d: Disk, slug: string, w: string)
    requires !HasLegacy(StoredDrafts(d, slug))
    ensures StoredDrafts(Load(d, slug).disk, w) == StoredDrafts(d, w)
    ensures forall f: Field :: Selects(f) ==> Get(Load(d, slug).disk, Key(f, w)) == Get(d, Key(f, w))
    ensures Load(d, slug).drafts == StoredDrafts(d, slug)
  {
    MigrationEffect(StoredDrafts(d, slug), TextOf(Get(d, Key(AgentField, slug))));
    if w != slug {
      LoadIsolated(d, slug);
    }
  }

  lemma LoadStoresAt(d: Disk, p: Page, slug: string, w: string)
    requires Stores(d, p)
    ensures StoresAt(Load(d, slug).disk, p.(slug := slug), w)
  {
    assert StoresAt(d, p, w) && StoresAt(d, p, slug);
    LoadKeepsPage(d, slug, w);
  }

  lemma LoadAgrees(s: Chat, p: Page, slug: string)
    requires Stores(s.disk, p)
    ensures Agrees(Load(s.disk, slug), p.(slug := slug))
  {
    assert StoresAt(s.disk, p, slug);
    LoadKeepsPage(s.disk, slug, slug);
    forall w: string ensures StoresAt(Load(s.disk, slug).disk, p.(slug := slug), w) {
      LoadStoresAt(s.disk, p, slug, w);
    }
  }

  lemma LogoutStoresAt(s: Chat, p: Page, slugs: set<string>, q: Page, w: string)
    requires StoresAt(s.disk, p, w) && Turns(p, LogOut(slugs), q)
    ensures StoresAt(Logout(s, slugs).disk, q, w)
  {
    var d := Logout(s, slugs).disk;
    assert forall f: Field :: Get(d, Key(f, w)) == if w == "" || w !in slugs then Get(s.disk, Key(f, w)) else None;
    assert StoredDrafts(d, w) == if w == "" || w !in slugs then StoredDrafts(s.disk, w) else map[];
  }

  lemma LogoutAgrees(s: Chat, p: Page, slugs: set<string>, q: Page)
    requires Agrees(s, p) && Turns(p, LogOut(slugs), q)
    ensures Agrees(Logout(s, slugs), q)
  {
    forall w: string ensures StoresAt(Logout(s, slugs).disk, q, w) {
      assert StoresAt(s.disk, p, w);
      LogoutStoresAt(s, p, slugs, q, w);
    }
  }

  lemma TurnAgrees(s: Chat, p: Page, e: Event, q: Page)
    requires Agrees(s, p) && Turns(p, e, q)
    requires e.Act? ==> MirrorsTexts(s) && !NamesLegacySlot(e.action)
    ensures Agrees(Next(s, e), q)
  {
    match e
    case Act(a) => EditAgrees(s, p, a, q);
    case SwitchTo(slug) => LoadAgrees(s, p, slug);
    case Reload(slug) => LoadAgrees(s, p, slug);
    case LogOut(slugs) => LogoutAgrees(s, p, slugs, q);
  }

  // ----- whole runs

  ghost predicate TextsCovered(s: Chat, e: Event) {
    e.LogOut? ==> Listed(s, e.slugs) || PruneDrafts(s.drafts) == map[]
  }

  predicate ReadsAgain(s: Chat, e: Event) {
    e.Reload? || (e.SwitchTo? && e.slug != s.slug)
  }

  /** Every logout lists the current workspace, finds no text there, or is followed at once by leaving it. */
  ghost predicate TextsSettled(s: Chat, events: seq<Event>)
    decreases |events|
  {
    events == []
    || ((TextsCovered(s, events[0]) || (|events| > 1 && ReadsAgain(s, events[1])))
        && TextsSettled(Next(s, events[0]), events[1..]))
  }

  lemma NextMirrorsTexts(s: Chat, e: Event)
    requires ReadsAgain(s, e) || (MirrorsTexts(s) && TextsCovered(s, e))
    ensures MirrorsTexts(Next(s, e))
  {
    match e
    case Act(a) => StepMirrorsTexts(s, a);
    case SwitchTo(slug) => LoadMirrors(s.disk, slug);
    case Reload(slug) => LoadMirrors(s.disk, slug);
    case LogOut(slugs) =>
      if Listed(s, slugs) {
        assert Logout(s, slugs).OnDisk(DraftsField) == None;
      } else {
        assert Logout(s, slugs).OnDisk(DraftsField) == s.OnDisk(DraftsField);
      }
  }

  ghost predicate TurnsAll(pages: seq<Page>, events: seq<Event>) {
    |pages| == |events| + 1 && forall i :: 0 <= i < |events| ==> Turns(pages[i], events[i], pages[i + 1])
  }

  lemma TurnsTail(pages: seq<Page>, events: seq<Event>)
    requires TurnsAll(pages, events) && events != []
    ensures TurnsAll(pages[1..], events[1..]) && Turns(pages[0], events[0], pages[1])
  {
    assert Turns(pages[0], events[0], pages[0 + 1]);
    forall i | 0 <= i < |events[1..]| ensures Turns(pages[1..][i], events[1..][i], pages[1..][i + 1]) {
      assert Turns(pages[i + 1], events[i + 1], pages[i + 1 + 1]);
    }
  }

  /** The store refines the plain machine: after any run of edits, selections, switches, reloads and logouts, storage
      holds exactly the page's texts and selections, for every session of every workspace, and memory shows its
      texts. */
  lemma {:induction false} RunShowsPage(s: Chat, pages: seq<Page>, events: seq<Event>)
    requires TurnsAll(pages, events) && Agrees(s, pages[0])
    requires NamesNoLegacySlot(events) && TextsSettled(s, events)
    requires MirrorsTexts(s) || (events != [] && ReadsAgain(s, events[0]))
    ensures var t, p := Run(s, events), pages[|pages| - 1];
            Agrees(t, p) && forall sid: string :: TextIn(t.drafts, sid) == p.Text(t.slug, sid)
    decreases |events|
  {
    if events == [] {
      forall sid: string ensures TextIn(s.drafts, sid) == pages[0].Text(s.slug, sid) {
        ShowsPage(s, pages[0], sid);
      }
    } else {
      var e := events[0];
      assert e in events && forall x :: x in events[1..] ==> x in events;
      TurnsTail(pages, events);
      TurnAgrees(s, pages[0], e, pages[1]);
      if ReadsAgain(s, e) || TextsCovered(s, e) {
        NextMirrorsTexts(s, e);
      }
      RunShowsPage(Next(s, e), pages[1..], events[1..]);
      assert pages[1..][|pages[1..]| - 1] == pages[|pages| - 1];
    }
  }

  lemma FreshPage(slug: string)
    ensures Agrees(Load(map[], slug), Page(slug, map[], map[])) && MirrorsTexts(Load(map[], slug))
  {
    var d: Disk := map[];
    forall w: string ensures StoresAt(d, Page(slug, map[], map[]), w) {
      assert StoredDrafts(d, w) == map[];
    }
    LoadMirrors(d, slug);
    LoadKeepsPage(d, slug, slug);
    assert Load(d, slug).disk == d;
  }
}
