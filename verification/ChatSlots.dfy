/** Folding the per-agent new-chat slots of older builds into the single new-chat slot. */
module ChatSlots {
  import opened Basics
  import opened DraftUploads
  import opened ChatStorage

  const NEW_SESSION := "__new__"
  const LEGACY_PREFIX := "__new__:"

  predicate IsLegacy(key: string) {
    LEGACY_PREFIX <= key
  }

  predicate HasLegacy<T>(slots: map<string, T>) {
    exists k :: k in slots && IsLegacy(k)
  }

  function LegacySlot(agent: Option<string>): string {
    LEGACY_PREFIX + agent.GetOr("")
  }

  function Adopt<T>(slots: map<string, T>, agent: Option<string>): map<string, T> {
    if NEW_SESSION !in slots && LegacySlot(agent) in slots
    then slots[NEW_SESSION := slots[LegacySlot(agent)]]
    else slots
  }

  function Migrate<T>(slots: map<string, T>, agent: Option<string>): map<string, T> {
    var next := Adopt(slots, agent);
    map k | k in next && !IsLegacy(k) :: next[k]
  }

  method MigrateLegacyNewChatSlots<T>(slots: map<string, T>, agent: Option<string>)
    returns (next: map<string, T>, changed: bool)
    ensures next == Migrate(slots, agent)
    ensures changed == HasLegacy(slots)
  {
    var legacyKeys := set k | k in slots && IsLegacy(k);
    if legacyKeys == {} {
      assert forall k :: k in slots ==> k !in legacyKeys;
      return slots, false;
    }
    assert HasLegacy(slots) by {
      var k :| k in legacyKeys;
      assert k in slots && IsLegacy(k);
    }
    next := slots;
    var adopted := if LegacySlot(agent) in next then Some(next[LegacySlot(agent)]) else None;
    if NEW_SESSION !in next && adopted.Some? {
      next := next[NEW_SESSION := adopted.value];
    }
    ghost var adoptedSlots := next;
    assert forall k :: k in next && IsLegacy(k) ==> k in legacyKeys;
    var rest := legacyKeys;
    while rest != {}
      invariant rest <= legacyKeys
      invariant forall k :: k in next <==> k in adoptedSlots && k !in legacyKeys - rest
      invariant forall k :: k in next ==> next[k] == adoptedSlots[k]
    {
      var key :| key in rest;
      next := next - {key};
      rest := rest - {key};
    }
    MapsEqual(next, Migrate(slots, agent));
    changed := true;
  }

  // ----- properties

  /** The whole effect: legacy slots go, the unified slot is never overwritten, every other slot stays. */
  lemma MigrationEffect<T>(slots: map<string, T>, agent: Option<string>)
    ensures !HasLegacy(Migrate(slots, agent))
    ensures forall k :: k != NEW_SESSION && !IsLegacy(k) ==>
              (k in Migrate(slots, agent) <==> k in slots)
              && (k in slots ==> Migrate(slots, agent)[k] == slots[k])
    ensures NEW_SESSION in slots ==>
              NEW_SESSION in Migrate(slots, agent) && Migrate(slots, agent)[NEW_SESSION] == slots[NEW_SESSION]
    ensures NEW_SESSION !in slots ==>
              (NEW_SESSION in Migrate(slots, agent) <==> LegacySlot(agent) in slots)
              && (LegacySlot(agent) in slots ==> Migrate(slots, agent)[NEW_SESSION] == slots[LegacySlot(agent)])
    ensures !HasLegacy(slots) ==> Migrate(slots, agent) == slots
  {
    assert !IsLegacy(NEW_SESSION);
    assert IsLegacy(LegacySlot(agent));
    if !HasLegacy(slots) {
      MapsEqual(Migrate(slots, agent), slots);
    }
  }

  /** A second migration, whatever agent is selected by then, changes nothing. */
  lemma MigrationIdempotent<T>(slots: map<string, T>, agent: Option<string>, later: Option<string>)
    ensures Migrate(Migrate(slots, agent), later) == Migrate(slots, agent)
  {
    MigrationEffect(slots, agent);
    MigrationEffect(Migrate(slots, agent), later);
  }

  /** Where the unified slot's content comes from. */
  datatype Source = Absent | Unified | FromAgent(agent: string)

  function SourceOf<T>(slots: map<string, T>, agent: Option<string>): Source {
    if NEW_SESSION in slots then Unified
    else if LegacySlot(agent) in slots then FromAgent(agent.GetOr(""))
    else Absent
  }

  // ----- loading both maps from storage

  function LoadDrafts(d: Disk, slug: string): Drafts {
    Migrate(DraftsOf(Get(d, Key(DraftsField, slug))), TextOf(Get(d, Key(AgentField, slug))))
  }

  function LoadSlots(d: Disk, slug: string): Slots {
    Migrate(SlotsOf(Get(d, Key(AttachmentsField, slug))), TextOf(Get(d, Key(AgentField, slug))))
  }

  /** Storage after only the first of the two migration writes. */
  function MigratedDrafts(d: Disk, slug: string): Disk {
    if HasLegacy(DraftsOf(Get(d, Key(DraftsField, slug))))
    then Put(d, Key(DraftsField, slug), DraftsBlob(LoadDrafts(d, slug)))
    else d
  }

  function MigratedDisk(d: Disk, slug: string): Disk {
    if HasLegacy(SlotsOf(Get(d, Key(AttachmentsField, slug))))
    then Put(MigratedDrafts(d, slug), Key(AttachmentsField, slug), SlotsBlob(LoadSlots(d, slug)))
    else MigratedDrafts(d, slug)
  }

  lemma PruneOfMigrate(m: Drafts, agent: Option<string>)
    ensures Migrate(PruneDrafts(Migrate(m, agent)), agent) == PruneDrafts(Migrate(m, agent))
  {
    MigrationEffect(m, agent);
    var p := PruneDrafts(Migrate(m, agent));
    assert !HasLegacy(p);
    MigrationEffect(p, agent);
  }

  /** A loaded slot map is already settled, so writing it and reading it back is exact. */
  lemma LoadedSlotsSettled(d: Disk, slug: string)
    ensures SettledSlots(LoadSlots(d, slug)) == LoadSlots(d, slug)
    ensures SlotsOf(SlotsBlob(LoadSlots(d, slug))) == LoadSlots(d, slug)
  {
    var raw := SlotsOf(Get(d, Key(AttachmentsField, slug)));
    var m := LoadSlots(d, slug);
    ReadsAreStable(Get(d, Key(AttachmentsField, slug)));
    forall k | k in m
      ensures Settled(m[k]) == m[k] != []
    {
      var from := if k in raw then k else LegacySlot(TextOf(Get(d, Key(AgentField, slug))));
      assert from in raw && m[k] == raw[from];
      assert from in SettledSlots(raw);
    }
    MapsEqual(SettledSlots(m), m);
    SlotsRoundTrip(m);
  }

  lemma PruneIdempotent(m: Drafts)
    ensures PruneDrafts(PruneDrafts(m)) == PruneDrafts(m)
  {
    MapsEqual(PruneDrafts(PruneDrafts(m)), PruneDrafts(m));
  }

  /** The first write can be lost or repeated. */
  lemma DraftsWriteSurvives(d: Disk, slug: string)
    ensures var e := MigratedDrafts(d, slug);
            && PruneDrafts(LoadDrafts(e, slug)) == PruneDrafts(LoadDrafts(d, slug))
            && LoadSlots(e, slug) == LoadSlots(d, slug)
            && Get(e, Key(AttachmentsField, slug)) == Get(d, Key(AttachmentsField, slug))
            && !HasLegacy(DraftsOf(Get(e, Key(DraftsField, slug))))
            && MigratedDrafts(e, slug) == e
  {
    var agent := TextOf(Get(d, Key(AgentField, slug)));
    var drafts := DraftsOf(Get(d, Key(DraftsField, slug)));
    if HasLegacy(drafts) {
      var m := LoadDrafts(d, slug);
      MigrationEffect(drafts, agent);
      PruneOfMigrate(drafts, agent);
      DraftsRoundTrip(m);
      PruneIdempotent(m);
      assert !HasLegacy(PruneDrafts(m));
    }
  }

  /** A slot blob without legacy keys loads as it is, and is not written again. */
  lemma CleanSlotsLoad(d: Disk, slug: string)
    requires !HasLegacy(SlotsOf(Get(d, Key(AttachmentsField, slug))))
    ensures LoadSlots(d, slug) == SlotsOf(Get(d, Key(AttachmentsField, slug)))
    ensures MigratedDisk(d, slug) == MigratedDrafts(d, slug)
  {
    MigrationEffect(SlotsOf(Get(d, Key(AttachmentsField, slug))), TextOf(Get(d, Key(AgentField, slug))));
  }

  lemma WrittenSlots(d: Disk, slug: string, e: Disk)
    requires e == Put(d, Key(AttachmentsField, slug), SlotsBlob(LoadSlots(d, slug)))
    ensures SlotsOf(Get(e, Key(AttachmentsField, slug))) == LoadSlots(d, slug)
    ensures !HasLegacy(LoadSlots(d, slug))
    ensures Get(e, Key(DraftsField, slug)) == Get(d, Key(DraftsField, slug))
    ensures Get(e, Key(AgentField, slug)) == Get(d, Key(AgentField, slug))
  {
    LoadedSlotsSettled(d, slug);
    MigrationEffect(SlotsOf(Get(d, Key(AttachmentsField, slug))), TextOf(Get(d, Key(AgentField, slug))));
  }

  /** The second write can be lost or repeated. */
  lemma SlotsWriteSurvives(d: Disk, slug: string)
    requires !HasLegacy(DraftsOf(Get(d, Key(DraftsField, slug))))
    ensures var e := MigratedDisk(d, slug);
            && LoadDrafts(e, slug) == LoadDrafts(d, slug)
            && LoadSlots(e, slug) == LoadSlots(d, slug)
            && MigratedDisk(e, slug) == e
  {
    var e := MigratedDisk(d, slug);
    if HasLegacy(SlotsOf(Get(d, Key(AttachmentsField, slug)))) {
      WrittenSlots(d, slug, e);
    }
    CleanSlotsLoad(e, slug);
  }

  /** Crash safety: losing the second write, or none, a reload reaches the same drafts and the same uploads. */
  lemma MigrationSurvivesCrash(d: Disk, slug: string)
    ensures LoadSlots(MigratedDrafts(d, slug), slug) == LoadSlots(d, slug)
    ensures LoadSlots(MigratedDisk(d, slug), slug) == LoadSlots(d, slug)
    ensures PruneDrafts(LoadDrafts(MigratedDrafts(d, slug), slug)) == PruneDrafts(LoadDrafts(d, slug))
    ensures PruneDrafts(LoadDrafts(MigratedDisk(d, slug), slug)) == PruneDrafts(LoadDrafts(d, slug))
    ensures MigratedDisk(MigratedDrafts(d, slug), slug) == MigratedDisk(d, slug)
    ensures MigratedDisk(MigratedDisk(d, slug), slug) == MigratedDisk(d, slug)
  {
    var e := MigratedDrafts(d, slug);
    DraftsWriteSurvives(d, slug);
    SlotsWriteSurvives(e, slug);
    assert MigratedDisk(e, slug) == MigratedDisk(d, slug);
  }

  // ----- whose draft ends up in the unified slot

  /** What the unified slot of a loaded map holds, in terms of what was stored. */
  ghost predicate ComesFrom<T>(loaded: map<string, T>, stored: map<string, T>, source: Source) {
    match source
    case Absent => NEW_SESSION !in loaded
    case Unified => NEW_SESSION in stored && NEW_SESSION in loaded && loaded[NEW_SESSION] == stored[NEW_SESSION]
    case FromAgent(a) =>
      && LEGACY_PREFIX + a in stored && NEW_SESSION in loaded
      && loaded[NEW_SESSION] == stored[LEGACY_PREFIX + a]
  }

  /** One map keeps its current draft while the other adopts a legacy one. */
  predicate Mixes<S, T>(kept: map<string, S>, adopting: map<string, T>, agent: Option<string>) {
    NEW_SESSION in kept && NEW_SESSION !in adopting && LegacySlot(agent) in adopting
  }

  /** Text and uploads shown for a new chat come from one and the same draft, whenever both are there, exactly when
      neither map keeps its current draft while the other adopts a legacy one. */
  lemma AdoptionAgreesExactly(d: Disk, slug: string)
    ensures var agent := TextOf(Get(d, Key(AgentField, slug)));
            var drafts, slots := DraftsOf(Get(d, Key(DraftsField, slug))), SlotsOf(Get(d, Key(AttachmentsField, slug)));
            var text, files := SourceOf(drafts, agent), SourceOf(slots, agent);
            && ComesFrom(LoadDrafts(d, slug), drafts, text)
            && ComesFrom(LoadSlots(d, slug), slots, files)
            && (NEW_SESSION in LoadDrafts(d, slug) && NEW_SESSION in LoadSlots(d, slug) ==>
                  (text == files <==> !Mixes(drafts, slots, agent) && !Mixes(slots, drafts, agent)))
  {
    MigrationEffect(DraftsOf(Get(d, Key(DraftsField, slug))), TextOf(Get(d, Key(AgentField, slug))));
    MigrationEffect(SlotsOf(Get(d, Key(AttachmentsField, slug))), TextOf(Get(d, Key(AgentField, slug))));
  }

  /** Storage where it fails: current text, uploads only in the legacy slot of the selected agent. */
  function MixedDisk(slug: string, agent: string, text: string, legacy: seq<DraftUpload>): Disk {
    map[Key(AgentField, slug) := Text(agent),
        Key(DraftsField, slug) := DraftsJson(map[NEW_SESSION := text]),
        Key(AttachmentsField, slug) := UploadsJson(StoredSlots(map[LEGACY_PREFIX + agent := legacy]))]
  }

  lemma MixedSlots(slug: string, agent: string, text: string, legacy: seq<DraftUpload>)
    requires legacy != [] && Settled(legacy) == legacy
    ensures SlotsOf(Get(MixedDisk(slug, agent, text, legacy), Key(AttachmentsField, slug)))
         == map[LEGACY_PREFIX + agent := legacy]
  {
    NormalizeStored(legacy);
    var m := StoredSlots(map[LEGACY_PREFIX + agent := legacy]);
    assert Get(MixedDisk(slug, agent, text, legacy), Key(AttachmentsField, slug)) == Some(UploadsJson(m));
  }

  /** On it the new chat shows the current words with the old agent's files. */
  lemma CurrentTextWithLegacyFiles(slug: string, agent: string, text: string, legacy: seq<DraftUpload>)
    requires legacy != [] && Settled(legacy) == legacy
    ensures var d := MixedDisk(slug, agent, text, legacy);
            && SourceOf(DraftsOf(Get(d, Key(DraftsField, slug))), Some(agent)) == Unified
            && SourceOf(SlotsOf(Get(d, Key(AttachmentsField, slug))), Some(agent)) == FromAgent(agent)
            && NEW_SESSION in LoadDrafts(d, slug) && LoadDrafts(d, slug)[NEW_SESSION] == text
            && NEW_SESSION in LoadSlots(d, slug) && LoadSlots(d, slug)[NEW_SESSION] == legacy
  {
    var d := MixedDisk(slug, agent, text, legacy);
    MixedSlots(slug, agent, text, legacy);
    assert |NEW_SESSION| < |LEGACY_PREFIX + agent|;
    assert Get(d, Key(AgentField, slug)) == Some(Text(agent));
    assert Get(d, Key(DraftsField, slug)) == Some(DraftsJson(map[NEW_SESSION := text]));
    AdoptionAgreesExactly(d, slug);
  }
}
