/** Durable draft restores: the composer's hand-off, the persisted ledger, and the idempotent consume,
    against a server and a query cache that answer late, in any order, or not at all. */
module RestoreProtocol {
  import opened Basics
  import opened ChatStorage
  import opened ChatModel

  /** One client of workspace `home`. `cache` is the fetched restore list, `responses` the fetches on their way
      back, `wire` the consumes on their way out, `executed` those the server has carried out, `awaiting` those
      this page still listens for, `applied` every hand-off to a composer in order, `created` every row ever made. */
  datatype System = System(home: string, chat: Chat, server: set<string>, cache: Option<set<string>>,
                           responses: seq<set<string>>, offer: Option<string>,
                           wire: set<string>, executed: set<string>, awaiting: set<string>,
                           applied: seq<string>, created: set<string>)

  datatype StepKind =
    | ServerCreates(id: string)
    | FetchStarts
    | FetchArrives(i: nat)
    | CacheDropped
    | Offer(id: string)
    | Release
    | Apply
    | Reconcile(id: string)
    | ConsumeExecutes(id: string)
    | ConsumeLost(id: string)
    | ConsumeConfirmed(id: string)
    | Other(action: Action)
    | Switch(slug: string)
    | Restart(slug: string)
    | SignOut(slugs: set<string>)

  function Cached(s: System): set<string> {
    s.cache.GetOr({})
  }

  function LedgerOf(s: System): seq<string> {
    IdsOf(Get(s.chat.disk, Key(AppliedField, s.home)))
  }

  function DropAt<T>(s: seq<T>, i: nat): seq<T>
    requires i < |s|
  {
    s[..i] + s[i + 1..]
  }

  ghost predicate Enabled(s: System, k: StepKind) {
    match k
    case ServerCreates(id) => id !in s.created
    case FetchArrives(i) => i < |s.responses|
    case Offer(id) => s.chat.slug == s.home && s.offer.None? && id in Cached(s) && id !in s.chat.applied
    case Apply => s.chat.slug == s.home && s.offer.Some?
    case Reconcile(id) => s.chat.slug == s.home && id in Cached(s) && id in s.chat.applied && id !in s.awaiting
    case ConsumeExecutes(id) => id in s.wire
    case ConsumeLost(id) => id in s.awaiting
    case ConsumeConfirmed(id) => id in s.awaiting && id in s.executed
    case Other(a) => !a.MarkDraftRestoreApplied? && !a.ForgetDraftRestoreApplied?
    case _ => true
  }

  /** The consume mutation: drop the row from the cached list at once, then send the request. */
  function Consume(s: System, id: string): System {
    s.(cache := if s.cache.Some? then Some(s.cache.value - {id}) else None,
       wire := s.wire + {id}, awaiting := s.awaiting + {id}, executed := s.executed - {id})
  }

  ghost function Take(s: System, k: StepKind): System
    requires Enabled(s, k)
  {
    match k
    case ServerCreates(id) => s.(server := s.server + {id}, created := s.created + {id})
    case FetchStarts => s.(responses := s.responses + [s.server])
    case FetchArrives(i) => s.(cache := Some(s.responses[i]), responses := DropAt(s.responses, i))
    case CacheDropped => s.(cache := None)
    case Offer(id) => s.(offer := Some(id))
    case Release => s.(offer := None)
    case Apply =>
      var id := s.offer.value;
      Consume(s.(chat := s.chat.Step(MarkDraftRestoreApplied(id)), applied := s.applied + [id], offer := None), id)
    case Reconcile(id) => Consume(s, id)
    case ConsumeExecutes(id) => s.(wire := s.wire - {id}, executed := s.executed + {id}, server := s.server - {id})
    case ConsumeLost(id) => s.(awaiting := s.awaiting - {id})
    case ConsumeConfirmed(id) =>
      s.(awaiting := s.awaiting - {id}, chat := s.chat.Step(ForgetDraftRestoreApplied(id)))
    case Other(a) => s.(chat := s.chat.Step(a))
    case Switch(slug) => s.(chat := Next(s.chat, SwitchTo(slug)), offer := None)
    case Restart(slug) =>
      s.(chat := Load(s.chat.disk, slug), cache := None, responses := [], offer := None, awaiting := {})
    case SignOut(slugs) =>
      s.(chat := SignedOut(s.chat, slugs), cache := None, responses := [], offer := None, awaiting := {})
  }

  ghost predicate Enables(s: System, ks: seq<StepKind>)
    decreases |ks|
  {
    ks == [] || (Enabled(s, ks[0]) && Enables(Take(s, ks[0]), ks[1..]))
  }

  ghost function TakeAll(s: System, ks: seq<StepKind>): System
    requires Enables(s, ks)
    decreases |ks|
  {
    if ks == [] then s else TakeAll(Take(s, ks[0]), ks[1..])
  }

  // ----- the ledger

  /** A stale answer is on its way, or already in the cached list. */
  ghost predicate Lingers(s: System, id: string) {
    id in Cached(s) || exists r :: r in s.responses && id in r
  }

  /** Facts that hold whatever happens: rows come from the server, and only applied rows are consumed. */
  ghost predicate Sound(s: System) {
    && s.server <= s.created
    && (forall id :: Lingers(s, id) ==> id in s.created)
    && (forall id :: id in s.applied ==> id in s.created)
    && (forall id :: id in s.wire || id in s.executed || id in s.awaiting ==> id in s.applied)
    && (forall id :: id in s.awaiting ==> id in s.wire || id in s.executed)
    && s.executed !! s.server
  }

  /** While `home` is shown, memory holds its stored ledger. */
  ghost predicate LedgerInStep(s: System) {
    s.chat.slug == s.home ==> LedgerOf(s) == s.chat.applied
  }

  /** What every step keeps, safe or not. A workspace's slug is never empty. */
  ghost predicate Base(s: System) {
    && s.home != "" && LedgerInStep(s) && Sound(s)
    && (forall id :: id in LedgerOf(s) ==> id in s.applied)
    && (forall id :: id in s.awaiting ==> id in LedgerOf(s))
    && (forall id :: s.offer == Some(id) ==> s.chat.slug == s.home && id in s.created && id !in LedgerOf(s))
  }

  lemma StepKeepsLedger(c: Chat, a: Action)
    requires IdsOf(c.OnDisk(AppliedField)) == c.applied
    ensures IdsOf(c.Step(a).OnDisk(AppliedField)) == c.Step(a).applied
    ensures !a.MarkDraftRestoreApplied? && !a.ForgetDraftRestoreApplied? ==> c.Step(a).applied == c.applied
  {
    if !a.SetActiveSession? && !a.SetSelectedAgentId? && !a.SetSelectedProjectId? {
      CommitOnDisk(c, c.Effect(a));
      IdsRoundTrip(c.Step(a).applied);
    }
  }

  lemma LedgerSteps(s: System, a: Action)
    requires LedgerInStep(s)
    ensures var t := s.(chat := s.chat.Step(a));
            && LedgerInStep(t) && t.chat.slug == s.chat.slug
            && (s.chat.slug != s.home ==> LedgerOf(t) == LedgerOf(s))
            && (!a.MarkDraftRestoreApplied? && !a.ForgetDraftRestoreApplied? ==> LedgerOf(t) == LedgerOf(s))
  {
    StepIsolated(s.chat, a);
    if s.chat.slug == s.home {
      StepKeepsLedger(s.chat, a);
    }
  }

  lemma LedgerLoads(s: System, slug: string)
    ensures var t := s.(chat := Load(s.chat.disk, slug));
            LedgerInStep(t) && LedgerOf(t) == LedgerOf(s)
  {
    LoadIsolated(s.chat.disk, slug);
    LoadKeepsFields(s.chat.disk, slug, AppliedField);
  }

  /** A sign-out clears the ledger of `home` exactly when the workspace list has it. */
  lemma LedgerSignsOut(s: System, slugs: set<string>)
    requires s.home != ""
    ensures var t := s.(chat := SignedOut(s.chat, slugs));
            t.chat.slug == "" && LedgerOf(t) == if s.home in slugs then [] else LedgerOf(s)
  {
    var out := Logout(s.chat, slugs);
    assert Get(out.disk, Key(AppliedField, s.home))
        == if s.home in slugs then None else Get(s.chat.disk, Key(AppliedField, s.home));
    LoadIsolated(out.disk, "");
  }

  lemma LingersAfterFetch(s: System, i: nat, id: string)
    requires i < |s.responses|
    ensures Lingers(Take(s, FetchArrives(i)), id) ==> Lingers(s, id)
  {
    var rest := DropAt(s.responses, i);
    forall r | r in rest ensures r in s.responses {
    }
  }

  /** Where a row can be seen after a step. */
  lemma LingersAfter(s: System, k: StepKind, id: string)
    requires Enabled(s, k) && Lingers(Take(s, k), id)
    ensures Lingers(s, id) || (k.FetchStarts? && id in s.server)
  {
    if k.FetchArrives? {
      LingersAfterFetch(s, k.i, id);
    }
  }

  /** The ledger entries a step adds, and those it takes away. */
  ghost predicate Enters(s: System, k: StepKind, id: string) {
    k.Apply? && s.offer == Some(id)
  }

  ghost predicate Drops(s: System, k: StepKind, id: string) {
    (k == ConsumeConfirmed(id) && s.chat.slug == s.home) || (k.SignOut? && s.home in k.slugs)
  }

  lemma LedgerAfterApply(s: System)
    requires Base(s) && Enabled(s, Apply)
    ensures var t := Take(s, Apply);
            LedgerInStep(t) && forall id :: id in LedgerOf(t) <==> id == s.offer.value || id in LedgerOf(s)
  {
    LedgerSteps(s, MarkDraftRestoreApplied(s.offer.value));
  }

  lemma LedgerAfterConfirm(s: System, x: string)
    requires Base(s) && Enabled(s, ConsumeConfirmed(x))
    ensures var t := Take(s, ConsumeConfirmed(x));
            && LedgerInStep(t)
            && forall id :: id in LedgerOf(t) <==> id in LedgerOf(s) && (id != x || s.chat.slug != s.home)
  {
    LedgerSteps(s, ForgetDraftRestoreApplied(x));
  }

  lemma LedgerAfterSignOut(s: System, slugs: set<string>)
    requires s.home != ""
    ensures var t := Take(s, SignOut(slugs));
            LedgerInStep(t) && LedgerOf(t) == if s.home in slugs then [] else LedgerOf(s)
  {
    LedgerSignsOut(s, slugs);
    SameLedger(s.(chat := SignedOut(s.chat, slugs)), Take(s, SignOut(slugs)));
  }

  lemma SameLedger(s: System, t: System)
    requires s.home == t.home && s.chat == t.chat
    ensures LedgerOf(t) == LedgerOf(s)
  {
  }

  lemma LedgerAfterLoads(s: System, k: StepKind)
    requires LedgerInStep(s) && (k.Switch? || k.Restart?)
    ensures LedgerInStep(Take(s, k)) && LedgerOf(Take(s, k)) == LedgerOf(s)
  {
    LedgerLoads(s, k.slug);
  }

  lemma LedgerAfterOthers(s: System, k: StepKind)
    requires Base(s) && Enabled(s, k)
    requires !k.Apply? && !k.ConsumeConfirmed? && !k.Switch? && !k.Restart? && !k.SignOut?
    ensures LedgerInStep(Take(s, k)) && LedgerOf(Take(s, k)) == LedgerOf(s)
  {
    if k.Other? {
      LedgerSteps(s, k.action);
    }
  }

  /** What a step does to the stored ledger. */
  lemma LedgerAfter(s: System, k: StepKind)
    requires Base(s) && Enabled(s, k)
    ensures LedgerInStep(Take(s, k))
    ensures forall id :: id in LedgerOf(Take(s, k)) <==> Enters(s, k, id) || (id in LedgerOf(s) && !Drops(s, k, id))
  {
    if k.Apply? {
      LedgerAfterApply(s);
    } else if k.ConsumeConfirmed? {
      LedgerAfterConfirm(s, k.id);
    } else if k.SignOut? {
      LedgerAfterSignOut(s, k.slugs);
    } else if k.Switch? || k.Restart? {
      LedgerAfterLoads(s, k);
    } else {
      LedgerAfterOthers(s, k);
    }
  }

  lemma AppliedAfter(s: System, k: StepKind)
    requires Enabled(s, k)
    ensures Take(s, k).applied == (if k.Apply? then s.applied + [s.offer.value] else s.applied)
    ensures Take(s, k).home == s.home
  {
  }

  lemma AwaitingAfter(s: System, k: StepKind, id: string)
    requires Base(s) && Enabled(s, k) && id in Take(s, k).awaiting
    ensures Enters(s, k, id) || (id in LedgerOf(s) && !Drops(s, k, id))
  {
  }

  lemma OfferAfter(s: System, k: StepKind, id: string)
    requires Base(s) && Enabled(s, k) && Take(s, k).offer == Some(id)
    ensures Take(s, k).chat.slug == s.home && id in s.created && id !in LedgerOf(s) && !k.Apply?
  {
    if k.Other? {
      StepIsolated(s.chat, k.action);
    } else if k.ConsumeConfirmed? {
      StepIsolated(s.chat, ForgetDraftRestoreApplied(k.id));
    }
  }

  lemma SoundAfter(s: System, k: StepKind)
    requires Base(s) && Enabled(s, k)
    ensures Sound(Take(s, k))
  {
    var t := Take(s, k);
    forall id | Lingers(t, id) ensures id in t.created {
      LingersAfter(s, k, id);
    }
  }

  /** Every step of every run keeps the base facts, whatever it confirms and whenever it signs out. */
  lemma TakeKeepsBase(s: System, k: StepKind)
    requires Base(s) && Enabled(s, k)
    ensures Base(Take(s, k))
  {
    var t := Take(s, k);
    SoundAfter(s, k);
    LedgerAfter(s, k);
    AppliedAfter(s, k);
    forall id | id in t.awaiting ensures id in LedgerOf(t) {
      AwaitingAfter(s, k, id);
    }
    forall id | t.offer == Some(id) ensures t.chat.slug == t.home && id in t.created && id !in LedgerOf(t) {
      OfferAfter(s, k, id);
    }
  }

  /** So every state of every run satisfies them. */
  lemma {:induction false} RunKeepsBase(s: System, ks: seq<StepKind>)
    requires Base(s) && Enables(s, ks)
    ensures Base(TakeAll(s, ks))
    decreases |ks|
  {
    if ks != [] {
      TakeKeepsBase(s, ks[0]);
      RunKeepsBase(Take(s, ks[0]), ks[1..]);
    }
  }

  // ----- at most once

  /** How often a row was handed to a composer. */
  function Count(log: seq<string>, id: string): nat {
    if log == [] then 0 else (if log[|log| - 1] == id then 1 else 0) + Count(log[..|log| - 1], id)
  }

  lemma {:induction false} CountedExactly(log: seq<string>, id: string)
    ensures id in log <==> Count(log, id) > 0
  {
    if log != [] {
      CountedExactly(log[..|log| - 1], id);
      assert log == log[..|log| - 1] + [log[|log| - 1]];
    }
  }

  lemma CountAppend(log: seq<string>, x: string, id: string)
    ensures Count(log + [x], id) == Count(log, id) + if x == id then 1 else 0
  {
    assert (log + [x])[..|log|] == log;
  }

  /** When a confirmed consume may forget its ledger entry: the row can no longer reach the cached list.
      A confirmation that lands while another workspace is shown forgets nothing and is harmless. */
  ghost predicate SafeToForget(s: System, id: string) {
    s.chat.slug != s.home || !Lingers(s, id)
  }

  /** When a sign-out may clear the ledger: the server no longer has the row, or it was never applied. */
  ghost predicate SafeToSignOut(s: System, slugs: set<string>, id: string) {
    s.home !in slugs || id !in s.applied || id !in s.server
  }

  ghost predicate SafeFor(s: System, k: StepKind, id: string) {
    && (k == ConsumeConfirmed(id) ==> SafeToForget(s, id))
    && (k.SignOut? ==> SafeToSignOut(s, k.slugs, id))
  }

  /** Only what concerns this one restore is asked to be safe. */
  ghost predicate CautiousFor(s: System, ks: seq<StepKind>, id: string)
    requires Enables(s, ks)
    decreases |ks|
  {
    ks == [] || (SafeFor(s, ks[0], id) && CautiousFor(Take(s, ks[0]), ks[1..], id))
  }

  /** The ledger guards this restore: applied once at most, and in the ledger while its row can still be seen. */
  ghost predicate Guarded(s: System, id: string) {
    && Count(s.applied, id) <= 1
    && (id in s.applied && (id in s.server || Lingers(s, id)) ==> id in LedgerOf(s))
    && (s.offer == Some(id) ==> id !in s.applied)
  }

  lemma ApplyKeepsGuard(s: System, id: string)
    requires Base(s) && Enabled(s, Apply) && Guarded(s, id)
    ensures Guarded(Take(s, Apply), id)
  {
    LedgerAfterApply(s);
    CountAppend(s.applied, s.offer.value, id);
    CountedExactly(s.applied, id);
    if Lingers(Take(s, Apply), id) {
      LingersAfter(s, Apply, id);
    }
  }

  lemma OthersKeepGuard(s: System, k: StepKind, id: string)
    requires Base(s) && Enabled(s, k) && !k.Apply? && SafeFor(s, k, id) && Guarded(s, id)
    ensures Guarded(Take(s, k), id)
  {
    LedgerAfter(s, k);
    AppliedAfter(s, k);
    if Lingers(Take(s, k), id) {
      LingersAfter(s, k, id);
    }
  }

  lemma TakeKeepsGuard(s: System, k: StepKind, id: string)
    requires Base(s) && Enabled(s, k) && SafeFor(s, k, id) && Guarded(s, id)
    ensures Guarded(Take(s, k), id)
  {
    if k.Apply? {
      ApplyKeepsGuard(s, id);
    } else {
      OthersKeepGuard(s, k, id);
    }
  }

  /** Over every run in which this restore's own confirmations are safe, and every sign-out that clears the ledger is
      safe for it, it is handed to a composer at most once, whatever happens to the others. */
  lemma {:induction false} AtMostOnce(s: System, ks: seq<StepKind>, id: string)
    requires Base(s) && Guarded(s, id) && Enables(s, ks) && CautiousFor(s, ks, id)
    ensures Count(TakeAll(s, ks).applied, id) <= 1
    ensures Count(TakeAll(s, ks).applied, id) >= Count(s.applied, id)
    decreases |ks|
  {
    if ks != [] {
      TakeKeepsBase(s, ks[0]);
      TakeKeepsGuard(s, ks[0], id);
      if ks[0].Apply? {
        CountAppend(s.applied, s.offer.value, id);
      }
      AtMostOnce(Take(s, ks[0]), ks[1..], id);
    }
  }

  ghost function Fresh(home: string): System {
    System(home, Load(map[], home), {}, None, [], None, {}, {}, {}, [], {})
  }

  lemma FreshStart(home: string, id: string)
    requires home != ""
    ensures Base(Fresh(home)) && Guarded(Fresh(home), id)
  {
    LoadKeepsFields(map[], home, AppliedField);
  }

  // ----- exactly when a forget is dangerous

  /** Once nothing can bring a row back, nothing does, whatever happens next. */
  ghost predicate Gone(s: System, id: string) {
    id in s.created && id !in s.server && !Lingers(s, id) && s.offer != Some(id)
  }

  lemma GoneStays(s: System, k: StepKind, id: string)
    requires Gone(s, id) && Enabled(s, k)
    ensures Gone(Take(s, k), id)
    ensures k.Apply? ==> s.offer.value != id
  {
    if k.FetchArrives? {
      LingersAfterFetch(s, k.i, id);
    }
  }

  lemma {:induction false} GoneIsNeverApplied(s: System, ks: seq<StepKind>, id: string)
    requires Gone(s, id) && Enables(s, ks)
    ensures Count(TakeAll(s, ks).applied, id) == Count(s.applied, id)
    decreases |ks|
  {
    if ks != [] {
      GoneStays(s, ks[0], id);
      var t := Take(s, ks[0]);
      if ks[0].Apply? {
        assert t.applied[..|t.applied| - 1] == s.applied;
      }
      GoneIsNeverApplied(t, ks[1..], id);
    }
  }

  /** A way to hand the row over again after an unsafe forget: let the stale answer land, offer, apply. */
  ghost function Replay(s: System, id: string): seq<StepKind>
    requires Lingers(s, id)
  {
    if id in Cached(s) then [Release, Offer(id), Apply]
    else
      var i: nat :| i < |s.responses| && id in s.responses[i];
      [Release, FetchArrives(i), Offer(id), Apply]
  }

  lemma OfferedAndApplied(s: System, id: string)
    requires Enabled(s, Offer(id)) && id !in s.chat.applied
    ensures Enables(s, [Offer(id), Apply])
    ensures Count(TakeAll(s, [Offer(id), Apply]).applied, id) == Count(s.applied, id) + 1
  {
    var offered := Take(s, Offer(id));
    assert offered.applied == s.applied && Enabled(offered, Apply);
    var t := Take(offered, Apply);
    assert t.applied == s.applied + [id] && t.applied[..|t.applied| - 1] == s.applied;
    Prepend(offered, Apply, []);
    Prepend(s, Offer(id), [Apply]);
    assert [Apply] + [] == [Apply] && [Offer(id)] + [Apply] == [Offer(id), Apply];
  }

  lemma ReplayWorks(s: System, id: string)
    requires s.chat.slug == s.home && Lingers(s, id) && id !in s.chat.applied
    ensures Enables(s, Replay(s, id))
    ensures Count(TakeAll(s, Replay(s, id)).applied, id) == Count(s.applied, id) + 1
  {
    var ks, tail := Replay(s, id), [Offer(id), Apply];
    var released := Take(s, Release);
    if id in Cached(s) {
      OfferedAndApplied(released, id);
      Prepend(s, Release, tail);
      assert ks == [Release] + tail;
    } else {
      var fetched := Take(released, ks[1]);
      OfferedAndApplied(fetched, id);
      Prepend(released, ks[1], tail);
      Prepend(s, Release, [ks[1]] + tail);
      assert ks == [Release] + ([ks[1]] + tail);
    }
  }

  /** Exact condition. In any reachable state, whatever was confirmed before, forgetting a confirmed row can be
      followed by a second hand-off of it if and only if it still lingers in the cached list or in an answer on its
      way. */
  lemma ForgetIsSafeExactly(s: System, id: string)
    requires Base(s) && Enabled(s, ConsumeConfirmed(id)) && s.chat.slug == s.home
    ensures !SafeToForget(s, id) <==>
            exists ks :: Enables(Take(s, ConsumeConfirmed(id)), ks)
                         && Count(TakeAll(Take(s, ConsumeConfirmed(id)), ks).applied, id) > Count(s.applied, id)
  {
    var t := Take(s, ConsumeConfirmed(id));
    LedgerAfter(s, ConsumeConfirmed(id));
    if SafeToForget(s, id) {
      assert Gone(t, id);
      forall ks | Enables(t, ks)
        ensures Count(TakeAll(t, ks).applied, id) == Count(s.applied, id)
      {
        GoneIsNeverApplied(t, ks, id);
      }
    } else {
      assert Lingers(t, id);
      ReplayWorks(t, id);
    }
  }

  /** After the next login: open the workspace, fetch, and hand the row over. */
  ghost function AfterLogin(home: string, id: string): seq<StepKind> {
    [Switch(home), FetchStarts, FetchArrives(0), Offer(id), Apply]
  }

  lemma {:induction false} NothingForgotten(s: System, ks: seq<StepKind>, id: string)
    requires Enables(s, ks) && forall k :: k in ks ==> !k.ConsumeConfirmed? && !k.SignOut?
    ensures CautiousFor(s, ks, id)
    decreases |ks|
  {
    if ks != [] {
      assert ks[0] in ks && forall k :: k in ks[1..] ==> k in ks;
      NothingForgotten(Take(s, ks[0]), ks[1..], id);
    }
  }

  lemma FetchedAndApplied(s: System, id: string)
    requires s.chat.slug == s.home && s.responses == [] && s.offer.None? && id in s.server && id !in s.chat.applied
    ensures var ks := [FetchStarts, FetchArrives(0), Offer(id), Apply];
            Enables(s, ks) && Count(TakeAll(s, ks).applied, id) == Count(s.applied, id) + 1
  {
    var s1 := Take(s, FetchStarts);
    assert s1.responses == [s.server];
    var s2 := Take(s1, FetchArrives(0));
    var tail := [Offer(id), Apply];
    OfferedAndApplied(s2, id);
    Prepend(s1, FetchArrives(0), tail);
    Prepend(s, FetchStarts, [FetchArrives(0)] + tail);
    assert [FetchStarts, FetchArrives(0), Offer(id), Apply] == [FetchStarts] + ([FetchArrives(0)] + tail);
  }

  lemma LoginApplies(t: System, id: string)
    requires LedgerOf(t) == [] && t.responses == [] && id in t.server && t.chat.slug != t.home
    ensures var ks := AfterLogin(t.home, id);
            Enables(t, ks) && Count(TakeAll(t, ks).applied, id) == Count(t.applied, id) + 1
  {
    var tail := [FetchStarts, FetchArrives(0), Offer(id), Apply];
    LedgerLoads(t, t.home);
    FetchedAndApplied(Take(t, Switch(t.home)), id);
    Prepend(t, Switch(t.home), tail);
    assert AfterLogin(t.home, id) == [Switch(t.home)] + tail;
  }

  lemma LoginReapplies(s: System, slugs: set<string>, id: string)
    requires Base(s) && s.home in slugs && id in s.server
    ensures var t, ks := Take(s, SignOut(slugs)), AfterLogin(s.home, id);
            && Enables(t, ks) && CautiousFor(t, ks, id)
            && Count(TakeAll(t, ks).applied, id) == Count(s.applied, id) + 1
  {
    var t := Take(s, SignOut(slugs));
    LedgerSignsOut(s, slugs);
    LoginApplies(t, id);
    NothingForgotten(t, AfterLogin(s.home, id), id);
  }

  /** A sign-out can be followed by a second hand-off of an applied restore, in a run whose later confirmations and
      sign-outs are safe for it, if and only if it clears the ledger while the server still has the row. */
  lemma SignOutIsSafeExactly(s: System, slugs: set<string>, id: string)
    requires Base(s) && Guarded(s, id) && id in s.applied
    ensures !SafeToSignOut(s, slugs, id) <==>
            exists ks :: Enables(Take(s, SignOut(slugs)), ks) && CautiousFor(Take(s, SignOut(slugs)), ks, id)
                         && Count(TakeAll(Take(s, SignOut(slugs)), ks).applied, id) > Count(s.applied, id)
  {
    var t := Take(s, SignOut(slugs));
    if SafeToSignOut(s, slugs, id) {
      CountedExactly(s.applied, id);
      TakeKeepsBase(s, SignOut(slugs));
      TakeKeepsGuard(s, SignOut(slugs), id);
      forall ks | Enables(t, ks) && CautiousFor(t, ks, id)
        ensures Count(TakeAll(t, ks).applied, id) == Count(s.applied, id)
      {
        AtMostOnce(t, ks, id);
      }
    } else {
      LoginReapplies(s, slugs, id);
    }
  }

  /** Fetch and apply a restore, then refetch before the server has carried out the consume. */
  ghost function RefetchDuringConsume(id: string): seq<StepKind> {
    [ServerCreates(id), FetchStarts, FetchArrives(0), Offer(id), Apply,
     FetchStarts, FetchArrives(0), ConsumeExecutes(id), ConsumeConfirmed(id)]
  }

  lemma Prepend(s: System, k: StepKind, ks: seq<StepKind>)
    requires Enabled(s, k) && Enables(Take(s, k), ks)
    ensures Enables(s, [k] + ks) && TakeAll(s, [k] + ks) == TakeAll(Take(s, k), ks)
  {
    assert ([k] + ks)[1..] == ks;
  }

  lemma ConfirmedWhileCached(s7: System, id: string)
    requires s7.chat.slug == s7.home && s7.chat.applied == [id] && s7.applied == [id] && s7.offer.None?
    requires id in Cached(s7) && id in s7.wire && id in s7.awaiting
    ensures var ks := [ConsumeExecutes(id)] + [ConsumeConfirmed(id)];
            && Enables(s7, ks)
            && TakeAll(s7, ks).applied == [id] && Enabled(TakeAll(s7, ks), Offer(id))
  {
    var s8 := Take(s7, ConsumeExecutes(id));
    Prepend(s8, ConsumeConfirmed(id), []);
    Prepend(s7, ConsumeExecutes(id), [ConsumeConfirmed(id)]);
    assert [ConsumeConfirmed(id)] + [] == [ConsumeConfirmed(id)];
  }

  /** The refetch answered before the consume is carried out. */
  lemma RefetchThenConfirm(s5: System, id: string)
    requires s5.chat.slug == s5.home && s5.chat.applied == [id] && s5.applied == [id] && s5.offer.None?
    requires s5.server == {id} && s5.responses == [] && id in s5.wire && id in s5.awaiting
    ensures Enables(s5, RefetchDuringConsume(id)[5..])
    ensures var s := TakeAll(s5, RefetchDuringConsume(id)[5..]);
            s.applied == [id] && Enabled(s, Offer(id))
  {
    var s6 := Take(s5, FetchStarts);
    assert s6.responses[0] == {id};
    var s7 := Take(s6, FetchArrives(0));
    var k7 := [ConsumeExecutes(id)] + [ConsumeConfirmed(id)];
    ConfirmedWhileCached(s7, id);
    Prepend(s6, FetchArrives(0), k7);
    Prepend(s5, FetchStarts, [FetchArrives(0)] + k7);
    assert RefetchDuringConsume(id)[5..] == [FetchStarts] + ([FetchArrives(0)] + k7);
  }

  /** From a quiet state with the row in the cached list: applied once, but forgotten while it is back in the list. */
  lemma HandOffThenRefetch(s3: System, id: string)
    requires s3.chat.slug == s3.home && s3.chat.applied == [] && s3.applied == [] && s3.offer.None?
    requires s3.server == {id} && s3.cache == Some({id}) && s3.responses == [] && s3.wire == {}
    ensures Enables(s3, RefetchDuringConsume(id)[3..])
    ensures var s := TakeAll(s3, RefetchDuringConsume(id)[3..]);
            s.applied == [id] && Enabled(s, Offer(id))
  {
    var s4 := Take(s3, Offer(id));
    var s5 := Take(s4, Apply);
    RefetchThenConfirm(s5, id);
    var k5 := RefetchDuringConsume(id)[5..];
    Prepend(s4, Apply, k5);
    Prepend(s3, Offer(id), [Apply] + k5);
    assert RefetchDuringConsume(id)[3..] == [Offer(id)] + ([Apply] + k5);
  }

  /** The run that breaks the hand-off: the refetch puts the row back in the cached list after the optimistic
      removal, the confirmation then forgets it, and it can be offered and applied a second time. */
  lemma RefetchDuringConsumeReoffers(home: string, id: string)
    ensures Enables(Fresh(home), RefetchDuringConsume(id))
    ensures var s := TakeAll(Fresh(home), RefetchDuringConsume(id));
            s.applied == [id] && Enabled(s, Offer(id))
  {
    var s0 := Fresh(home);
    var s1 := Take(s0, ServerCreates(id));
    var s2 := Take(s1, FetchStarts);
    var s3 := Take(s2, FetchArrives(0));
    HandOffThenRefetch(s3, id);
    var k3 := RefetchDuringConsume(id)[3..];
    Prepend(s2, FetchArrives(0), k3);
    Prepend(s1, FetchStarts, [FetchArrives(0)] + k3);
    Prepend(s0, ServerCreates(id), [FetchStarts] + ([FetchArrives(0)] + k3));
    assert RefetchDuringConsume(id) == [ServerCreates(id)] + ([FetchStarts] + ([FetchArrives(0)] + k3));
  }

  // ----- it does finish

  /** The consume reaches the server and comes back. */
  ghost function Consumed(id: string): seq<StepKind> {
    [ConsumeExecutes(id), ConsumeConfirmed(id)]
  }

  lemma ConfirmFinishes(s: System, id: string)
    requires Base(s) && s.chat.slug == s.home && id in s.executed && id in s.awaiting && !Lingers(s, id)
    ensures Enabled(s, ConsumeConfirmed(id)) && SafeFor(s, ConsumeConfirmed(id), id)
    ensures var t := Take(s, ConsumeConfirmed(id));
            Gone(t, id) && id !in LedgerOf(t) && t.applied == s.applied
  {
    LedgerAfterConfirm(s, id);
  }

  lemma LastIsCautious(s: System, id: string)
    requires Enables(s, [ConsumeConfirmed(id)]) && SafeFor(s, ConsumeConfirmed(id), id)
    ensures CautiousFor(s, [ConsumeConfirmed(id)], id)
  {
    assert [ConsumeConfirmed(id)][1..] == [];
  }

  lemma ConsumeFinishes(s: System, id: string)
    requires Base(s) && s.chat.slug == s.home && id in s.wire && id in s.awaiting && !Lingers(s, id)
    ensures Enables(s, Consumed(id)) && CautiousFor(s, Consumed(id), id)
    ensures var t := TakeAll(s, Consumed(id));
            Gone(t, id) && id !in LedgerOf(t) && t.applied == s.applied
  {
    var s1 := Take(s, ConsumeExecutes(id));
    TakeKeepsBase(s, ConsumeExecutes(id));
    ConfirmFinishes(s1, id);
    Prepend(s1, ConsumeConfirmed(id), []);
    assert [ConsumeConfirmed(id)] + [] == [ConsumeConfirmed(id)];
    Prepend(s, ConsumeExecutes(id), [ConsumeConfirmed(id)]);
    assert [ConsumeExecutes(id)] + [ConsumeConfirmed(id)] == Consumed(id);
    LastIsCautious(s1, id);
    assert Consumed(id)[1..] == [ConsumeConfirmed(id)];
  }

  lemma ApplyEffect(s: System, id: string)
    requires Base(s) && s.offer == Some(id) && forall r :: r in s.responses ==> id !in r
    ensures Enabled(s, Apply)
    ensures var t := Take(s, Apply);
            && Base(t) && t.chat.slug == t.home && id in t.wire && id in t.awaiting && !Lingers(t, id)
            && id in LedgerOf(t) && Count(t.applied, id) == Count(s.applied, id) + 1
  {
    TakeKeepsBase(s, Apply);
    LedgerAfterApply(s);
    CountAppend(s.applied, id, id);
    StepIsolated(s.chat, MarkDraftRestoreApplied(id));
  }

  /** A hand-off during which nothing is fetched: the row leaves the cached list at once, and in the end it is gone from
      server, cache and ledger, applied once more than before. */
  lemma CleanHandOff(s: System, id: string)
    requires Base(s) && s.offer == Some(id) && forall r :: r in s.responses ==> id !in r
    ensures Enabled(s, Apply)
    ensures var t := Take(s, Apply);
            && id !in Cached(t) && id in LedgerOf(t)
            && Enables(t, Consumed(id)) && CautiousFor(t, Consumed(id), id)
            && Gone(TakeAll(t, Consumed(id)), id) && id !in LedgerOf(TakeAll(t, Consumed(id)))
            && Count(TakeAll(t, Consumed(id)).applied, id) == Count(s.applied, id) + 1
  {
    ApplyEffect(s, id);
    ConsumeFinishes(Take(s, Apply), id);
  }

  /** A consume that was lost is sent again from the fetched list, and then finishes without another hand-off. */
  lemma LostConsumeConverges(s: System, id: string)
    requires Base(s) && s.chat.slug == s.home && id in s.awaiting && id in Cached(s)
    requires forall r :: r in s.responses ==> id !in r
    ensures Enabled(s, ConsumeLost(id)) && Enabled(Take(s, ConsumeLost(id)), Reconcile(id))
    ensures var t := Take(Take(s, ConsumeLost(id)), Reconcile(id));
            && id !in Cached(t) && Enables(t, Consumed(id)) && CautiousFor(t, Consumed(id), id)
            && Gone(TakeAll(t, Consumed(id)), id) && id !in LedgerOf(TakeAll(t, Consumed(id)))
            && TakeAll(t, Consumed(id)).applied == s.applied
  {
    var lost := Take(s, ConsumeLost(id));
    TakeKeepsBase(s, ConsumeLost(id));
    TakeKeepsBase(lost, Reconcile(id));
    ConsumeFinishes(Take(lost, Reconcile(id)), id);
  }

  /** With the cached list dropped and no answer on its way that holds it, a row can be forgotten. */
  lemma DroppedCacheIsSafe(s: System, id: string)
    requires forall r :: r in s.responses ==> id !in r
    ensures SafeToForget(Take(s, CacheDropped), id)
  {
  }
}
