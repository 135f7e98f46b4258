/** Queues of restores that have no server copy: nothing accepted is lost, reordered or duplicated before it is
    dequeued, over any run of actions, reloads, workspace switches and logouts. */
module PendingQueues {
  import opened Basics
  import opened ChatStorage
  import opened ChatModel

  // ----- what happened, independently of the store

  datatype Entry =
    | Entered(slug: string, restore: PendingSendRestore)
    | Left(slug: string, sessionId: string, restoreId: string)
    | Wiped(slugs: set<string>)
    | Quiet

  function Note(s: Chat, e: Event): Entry {
    if e.LogOut? then Wiped(e.slugs)
    else if e.Act? && e.action.EnqueuePendingSendRestore? then Entered(s.slug, e.action.restore)
    else if e.Act? && e.action.DequeuePendingSendRestore? then Left(s.slug, e.action.sessionId, e.action.restoreId)
    else Quiet
  }

  function LogOf(s: Chat, events: seq<Event>): seq<Entry>
    decreases |events|
  {
    if events == [] then [] else [Note(s, events[0])] + LogOf(Next(s, events[0]), events[1..])
  }

  ghost predicate Removes(e: Entry, slug: string, sessionId: string, id: string) {
    match e
    case Left(w, sid, i) => w == slug && sid == sessionId && i == id
    case Wiped(slugs) => slug != "" && slug in slugs
    case _ => false
  }

  /** Requested at i, and nothing has removed it since. */
  ghost predicate StillThere(log: seq<Entry>, i: nat)
    requires i < |log|
  {
    log[i].Entered?
    && forall j :: i < j < |log| ==> !Removes(log[j], log[i].slug, log[i].restore.sessionId, log[i].restore.id)
  }

  ghost predicate SameRestore(a: Entry, b: Entry) {
    a.Entered? && b.Entered? && a.slug == b.slug
    && a.restore.sessionId == b.restore.sessionId && a.restore.id == b.restore.id
  }

  /** A well-formed request that is not a repetition of one still there. */
  ghost predicate Accepted(log: seq<Entry>, i: nat)
    requires i < |log|
  {
    && log[i].Entered? && log[i].restore.sessionId != "" && log[i].restore.id != ""
    && forall k :: 0 <= k < i && SameRestore(log[k], log[i]) ==> !StillThere(log[..i], k)
  }

  ghost predicate Waits(log: seq<Entry>, i: nat, slug: string, sessionId: string)
    requires i < |log|
  {
    Accepted(log, i) && StillThere(log, i) && log[i].slug == slug && log[i].restore.sessionId == sessionId
  }

  /** The accepted restores of one session that are still there, oldest first. */
  ghost function Expected(log: seq<Entry>, n: nat, slug: string, sessionId: string): seq<PendingSendRestore>
    requires n <= |log|
  {
    if n == 0 then []
    else if Waits(log, n - 1, slug, sessionId)
    then Expected(log, n - 1, slug, sessionId) + [ReloadedRestore(log[n - 1].restore)]
    else Expected(log, n - 1, slug, sessionId)
  }

  // ----- how one more entry changes the expectation

  ghost predicate RemovesFrom(x: Entry, slug: string, sid: string) {
    (x.Left? && x.slug == slug && x.sessionId == sid) || (x.Wiped? && slug != "" && slug in x.slugs)
  }

  lemma ExpectedStep(log: seq<Entry>, x: Entry, i: nat)
    requires i < |log|
    ensures Accepted(log + [x], i) == Accepted(log, i)
    ensures log[i].Entered? ==>
              (StillThere(log + [x], i) <==>
               StillThere(log, i) && !Removes(x, log[i].slug, log[i].restore.sessionId, log[i].restore.id))
  {
    assert (log + [x])[..i] == log[..i];
    if log[i].Entered? {
      StillThereGrows(log, x, i);
    }
  }

  lemma {:induction false} ExpectedKept(log: seq<Entry>, x: Entry, n: nat, slug: string, sid: string)
    requires n <= |log| && !RemovesFrom(x, slug, sid)
    ensures Expected(log + [x], n, slug, sid) == Expected(log, n, slug, sid)
  {
    if n > 0 {
      ExpectedKept(log, x, n - 1, slug, sid);
      ExpectedStep(log, x, n - 1);
    }
  }

  lemma WaitsDequeued(log: seq<Entry>, slug: string, sid: string, id: string, i: nat)
    requires i < |log|
    ensures Waits(log + [Left(slug, sid, id)], i, slug, sid) <==> Waits(log, i, slug, sid) && log[i].restore.id != id
  {
    ExpectedStep(log, Left(slug, sid, id), i);
  }

  lemma DequeuedOne(log: seq<Entry>, slug: string, sid: string, id: string, n: nat)
    requires n < |log|
    requires Expected(log + [Left(slug, sid, id)], n, slug, sid) == WithoutRestore(Expected(log, n, slug, sid), id)
    ensures Expected(log + [Left(slug, sid, id)], n + 1, slug, sid)
         == WithoutRestore(Expected(log, n + 1, slug, sid), id)
  {
    WaitsDequeued(log, slug, sid, id, n);
    if Waits(log, n, slug, sid) {
      WithoutRestoreSnoc(Expected(log, n, slug, sid), ReloadedRestore(log[n].restore), id);
    }
  }

  lemma {:induction false} ExpectedDequeued(log: seq<Entry>, slug: string, sid: string, id: string, n: nat)
    requires n <= |log|
    ensures Expected(log + [Left(slug, sid, id)], n, slug, sid) == WithoutRestore(Expected(log, n, slug, sid), id)
  {
    if n > 0 {
      ExpectedDequeued(log, slug, sid, id, n - 1);
      DequeuedOne(log, slug, sid, id, n - 1);
    }
  }

  lemma {:induction false} ExpectedWiped(log: seq<Entry>, slugs: set<string>, n: nat, slug: string, sid: string)
    requires n <= |log| && slug != "" && slug in slugs
    ensures Expected(log + [Wiped(slugs)], n, slug, sid) == []
  {
    if n > 0 {
      ExpectedWiped(log, slugs, n - 1, slug, sid);
      ExpectedStep(log, Wiped(slugs), n - 1);
    }
  }

  lemma ExpectedWithout(log: seq<Entry>, x: Entry, slug: string, sid: string)
    ensures var before, after := Expected(log, |log|, slug, sid), Expected(log + [x], |log|, slug, sid);
            after == if !RemovesFrom(x, slug, sid) then before
                     else if x.Left? then WithoutRestore(before, x.restoreId)
                     else []
  {
    if !RemovesFrom(x, slug, sid) {
      ExpectedKept(log, x, |log|, slug, sid);
    } else if x.Left? {
      ExpectedDequeued(log, slug, sid, x.restoreId, |log|);
    } else {
      ExpectedWiped(log, x.slugs, |log|, slug, sid);
    }
  }

  /** What an entry that asks for nothing leaves of a queue. */
  ghost function Reduced(q: seq<PendingSendRestore>, x: Entry, slug: string, sid: string): seq<PendingSendRestore> {
    if !RemovesFrom(x, slug, sid) then q else if x.Left? then WithoutRestore(q, x.restoreId) else []
  }

  lemma ExpectedGrown(log: seq<Entry>, x: Entry, slug: string, sid: string)
    requires !x.Entered?
    ensures Expected(log + [x], |log| + 1, slug, sid) == Reduced(Expected(log, |log|, slug, sid), x, slug, sid)
  {
    ExpectedWithout(log, x, slug, sid);
    assert !Waits(log + [x], |log|, slug, sid);
  }

  lemma StillThereGrows(log: seq<Entry>, x: Entry, i: nat)
    requires i < |log| && log[i].Entered?
    ensures StillThere(log + [x], i) <==>
            StillThere(log, i) && !Removes(x, log[i].slug, log[i].restore.sessionId, log[i].restore.id)
  {
    var grown := log + [x];
    if StillThere(grown, i) {
      assert grown[|log|] == x;
      forall j | i < j < |log|
        ensures !Removes(log[j], log[i].slug, log[i].restore.sessionId, log[i].restore.id)
      {
        assert grown[j] == log[j];
      }
    }
  }

  lemma {:induction false} WithoutRestoreSnoc(q: seq<PendingSendRestore>, r: PendingSendRestore, id: string)
    ensures WithoutRestore(q + [r], id) == if r.id == id then WithoutRestore(q, id) else WithoutRestore(q, id) + [r]
  {
    if q == [] {
      assert q + [r] == [r] && [r][1..] == [];
    } else {
      var rest := q[1..];
      WithoutRestoreSnoc(rest, r, id);
      assert (q + [r])[1..] == rest + [r];
      if q[0].id != id && r.id != id {
        ConcatAssociates([q[0]], WithoutRestore(rest, id), [r]);
      }
    }
  }

  /** A restore that is still there was accepted, then or earlier. */
  lemma {:induction false} StillThereMeansExpected(log: seq<Entry>, k: nat)
    requires k < |log| && StillThere(log, k) && log[k].restore.sessionId != "" && log[k].restore.id != ""
    ensures HasRestore(Expected(log, |log|, log[k].slug, log[k].restore.sessionId), log[k].restore.id)
  {
    if Accepted(log, k) {
      AcceptedIsExpected(log, k, |log|);
    } else {
      var j: nat :| j < k && SameRestore(log[j], log[k]) && StillThere(log[..k], j);
      forall m | j < m < |log|
        ensures !Removes(log[m], log[j].slug, log[j].restore.sessionId, log[j].restore.id)
      {
        if m < k {
          assert log[..k][m] == log[m];
        }
      }
      StillThereMeansExpected(log, j);
    }
  }

  lemma {:induction false} AcceptedIsExpected(log: seq<Entry>, k: nat, n: nat)
    requires k < n <= |log| && StillThere(log, k) && Accepted(log, k)
    ensures HasRestore(Expected(log, n, log[k].slug, log[k].restore.sessionId), log[k].restore.id)
  {
    var q := Expected(log, n, log[k].slug, log[k].restore.sessionId);
    if k == n - 1 {
      assert q[|q| - 1].id == log[k].restore.id;
    } else {
      AcceptedIsExpected(log, k, n - 1);
      var p := Expected(log, n - 1, log[k].slug, log[k].restore.sessionId);
      var i :| 0 <= i < |p| && p[i].id == log[k].restore.id;
      assert q[i] == p[i];
    }
  }

  lemma {:induction false} ExpectedIsThere(log: seq<Entry>, n: nat, slug: string, sid: string, id: string)
    returns (k: nat)
    requires n <= |log| && HasRestore(Expected(log, n, slug, sid), id)
    ensures k < n && Accepted(log, k) && StillThere(log, k)
    ensures log[k].slug == slug && log[k].restore.sessionId == sid && log[k].restore.id == id
  {
    var p, q := Expected(log, n - 1, slug, sid), Expected(log, n, slug, sid);
    var i :| 0 <= i < |q| && q[i].id == id;
    if i < |p| {
      assert p[i] == q[i];
      k := ExpectedIsThere(log, n - 1, slug, sid, id);
    } else {
      k := n - 1;
    }
  }

  lemma NewIsNew(log: seq<Entry>, n: nat)
    requires n < |log| && Accepted(log, n)
    ensures !HasRestore(Expected(log, n, log[n].slug, log[n].restore.sessionId), log[n].restore.id)
  {
    if HasRestore(Expected(log, n, log[n].slug, log[n].restore.sessionId), log[n].restore.id) {
      var k := ExpectedIsThere(log, n, log[n].slug, log[n].restore.sessionId, log[n].restore.id);
      StillThereInPrefix(log, k, n);
      assert SameRestore(log[k], log[n]);
    }
  }

  lemma StillThereInPrefix(log: seq<Entry>, k: nat, n: nat)
    requires k < n <= |log| && StillThere(log, k)
    ensures StillThere(log[..n], k)
  {
  }

  ghost predicate FitsSession(q: seq<PendingSendRestore>, sid: string) {
    && (forall i, j :: 0 <= i < j < |q| ==> q[i].id != q[j].id)
    && forall i :: 0 <= i < |q| ==> q[i].sessionId == sid && q[i].id != ""
  }

  lemma AppendFits(q: seq<PendingSendRestore>, sid: string, r: PendingSendRestore)
    requires FitsSession(q, sid) && r.sessionId == sid && r.id != "" && !HasRestore(q, r.id)
    ensures FitsSession(q + [r], sid)
  {
    assert forall i :: 0 <= i < |q| ==> (q + [r])[i] == q[i];
    assert (q + [r])[|q|] == r;
  }

  /** No restore is queued twice at the same time, and all of a queue's entries belong to its session. */
  lemma {:induction false} ExpectedDistinct(log: seq<Entry>, n: nat, slug: string, sid: string)
    requires n <= |log|
    ensures FitsSession(Expected(log, n, slug, sid), sid)
  {
    if n > 0 {
      ExpectedDistinct(log, n - 1, slug, sid);
      var p := Expected(log, n - 1, slug, sid);
      if Expected(log, n, slug, sid) != p {
        NewIsNew(log, n - 1);
        AppendFits(p, sid, ReloadedRestore(log[n - 1].restore));
      }
    }
  }

  // ----- the store agrees

  /** One session's queue as stored for one workspace. */
  function Queued(d: Disk, slug: string, sessionId: string): seq<PendingSendRestore> {
    Lookup(QueuesOf(Get(d, Key(QueuesField, slug))), sessionId)
  }

  ghost predicate DiskAgrees(d: Disk, log: seq<Entry>) {
    forall w: string, sid: string :: Queued(d, w, sid) == Expected(log, |log|, w, sid)
  }

  ghost predicate Agrees(s: Chat, log: seq<Entry>) {
    DiskAgrees(s.disk, log)
  }

  lemma ReducedAgrees(d: Disk, e: Disk, log: seq<Entry>, x: Entry)
    requires DiskAgrees(d, log) && !x.Entered?
    requires forall w: string, sid: string :: Queued(e, w, sid) == Reduced(Queued(d, w, sid), x, w, sid)
    ensures DiskAgrees(e, log + [x])
  {
    forall w: string, sid: string
      ensures Queued(e, w, sid) == Expected(log + [x], |log| + 1, w, sid)
    {
      ExpectedGrown(log, x, w, sid);
    }
  }

  lemma ReloadedLookup(m: Queues, sid: string)
    ensures Lookup(ReloadedQueues(m), sid) == ReloadedQueue(Lookup(m, sid))
  {
  }

  lemma ReloadedAppend(a: seq<PendingSendRestore>, b: seq<PendingSendRestore>)
    ensures ReloadedQueue(a + b) == ReloadedQueue(a) + ReloadedQueue(b)
  {
    var l, r := ReloadedQueue(a + b), ReloadedQueue(a) + ReloadedQueue(b);
    assert |l| == |r|;
    forall i | 0 <= i < |l| ensures l[i] == r[i] {
    }
  }

  lemma {:induction false} ReloadedWithout(q: seq<PendingSendRestore>, id: string)
    ensures ReloadedQueue(WithoutRestore(q, id)) == WithoutRestore(ReloadedQueue(q), id)
  {
    if q != [] {
      ReloadedWithout(q[1..], id);
      assert ReloadedQueue(q)[1..] == ReloadedQueue(q[1..]);
      if q[0].id != id {
        ReloadedAppend([q[0]], WithoutRestore(q[1..], id));
      }
    }
  }

  lemma ReloadedHas(q: seq<PendingSendRestore>, id: string)
    ensures HasRestore(q, id) == HasRestore(ReloadedQueue(q), id)
  {
    if HasRestore(q, id) {
      var i :| 0 <= i < |q| && q[i].id == id;
      assert ReloadedQueue(q)[i].id == id;
    }
  }

  lemma {:induction false} WithoutAbsent(q: seq<PendingSendRestore>, id: string)
    requires !HasRestore(q, id)
    ensures WithoutRestore(q, id) == q
  {
    if q != [] {
      assert q[0].id != id;
      assert forall i :: 0 <= i < |q[1..]| ==> q[1..][i] == q[i + 1];
      WithoutAbsent(q[1..], id);
    }
  }

  /** The queues in memory are the stored ones, up to a missing attachment list. */
  ghost predicate MirrorsQueues(s: Chat) {
    QueuesOf(s.OnDisk(QueuesField)) == ReloadedQueues(s.queues)
  }

  lemma StepMirrorsQueues(s: Chat, a: Action)
    requires MirrorsQueues(s)
    ensures MirrorsQueues(s.Step(a))
  {
    if !a.SetActiveSession? && !a.SetSelectedAgentId? && !a.SetSelectedProjectId? {
      CommitOnDisk(s, s.Effect(a));
      QueuesRoundTrip(s.Step(a).queues);
    }
  }

  lemma StoredQueue(s: Chat, sid: string)
    requires MirrorsQueues(s)
    ensures Queued(s.disk, s.slug, sid) == ReloadedQueue(Lookup(s.queues, sid))
  {
    ReloadedLookup(s.queues, sid);
  }

  /** What one action does to the stored queues. */
  lemma EnqueueQueue(s: Chat, r: PendingSendRestore, sid: string)
    requires MirrorsQueues(s)
    ensures var before := Queued(s.disk, s.slug, sid);
            Queued(s.Step(EnqueuePendingSendRestore(r)).disk, s.slug, sid)
            == if r.sessionId == sid && sid != "" && r.id != "" && !HasRestore(before, r.id)
               then before + [ReloadedRestore(r)] else before
  {
    var a := EnqueuePendingSendRestore(r);
    StepMirrorsQueues(s, a);
    StoredQueue(s, sid);
    StoredQueue(s.Step(a), sid);
    ReloadedHas(Lookup(s.queues, sid), r.id);
    ReloadedAppend(Lookup(s.queues, sid), [r]);
    EnqueueEffect(s, r);
  }

  lemma EnqueueEffect(s: Chat, r: PendingSendRestore)
    ensures var existing := Lookup(s.queues, r.sessionId);
            s.Step(EnqueuePendingSendRestore(r)).queues
            == if r.sessionId == "" || r.id == "" || HasRestore(existing, r.id) then s.queues
               else s.queues[r.sessionId := existing + [r]]
  {
  }

  lemma DequeueQueue(s: Chat, session: string, id: string, sid: string)
    requires MirrorsQueues(s)
    ensures var before := Queued(s.disk, s.slug, sid);
            Queued(s.Step(DequeuePendingSendRestore(session, id)).disk, s.slug, sid)
            == if session == sid then WithoutRestore(before, id) else before
  {
    var t := s.Step(DequeuePendingSendRestore(session, id));
    StepMirrorsQueues(s, DequeuePendingSendRestore(session, id));
    StoredQueue(s, sid);
    StoredQueue(t, sid);
    ReloadedWithout(Lookup(s.queues, sid), id);
    DequeueEffect(s, session, id, sid);
  }

  lemma DequeueEffect(s: Chat, session: string, id: string, sid: string)
    ensures Lookup(s.Step(DequeuePendingSendRestore(session, id)).queues, sid)
            == if session == sid then WithoutRestore(Lookup(s.queues, sid), id) else Lookup(s.queues, sid)
  {
    if !HasRestore(Lookup(s.queues, session), id) {
      WithoutAbsent(Lookup(s.queues, session), id);
    }
  }

  lemma OtherQueue(s: Chat, a: Action, sid: string)
    requires MirrorsQueues(s) && !a.EnqueuePendingSendRestore? && !a.DequeuePendingSendRestore?
    ensures Queued(s.Step(a).disk, s.slug, sid) == Queued(s.disk, s.slug, sid)
  {
    StepMirrorsQueues(s, a);
    StoredQueue(s, sid);
    StoredQueue(s.Step(a), sid);
    OnlyQueueActionsQueue(s, a);
  }

  lemma OnlyQueueActionsQueue(s: Chat, a: Action)
    requires !a.EnqueuePendingSendRestore? && !a.DequeuePendingSendRestore?
    ensures s.Step(a).queues == s.queues
  {
  }

  /** A request is accepted exactly when no restore of that session and id is still expected. */
  lemma AcceptedExactly(log: seq<Entry>, slug: string, r: PendingSendRestore)
    requires r.sessionId != "" && r.id != ""
    ensures Accepted(log + [Entered(slug, r)], |log|) <==> !HasRestore(Expected(log, |log|, slug, r.sessionId), r.id)
  {
    var n, grown := |log|, log + [Entered(slug, r)];
    assert grown[..n] == log;
    if HasRestore(Expected(log, n, slug, r.sessionId), r.id) {
      var k := ExpectedIsThere(log, n, slug, r.sessionId, r.id);
      assert SameRestore(grown[k], grown[n]);
    } else if !Accepted(grown, n) {
      var k: nat :| k < n && SameRestore(grown[k], grown[n]) && StillThere(log, k);
      StillThereMeansExpected(log, k);
    }
  }

  lemma ExpectedEntered(log: seq<Entry>, slug: string, r: PendingSendRestore, w: string, sid: string)
    ensures var before := Expected(log, |log|, w, sid);
            Expected(log + [Entered(slug, r)], |log| + 1, w, sid)
            == if w == slug && r.sessionId == sid && sid != "" && r.id != "" && !HasRestore(before, r.id)
               then before + [ReloadedRestore(r)] else before
  {
    var grown := log + [Entered(slug, r)];
    ExpectedKept(log, Entered(slug, r), |log|, w, sid);
    assert StillThere(grown, |log|);
    if r.sessionId != "" && r.id != "" {
      AcceptedExactly(log, slug, r);
    }
  }

  lemma EnqueueElsewhere(s: Chat, r: PendingSendRestore, w: string, sid: string)
    requires w != s.slug
    ensures Queued(s.Step(EnqueuePendingSendRestore(r)).disk, w, sid) == Queued(s.disk, w, sid)
  {
    StepIsolated(s, EnqueuePendingSendRestore(r));
  }

  /** What an enqueue does to any session's queue in any workspace. */
  lemma EnqueuedQueue(s: Chat, r: PendingSendRestore, w: string, sid: string)
    requires MirrorsQueues(s)
    ensures var before := Queued(s.disk, w, sid);
            Queued(s.Step(EnqueuePendingSendRestore(r)).disk, w, sid)
            == if w == s.slug && r.sessionId == sid && sid != "" && r.id != "" && !HasRestore(before, r.id)
               then before + [ReloadedRestore(r)] else before
  {
    if w == s.slug {
      EnqueueQueue(s, r, sid);
    } else {
      EnqueueElsewhere(s, r, w, sid);
    }
  }

  lemma EnqueueAgrees(s: Chat, log: seq<Entry>, r: PendingSendRestore)
    requires MirrorsQueues(s) && Agrees(s, log)
    ensures Agrees(s.Step(EnqueuePendingSendRestore(r)), log + [Entered(s.slug, r)])
  {
    var e := s.Step(EnqueuePendingSendRestore(r)).disk;
    forall w: string, sid: string
      ensures Queued(e, w, sid) == Expected(log + [Entered(s.slug, r)], |log| + 1, w, sid)
    {
      ExpectedEntered(log, s.slug, r, w, sid);
      EnqueuedQueue(s, r, w, sid);
    }
  }

  lemma OtherActionQueue(s: Chat, a: Action, w: string, sid: string)
    requires MirrorsQueues(s) && !a.EnqueuePendingSendRestore?
    ensures Queued(s.Step(a).disk, w, sid) == Reduced(Queued(s.disk, w, sid), Note(s, Act(a)), w, sid)
  {
    if w != s.slug {
      StepIsolated(s, a);
      assert Get(s.Step(a).disk, Key(QueuesField, w)) == Get(s.disk, Key(QueuesField, w));
    } else if a.DequeuePendingSendRestore? {
      DequeueQueue(s, a.sessionId, a.restoreId, sid);
    } else {
      OtherQueue(s, a, sid);
    }
  }

  lemma LoadKeepsQueue(d: Disk, slug: string, w: string, sid: string)
    ensures Queued(Load(d, slug).disk, w, sid) == Queued(d, w, sid)
  {
  }

  lemma LogoutQueue(s: Chat, slugs: set<string>, w: string, sid: string)
    ensures Queued(Logout(s, slugs).disk, w, sid)
            == if w != "" && w in slugs then [] else Queued(s.disk, w, sid)
  {
  }

  lemma OutsideQueue(s: Chat, e: Event, w: string, sid: string)
    requires !e.Act?
    ensures Queued(Next(s, e).disk, w, sid) == Reduced(Queued(s.disk, w, sid), Note(s, e), w, sid)
  {
    if e.LogOut? {
      LogoutQueue(s, e.slugs, w, sid);
    } else {
      LoadKeepsQueue(s.disk, e.slug, w, sid);
    }
  }

  lemma ReducingEventAgrees(s: Chat, log: seq<Entry>, e: Event)
    requires Agrees(s, log) && (e.Act? ==> MirrorsQueues(s) && !e.action.EnqueuePendingSendRestore?)
    ensures Agrees(Next(s, e), log + [Note(s, e)])
  {
    forall w: string, sid: string
      ensures Queued(Next(s, e).disk, w, sid) == Reduced(Queued(s.disk, w, sid), Note(s, e), w, sid)
    {
      if e.Act? {
        OtherActionQueue(s, e.action, w, sid);
      } else {
        OutsideQueue(s, e, w, sid);
      }
    }
    ReducedAgrees(s.disk, Next(s, e).disk, log, Note(s, e));
  }

  lemma NextAgrees(s: Chat, log: seq<Entry>, e: Event)
    requires Agrees(s, log) && (e.Act? ==> MirrorsQueues(s))
    ensures Agrees(Next(s, e), log + [Note(s, e)])
  {
    if e.Act? && e.action.EnqueuePendingSendRestore? {
      EnqueueAgrees(s, log, e.action.restore);
    } else {
      ReducingEventAgrees(s, log, e);
    }
  }

  lemma FreshStart(slug: string)
    ensures MirrorsQueues(Load(map[], slug)) && Agrees(Load(map[], slug), [])
  {
    LoadMirrors(map[], slug);
  }

  // ----- which logouts keep the queues

  /** A logout that lists the current workspace, or finds no queue there. Drafts, uploads and the ledger are of no
      concern here. */
  ghost predicate QueuesCovered(s: Chat, e: Event) {
    e.LogOut? ==> Listed(s, e.slugs) || ReloadedQueues(s.queues) == map[]
  }

  /** An event that reads a workspace's keys again. */
  ghost predicate Rereads(s: Chat, e: Event) {
    e.Reload? || (e.SwitchTo? && e.slug != s.slug)
  }

  lemma RereadMirrors(s: Chat, e: Event)
    requires Rereads(s, e)
    ensures MirrorsQueues(Next(s, e))
  {
    LoadMirrors(s.disk, e.slug);
  }

  lemma NextMirrorsQueues(s: Chat, e: Event)
    requires MirrorsQueues(s)
    ensures MirrorsQueues(Next(s, e)) <==> QueuesCovered(s, e)
  {
    match e
    case Act(a) => StepMirrorsQueues(s, a);
    case SwitchTo(slug) => LoadMirrors(s.disk, slug);
    case Reload(slug) => LoadMirrors(s.disk, slug);
    case LogOut(slugs) =>
      if Listed(s, slugs) {
        assert Logout(s, slugs).OnDisk(QueuesField) == None;
      }
  }

  /** Every logout of the run is covered, or followed at once by an event that reads the keys again: a sign-out leaves
      the workspace, which is such an event. */
  ghost predicate SettledRun(s: Chat, events: seq<Event>)
    decreases |events|
  {
    events == []
    || ((QueuesCovered(s, events[0]) || (|events| > 1 && Rereads(s, events[1])))
        && SettledRun(Next(s, events[0]), events[1..]))
  }

  /** Over every such run, for every workspace and session, the stored queue is exactly the accepted restores that have
      been neither dequeued nor wiped by a logout, oldest first. */
  lemma {:induction false} SettledRunKeepsQueues(s: Chat, log: seq<Entry>, events: seq<Event>)
    requires Agrees(s, log) && SettledRun(s, events)
    requires MirrorsQueues(s) || (events != [] && Rereads(s, events[0]))
    ensures Agrees(Run(s, events), log + LogOf(s, events))
    ensures MirrorsQueues(Run(s, events))
    decreases |events|
  {
    if events == [] {
      assert log + LogOf(s, events) == log;
    } else {
      var e, rest := events[0], events[1..];
      NextAgrees(s, log, e);
      if Rereads(s, e) {
        RereadMirrors(s, e);
      } else {
        NextMirrorsQueues(s, e);
      }
      SettledRunKeepsQueues(Next(s, e), log + [Note(s, e)], rest);
      ConcatAssociates(log, [Note(s, e)], LogOf(Next(s, e), rest));
    }
  }

  /** The composer sees the same: the queue in memory is the stored one, up to a missing attachment list. */
  lemma MemoryShowsTheQueue(s: Chat, log: seq<Entry>, sid: string)
    requires MirrorsQueues(s) && Agrees(s, log)
    ensures ReloadedQueue(Lookup(s.queues, sid)) == Expected(log, |log|, s.slug, sid)
  {
    ReloadedLookup(s.queues, sid);
    assert Queued(s.disk, s.slug, sid) == Expected(log, |log|, s.slug, sid);
  }

  // ----- a logout that does not list the current workspace

  lemma EnqueueStored(t: Chat, r: PendingSendRestore)
    requires t.queues == map[] && r.sessionId != "" && r.id != ""
    ensures t.Step(EnqueuePendingSendRestore(r)).OnDisk(QueuesField) == QueuesBlob(map[r.sessionId := [r]])
  {
    var a := EnqueuePendingSendRestore(r);
    assert Lookup(t.queues, r.sessionId) == [] && [] + [r] == [r];
    assert t.Effect(a).queues == Some(map[r.sessionId := [r]]);
    assert t.Step(a) == t.Commit(t.Effect(a));
    CommitOnDisk(t, t.Effect(a));
  }

  lemma OneQueueStored(r: PendingSendRestore, sid: string)
    ensures Lookup(QueuesOf(QueuesBlob(map[r.sessionId := [r]])), sid)
         == if sid == r.sessionId then [ReloadedRestore(r)] else []
  {
    var q: Queues := map[r.sessionId := [r]];
    QueuesRoundTrip(q);
    ReloadedLookup(q, sid);
    assert ReloadedQueue([r]) == [ReloadedRestore(r)];
  }

  /** It leaves the stored queues, but the next enqueue writes memory over them: only the new restore is left. */
  lemma UnlistedLogoutLosesQueues(s: Chat, slugs: set<string>, r: PendingSendRestore, sid: string)
    requires !Listed(s, slugs) && r.sessionId != "" && r.id != ""
    ensures var t := Logout(s, slugs);
            && Queued(t.disk, s.slug, sid) == Queued(s.disk, s.slug, sid)
            && Queued(t.Step(EnqueuePendingSendRestore(r)).disk, s.slug, sid)
               == if sid == r.sessionId then [ReloadedRestore(r)] else []
  {
    var t := Logout(s, slugs);
    LogoutQueue(s, slugs, s.slug, sid);
    EnqueueStored(t, r);
    StepIsolated(t, EnqueuePendingSendRestore(r));
    OneQueueStored(r, sid);
  }

  lemma StillExpected(log: seq<Entry>, slugs: set<string>, slug: string, r: PendingSendRestore, sid: string)
    requires (slug == "" || slug !in slugs) && sid != r.sessionId
    ensures var grown := log + [Wiped(slugs)] + [Entered(slug, r)];
            Expected(grown, |grown|, slug, sid) == Expected(log, |log|, slug, sid)
  {
    ExpectedGrown(log, Wiped(slugs), slug, sid);
    ExpectedEntered(log + [Wiped(slugs)], slug, r, slug, sid);
  }

  /** So a waiting restore of another session is gone although nothing dequeued or wiped it. */
  lemma UnlistedLogoutDisagrees(s: Chat, log: seq<Entry>, slugs: set<string>, r: PendingSendRestore, sid: string)
    requires !Listed(s, slugs) && r.sessionId != "" && r.id != ""
    requires sid != r.sessionId && Expected(log, |log|, s.slug, sid) != []
    ensures !Agrees(Logout(s, slugs).Step(EnqueuePendingSendRestore(r)),
                    log + [Wiped(slugs)] + [Entered(s.slug, r)])
  {
    StillExpected(log, slugs, s.slug, r, sid);
    UnlistedLogoutLosesQueues(s, slugs, r, sid);
  }

  /** Whatever follows, as long as its own logouts are settled, the stored queues are the expected ones. */
  ghost predicate KeepsEveryRestore(s: Chat, log: seq<Entry>) {
    forall events :: SettledRun(s, events) ==> Agrees(Run(s, events), log + LogOf(s, events))
  }

  lemma KeptQueuesAgree(t: Chat, log: seq<Entry>, r: PendingSendRestore)
    requires KeepsEveryRestore(t, log)
    ensures Agrees(t.Step(EnqueuePendingSendRestore(r)), log + [Entered(t.slug, r)])
  {
    var e := Act(EnqueuePendingSendRestore(r));
    assert SettledRun(t, [e]) by {
      assert [e][1..] == [];
    }
    assert Run(t, [e]) == t.Step(EnqueuePendingSendRestore(r)) && LogOf(t, [e]) == [Entered(t.slug, r)];
  }

  /** A queue that an uncovered logout finds, and a restore of another session. */
  lemma UncoveredLogoutLosesOne(s: Chat, log: seq<Entry>, slugs: set<string>)
    requires MirrorsQueues(s) && Agrees(s, log) && !QueuesCovered(s, LogOut(slugs))
    ensures !KeepsEveryRestore(Logout(s, slugs), log + [Wiped(slugs)])
  {
    var sid :| sid in ReloadedQueues(s.queues);
    StoredQueue(s, sid);
    assert Queued(s.disk, s.slug, sid) != [] && Queued(s.disk, s.slug, sid) == Expected(log, |log|, s.slug, sid);
    var r := PendingSendRestore("r", "", None, sid + "'");
    UnlistedLogoutDisagrees(s, log, slugs, r, sid);
    if KeepsEveryRestore(Logout(s, slugs), log + [Wiped(slugs)]) {
      KeptQueuesAgree(Logout(s, slugs), log + [Wiped(slugs)], r);
      assert false;
    }
  }

  /** Exact condition: no run after an event can lose, reorder or repeat a restore if and only if it is covered. */
  lemma NextKeepsExactly(s: Chat, log: seq<Entry>, e: Event)
    requires MirrorsQueues(s) && Agrees(s, log)
    ensures KeepsEveryRestore(Next(s, e), log + [Note(s, e)]) <==> QueuesCovered(s, e)
  {
    var t, grown := Next(s, e), log + [Note(s, e)];
    if QueuesCovered(s, e) {
      NextMirrorsQueues(s, e);
      NextAgrees(s, log, e);
      forall events | SettledRun(t, events) ensures Agrees(Run(t, events), grown + LogOf(t, events)) {
        SettledRunKeepsQueues(t, grown, events);
      }
    } else {
      UncoveredLogoutLosesOne(s, log, e.slugs);
    }
  }

  ghost predicate QueuesCoveredRun(s: Chat, events: seq<Event>)
    decreases |events|
  {
    events == [] || (QueuesCovered(s, events[0]) && QueuesCoveredRun(Next(s, events[0]), events[1..]))
  }

  ghost predicate KeepsEveryRestoreThroughout(s: Chat, log: seq<Entry>, events: seq<Event>)
    decreases |events|
  {
    events == []
    || (KeepsEveryRestore(Next(s, events[0]), log + [Note(s, events[0])])
        && KeepsEveryRestoreThroughout(Next(s, events[0]), log + [Note(s, events[0])], events[1..]))
  }

  /** Over whole runs: after no event can a later run lose, reorder or repeat a restore if and only if every logout
      lists the current workspace or finds no queue there. */
  lemma {:induction false} QueuesKeepEveryRestore(s: Chat, log: seq<Entry>, events: seq<Event>)
    requires MirrorsQueues(s) && Agrees(s, log)
    ensures KeepsEveryRestoreThroughout(s, log, events) <==> QueuesCoveredRun(s, events)
    decreases |events|
  {
    if events != [] {
      NextKeepsExactly(s, log, events[0]);
      if QueuesCovered(s, events[0]) {
        NextMirrorsQueues(s, events[0]);
        NextAgrees(s, log, events[0]);
        QueuesKeepEveryRestore(Next(s, events[0]), log + [Note(s, events[0])], events[1..]);
      }
    }
  }

  // ----- in memory no empty queue is kept

  ghost predicate NoEmptyQueue(s: Chat) {
    forall k :: k in s.queues ==> s.queues[k] != []
  }

  lemma NextKeepsNoEmptyQueue(s: Chat, e: Event)
    requires NoEmptyQueue(s)
    ensures NoEmptyQueue(Next(s, e))
  {
    if e.Act? {
      if e.action.EnqueuePendingSendRestore? {
        EnqueueEffect(s, e.action.restore);
      } else if !e.action.DequeuePendingSendRestore? {
        OnlyQueueActionsQueue(s, e.action);
      }
    }
  }

  lemma {:induction false} RunKeepsNoEmptyQueue(s: Chat, events: seq<Event>)
    requires NoEmptyQueue(s)
    ensures NoEmptyQueue(Run(s, events))
    decreases |events|
  {
    if events != [] {
      NextKeepsNoEmptyQueue(s, events[0]);
      RunKeepsNoEmptyQueue(Next(s, events[0]), events[1..]);
    }
  }
}
