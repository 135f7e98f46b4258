/** Recently visited issues and projects: a bounded list for each of a bounded number of workspaces. */
module RecentContexts {
  import opened Basics

  const MAX_RECENT_CONTEXTS := 20
  const MAX_WORKSPACES := 50

  datatype Kind = Issue | Project

  datatype Details = Details(title: Option<string>, subtitle: Option<string>, status: Option<string>,
                             projectStatus: Option<string>, icon: Option<string>)

  datatype Entry = Entry(kind: Kind, id: string, details: Details, visitedAt: int)

  type Buckets = map<string, seq<Entry>>

  datatype Key = Key(kind: Kind, id: string)

  function KeyOf(e: Entry): Key {
    Key(e.kind, e.id)
  }

  /** The text the store compares. */
  function EntryKey(k: Key): string {
    (if k.kind == Issue then "issue" else "project") + ":" + k.id
  }

  /** Comparing the texts is comparing kind and id, so the keys below stay pairs. */
  lemma EntryKeyIdentifies(a: Key, b: Key)
    ensures EntryKey(a) == EntryKey(b) <==> a == b
  {
    if EntryKey(a) == EntryKey(b) {
      assert EntryKey(a)[0] == EntryKey(b)[0];
      var n := if a.kind == Issue then 6 else 8;
      assert EntryKey(a)[n..] == a.id && EntryKey(b)[n..] == b.id;
    }
  }

  function WithoutKey(s: seq<Entry>, key: Key): (r: seq<Entry>)
    ensures forall x :: x in r <==> x in s && KeyOf(x) != key
  {
    if s == [] then []
    else if KeyOf(s[0]) == key then WithoutKey(s[1..], key)
    else [s[0]] + WithoutKey(s[1..], key)
  }

  function Bucket(m: Buckets, wsId: string): seq<Entry> {
    if wsId in m then m[wsId] else []
  }

  /** The first twenty. */
  function Trimmed(s: seq<Entry>): seq<Entry> {
    if |s| > MAX_RECENT_CONTEXTS then s[..MAX_RECENT_CONTEXTS] else s
  }

  function Bumped(s: seq<Entry>, e: Entry): seq<Entry> {
    Trimmed([e] + WithoutKey(s, KeyOf(e)))
  }

  function Front(m: Buckets, wsId: string, e: Entry): Buckets {
    m[wsId := Bumped(Bucket(m, wsId), e)]
  }

  /** The time a workspace was last visited, as the eviction reads it. */
  function HeadTime(m: Buckets, wsId: string): int {
    if wsId in m && m[wsId] != [] then m[wsId][0].visitedAt else 0
  }

  /** `ids` is `Object.keys`: every key once, in whatever order the engine lists them. */
  ghost predicate Lists(ids: seq<string>, m: Buckets) {
    && Distinct(ids)
    && forall w :: w in ids <==> w in m
  }

  function Oldest(m: Buckets, ids: seq<string>): (w: string)
    requires ids != []
    ensures w in ids && forall x :: x in ids ==> HeadTime(m, w) <= HeadTime(m, x)
  {
    if |ids| == 1 then ids[0]
    else
      var w := Oldest(m, ids[..|ids| - 1]);
      var candidate := ids[|ids| - 1];
      if HeadTime(m, candidate) < HeadTime(m, w) then candidate else w
  }

  function Evicted(next: Buckets, ids: seq<string>): Buckets
    requires ids != []
  {
    if |next| > MAX_WORKSPACES then next - {Oldest(next, ids)} else next
  }

  function Recorded(m: Buckets, wsId: string, e: Entry, ids: seq<string>): Buckets
    requires ids != []
  {
    Evicted(Front(m, wsId, e), ids)
  }

  function Forgotten(m: Buckets, wsId: string, key: Key): Buckets {
    if wsId !in m then m
    else
      var nextBucket := WithoutKey(m[wsId], key);
      if |nextBucket| == |m[wsId]| then m
      else if nextBucket == [] then m - {wsId}
      else m[wsId := nextBucket]
  }

  function Pruned(m: Buckets, active: set<string>): Buckets {
    map w | w in m && w in active :: m[w]
  }

  class RecentContextStore {
    var byWorkspace: Buckets

    constructor ()
      ensures byWorkspace == map[]
    {
      byWorkspace := map[];
    }

    static method FindOldest(next: Buckets, ids: seq<string>) returns (oldest: string)
      requires ids != []
      ensures oldest == Oldest(next, ids)
    {
      oldest := ids[0];
      for i := 1 to |ids|
        invariant oldest == Oldest(next, ids[..i])
      {
        assert ids[..i + 1][..i] == ids[..i];
        if HeadTime(next, ids[i]) < HeadTime(next, oldest) {
          oldest := ids[i];
        }
      }
      assert ids[..|ids|] == ids;
    }

    /** `entry.visitedAt` is the clock's reading. */
    method RecordVisit(wsId: string, entry: Entry, ids: seq<string>)
      requires Lists(ids, Front(byWorkspace, wsId, entry))
      modifies this
      ensures ids != [] && byWorkspace == Recorded(old(byWorkspace), wsId, entry, ids)
    {
      var bucket := Bucket(byWorkspace, wsId);
      var filtered := WithoutKey(bucket, KeyOf(entry));
      var nextByWorkspace := byWorkspace[wsId := Trimmed([entry] + filtered)];
      assert wsId in ids;
      if |nextByWorkspace| > MAX_WORKSPACES {
        var oldest := FindOldest(nextByWorkspace, ids);
        nextByWorkspace := nextByWorkspace - {oldest};
      }
      byWorkspace := nextByWorkspace;
    }

    method ForgetContext(wsId: string, entry: Entry)
      modifies this
      ensures byWorkspace == Forgotten(old(byWorkspace), wsId, KeyOf(entry))
    {
      if wsId !in byWorkspace {
        return;
      }
      var bucket := byWorkspace[wsId];
      var nextBucket := WithoutKey(bucket, KeyOf(entry));
      if |nextBucket| == |bucket| {
        return;
      }
      if |nextBucket| == 0 {
        byWorkspace := byWorkspace - {wsId};
        return;
      }
      byWorkspace := byWorkspace[wsId := nextBucket];
    }

    method PruneWorkspaces(activeWsIds: seq<string>)
      modifies this
      ensures byWorkspace == Pruned(old(byWorkspace), set w | w in activeWsIds)
    {
      var allow := set w | w in activeWsIds;
      var changed := false;
      var next: Buckets := map[];
      var rest := byWorkspace.Keys;
      while rest != {}
        invariant rest <= byWorkspace.Keys
        invariant next == Pruned(byWorkspace, allow * (byWorkspace.Keys - rest))
        invariant !changed ==> next.Keys == byWorkspace.Keys - rest
      {
        var w :| w in rest;
        if w in allow {
          next := next[w := byWorkspace[w]];
        } else {
          changed := true;
        }
        rest := rest - {w};
      }
      assert next == Pruned(byWorkspace, allow);
      if changed {
        byWorkspace := next;
      } else {
        assert next == byWorkspace;
      }
    }
  }

  // ----- runs

  datatype Event =
    | Visit(wsId: string, entry: Entry, ids: seq<string>)
    | Forget(wsId: string, entry: Entry)
    | Prune(active: set<string>)

  ghost predicate Enabled(m: Buckets, e: Event) {
    e.Visit? ==> Lists(e.ids, Front(m, e.wsId, e.entry))
  }

  ghost function Next(m: Buckets, e: Event): Buckets
    requires Enabled(m, e)
  {
    match e
    case Visit(wsId, entry, ids) =>
      assert wsId in ids;
      Recorded(m, wsId, entry, ids)
    case Forget(wsId, entry) => Forgotten(m, wsId, KeyOf(entry))
    case Prune(active) => Pruned(m, active)
  }

  ghost predicate Runs(events: seq<Event>)
    decreases |events|, 0
  {
    events != [] ==> Runs(events[..|events| - 1]) && Enabled(Run(events[..|events| - 1]), events[|events| - 1])
  }

  ghost function Run(events: seq<Event>): Buckets
    requires Runs(events)
    decreases |events|, 1
  {
    if events == [] then map[] else Next(Run(events[..|events| - 1]), events[|events| - 1])
  }

  // ----- bounds, whatever the clock does

  ghost predicate KeysDistinct(s: seq<Entry>) {
    forall i, j :: 0 <= i < j < |s| ==> KeyOf(s[i]) != KeyOf(s[j])
  }

  ghost predicate Sound(s: seq<Entry>) {
    0 < |s| <= MAX_RECENT_CONTEXTS && KeysDistinct(s)
  }

  ghost predicate Bounded(m: Buckets) {
    && |m| <= MAX_WORKSPACES
    && forall w :: w in m ==> Sound(m[w])
  }

  lemma {:induction false} WithoutKeyShrinks(s: seq<Entry>, key: Key)
    ensures |WithoutKey(s, key)| <= |s|
    ensures |WithoutKey(s, key)| == |s| ==> WithoutKey(s, key) == s
  {
    if s != [] {
      WithoutKeyShrinks(s[1..], key);
    }
  }

  lemma ConsDistinct(e: Entry, rest: seq<Entry>)
    requires KeysDistinct(rest) && forall x :: x in rest ==> KeyOf(x) != KeyOf(e)
    ensures KeysDistinct([e] + rest)
  {
    assert forall i :: 0 <= i < |rest| ==> rest[i] in rest;
  }

  lemma {:induction false} WithoutKeyDistinct(s: seq<Entry>, key: Key)
    requires KeysDistinct(s)
    ensures KeysDistinct(WithoutKey(s, key)) && |s| - 1 <= |WithoutKey(s, key)|
    ensures (forall x :: x in s ==> KeyOf(x) != key) ==> WithoutKey(s, key) == s
  {
    if s != [] {
      WithoutKeyDistinct(s[1..], key);
      WithoutKeyShrinks(s[1..], key);
      if KeyOf(s[0]) != key {
        ConsDistinct(s[0], WithoutKey(s[1..], key));
      }
    }
  }

  lemma BumpedSound(s: seq<Entry>, e: Entry)
    requires KeysDistinct(s)
    ensures Sound(Bumped(s, e)) && Bumped(s, e)[0] == e
  {
    WithoutKeyShrinks(s, KeyOf(e));
    WithoutKeyDistinct(s, KeyOf(e));
    ConsDistinct(e, WithoutKey(s, KeyOf(e)));
  }

  lemma FrontSound(m: Buckets, wsId: string, e: Entry)
    requires Bounded(m)
    ensures Front(m, wsId, e).Keys == m.Keys + {wsId}
    ensures forall w :: w in Front(m, wsId, e) ==> Sound(Front(m, wsId, e)[w])
    ensures Front(m, wsId, e)[wsId][0] == e
  {
    BumpedSound(Bucket(m, wsId), e);
  }

  lemma RemovedSize(m: Buckets, w: string)
    requires w in m
    ensures (m - {w}).Keys == m.Keys - {w} && |m - {w}| == |m| - 1
  {
    assert (m - {w}).Keys == m.Keys - {w};
  }

  /** Twenty distinct entries at most, none empty, in fifty workspaces at most: kept by every operation. */
  lemma NextBounded(m: Buckets, e: Event)
    requires Bounded(m) && Enabled(m, e)
    ensures Bounded(Next(m, e))
  {
    if e.Visit? {
      var next := Front(m, e.wsId, e.entry);
      FrontSound(m, e.wsId, e.entry);
      assert e.wsId in e.ids;
      if |next| > MAX_WORKSPACES {
        RemovedSize(next, Oldest(next, e.ids));
      }
    } else if e.Forget? {
      ForgottenBounded(m, e.wsId, KeyOf(e.entry));
    } else {
      assert Pruned(m, e.active).Keys <= m.Keys;
      SubsetSize(Pruned(m, e.active).Keys, m.Keys);
    }
  }

  lemma ForgottenBounded(m: Buckets, wsId: string, key: Key)
    requires Bounded(m)
    ensures Bounded(Forgotten(m, wsId, key))
  {
    if wsId in m {
      var n := WithoutKey(m[wsId], key);
      WithoutKeyShrinks(m[wsId], key);
      WithoutKeyDistinct(m[wsId], key);
      RemovedSize(m, wsId);
      assert m[wsId := n].Keys == m.Keys;
    }
  }

  lemma {:induction false} SubsetSize(a: set<string>, b: set<string>)
    requires a <= b
    ensures |a| <= |b|
  {
    if a != {} {
      var x :| x in a;
      SubsetSize(a - {x}, b - {x});
    }
  }

  lemma {:induction false} RunBounded(events: seq<Event>)
    requires Runs(events)
    ensures Bounded(Run(events))
  {
    if events != [] {
      RunBounded(events[..|events| - 1]);
      NextBounded(Run(events[..|events| - 1]), events[|events| - 1]);
    }
  }

  // ----- against the whole history

  /** Every entry by its latest visit, unbounded, without those forgotten since. */
  function Recency(events: seq<Event>, wsId: string): seq<Entry> {
    if events == [] then []
    else
      var e, earlier := events[|events| - 1], Recency(events[..|events| - 1], wsId);
      if e.Prune? || e.wsId != wsId then earlier
      else if e.Visit? then [e.entry] + WithoutKey(earlier, KeyOf(e.entry))
      else WithoutKey(earlier, KeyOf(e.entry))
  }

  lemma {:induction false} WithoutKeyOfPrefix(a: seq<Entry>, b: seq<Entry>, key: Key)
    requires a <= b
    ensures WithoutKey(a, key) <= WithoutKey(b, key)
  {
    if a != [] {
      WithoutKeyOfPrefix(a[1..], b[1..], key);
    }
  }

  lemma BumpedPrefix(s: seq<Entry>, full: seq<Entry>, e: Entry)
    requires s <= full
    ensures Bumped(s, e) <= [e] + WithoutKey(full, KeyOf(e))
  {
    WithoutKeyOfPrefix(s, full, KeyOf(e));
    assert [e] + WithoutKey(s, KeyOf(e)) <= [e] + WithoutKey(full, KeyOf(e));
  }

  lemma ForgottenBucket(m: Buckets, wsId: string, key: Key, other: string)
    ensures Bucket(Forgotten(m, wsId, key), other)
         == if other == wsId then WithoutKey(Bucket(m, wsId), key) else Bucket(m, other)
  {
    if wsId in m {
      WithoutKeyShrinks(m[wsId], key);
    }
  }

  /** Over every run, evictions and prunings included: a bucket is the newest stretch of its workspace's full
      recency order, with no gap. */
  lemma {:induction false} BucketIsNewestStretch(events: seq<Event>, wsId: string)
    requires Runs(events)
    ensures Bucket(Run(events), wsId) <= Recency(events, wsId)
  {
    if events != [] {
      var init, e := events[..|events| - 1], events[|events| - 1];
      BucketIsNewestStretch(init, wsId);
      if e.Visit? {
        assert e.wsId in e.ids;
        BumpedPrefix(Bucket(Run(init), wsId), Recency(init, wsId), e.entry);
      } else if e.Forget? {
        ForgottenBucket(Run(init), e.wsId, KeyOf(e.entry), wsId);
        WithoutKeyOfPrefix(Bucket(Run(init), wsId), Recency(init, wsId), KeyOf(e.entry));
      }
    }
  }

  ghost predicate OnlyVisits(events: seq<Event>) {
    forall e :: e in events ==> e.Visit?
  }

  function Visited(events: seq<Event>): set<string> {
    if events == [] then {}
    else Visited(events[..|events| - 1]) + if events[|events| - 1].Visit? then {events[|events| - 1].wsId} else {}
  }

  lemma BumpedNewest(full: seq<Entry>, e: Entry)
    requires KeysDistinct(full)
    ensures Bumped(Trimmed(full), e) == Trimmed([e] + WithoutKey(full, KeyOf(e)))
  {
    var list := Trimmed(full);
    WithoutKeyOfPrefix(list, full, KeyOf(e));
    WithoutKeyDistinct(list, KeyOf(e));
    WithoutKeyDistinct(full, KeyOf(e));
    assert [e] + WithoutKey(list, KeyOf(e)) <= [e] + WithoutKey(full, KeyOf(e));
  }

  lemma {:induction false} RecencyDistinct(events: seq<Event>, wsId: string)
    ensures KeysDistinct(Recency(events, wsId))
  {
    if events != [] {
      var e, earlier := events[|events| - 1], Recency(events[..|events| - 1], wsId);
      RecencyDistinct(events[..|events| - 1], wsId);
      if !e.Prune? {
        WithoutKeyShrinks(earlier, KeyOf(e.entry));
        WithoutKeyDistinct(earlier, KeyOf(e.entry));
        ConsDistinct(e.entry, WithoutKey(earlier, KeyOf(e.entry)));
      }
    }
  }

  /** Then every visited workspace is kept. */
  lemma {:induction false} VisitedAreKept(events: seq<Event>)
    requires Runs(events) && OnlyVisits(events) && |Visited(events)| <= MAX_WORKSPACES
    ensures Run(events).Keys == Visited(events)
  {
    if events != [] {
      var init, e := events[..|events| - 1], events[|events| - 1];
      assert e in events && forall x :: x in init ==> x in events;
      SubsetSize(Visited(init), Visited(events));
      VisitedAreKept(init);
      assert e.wsId in e.ids;
      RoomForAll(Run(init), e.wsId, e.entry, e.ids, Visited(events));
    }
  }

  /** With at most fifty workspaces and nothing forgotten or pruned, a bucket is exactly the latest twenty. */
  lemma {:induction false} BucketIsLatestTwenty(events: seq<Event>, wsId: string)
    requires Runs(events) && OnlyVisits(events) && |Visited(events)| <= MAX_WORKSPACES
    ensures Bucket(Run(events), wsId) == Trimmed(Recency(events, wsId))
  {
    if events != [] {
      var init, e := events[..|events| - 1], events[|events| - 1];
      assert e in events && forall x :: x in init ==> x in events;
      SubsetSize(Visited(init), Visited(events));
      BucketIsLatestTwenty(init, wsId);
      VisitedAreKept(init);
      assert e.wsId in e.ids;
      RoomForAll(Run(init), e.wsId, e.entry, e.ids, Visited(events));
      RecencyDistinct(init, wsId);
      BumpedNewest(Recency(init, wsId), e.entry);
    }
  }

  lemma RoomForAll(m: Buckets, wsId: string, e: Entry, ids: seq<string>, all: set<string>)
    requires ids != [] && all == m.Keys + {wsId} && |all| <= MAX_WORKSPACES
    ensures Recorded(m, wsId, e, ids) == m[wsId := Bumped(Bucket(m, wsId), e)]
    ensures Recorded(m, wsId, e, ids).Keys == all
  {
    assert Front(m, wsId, e).Keys == all;
  }

  // ----- under a strictly increasing clock

  ghost predicate Clocked(events: seq<Event>) {
    forall i, j :: 0 <= i < j < |events| && events[i].Visit? && events[j].Visit?
      ==> events[i].entry.visitedAt < events[j].entry.visitedAt
  }

  /** Newest first, and all of it before a time. */
  ghost predicate Descending(s: seq<Entry>, time: int) {
    && (forall i, j :: 0 <= i < j < |s| ==> s[i].visitedAt > s[j].visitedAt)
    && forall x :: x in s ==> x.visitedAt < time
  }

  ghost predicate Apart(s: seq<Entry>, t: seq<Entry>) {
    forall x, y :: x in s && y in t ==> x.visitedAt != y.visitedAt
  }

  /** Newest first in every bucket, all of it before a time, and no time shared by two workspaces. */
  ghost predicate Ordered(m: Buckets, time: int) {
    && (forall w :: w in m ==> Descending(m[w], time))
    && forall v, w :: v in m && w in m && v != w ==> Apart(m[v], m[w])
  }

  lemma ConsDescending(e: Entry, rest: seq<Entry>)
    requires Descending(rest, e.visitedAt)
    ensures Descending([e] + rest, e.visitedAt + 1)
  {
    assert forall i :: 0 <= i < |rest| ==> rest[i] in rest;
  }

  lemma {:induction false} WithoutKeyDescending(s: seq<Entry>, key: Key, time: int)
    requires Descending(s, time)
    ensures Descending(WithoutKey(s, key), time)
  {
    if s != [] {
      WithoutKeyDescending(s[1..], key, s[0].visitedAt);
      if KeyOf(s[0]) != key {
        assert s[0] in s;
        ConsDescending(s[0], WithoutKey(s[1..], key));
      }
    }
  }

  lemma BumpedDescending(s: seq<Entry>, e: Entry)
    requires Descending(s, e.visitedAt)
    ensures Descending(Bumped(s, e), e.visitedAt + 1)
    ensures forall x :: x in Bumped(s, e) ==> x == e || x in s
  {
    WithoutKeyShrinks(s, KeyOf(e));
    WithoutKeyDescending(s, KeyOf(e), e.visitedAt);
    ConsDescending(e, WithoutKey(s, KeyOf(e)));
    assert forall x :: x in [e] + WithoutKey(s, KeyOf(e)) ==> x == e || x in s;
  }

  lemma BumpedApart(s: seq<Entry>, e: Entry, t: seq<Entry>)
    requires Descending(s, e.visitedAt) && Descending(t, e.visitedAt) && Apart(s, t)
    ensures Apart(Bumped(s, e), t) && Apart(t, Bumped(s, e))
  {
    BumpedDescending(s, e);
  }

  /** A new bucket fits in when it is in order itself and shares no time with the others. */
  lemma ReplacedOrdered(m: Buckets, wsId: string, s: seq<Entry>, time: int)
    requires forall w :: w in m && w != wsId ==> Descending(m[w], time) && Apart(s, m[w]) && Apart(m[w], s)
    requires forall v, w :: v in m && w in m && v != w && v != wsId && w != wsId ==> Apart(m[v], m[w])
    requires Descending(s, time)
    ensures Ordered(m[wsId := s], time)
  {
  }

  lemma FrontOrdered(m: Buckets, wsId: string, e: Entry)
    requires Ordered(m, e.visitedAt)
    ensures Ordered(Front(m, wsId, e), e.visitedAt + 1)
  {
    var bucket, s := Bucket(m, wsId), Bumped(Bucket(m, wsId), e);
    BumpedDescending(bucket, e);
    forall w | w in m && w != wsId
      ensures Descending(m[w], e.visitedAt + 1) && Apart(s, m[w]) && Apart(m[w], s)
    {
      BumpedApart(bucket, e, m[w]);
    }
    ReplacedOrdered(m, wsId, s, e.visitedAt + 1);
  }

  lemma PartApart(part: seq<Entry>, s: seq<Entry>, t: seq<Entry>)
    requires Apart(s, t) && forall x :: x in part ==> x in s
    ensures Apart(part, t) && Apart(t, part)
  {
  }

  /** Replacing a bucket by a descending part of it keeps the order. */
  lemma ShrunkOrdered(m: Buckets, wsId: string, part: seq<Entry>, time: int)
    requires Ordered(m, time) && wsId in m
    requires Descending(part, time) && forall x :: x in part ==> x in m[wsId]
    ensures Ordered(m[wsId := part], time)
  {
    forall w | w in m && w != wsId
      ensures Apart(part, m[w]) && Apart(m[w], part)
    {
      PartApart(part, m[wsId], m[w]);
    }
    ReplacedOrdered(m, wsId, part, time);
  }

  lemma ForgottenOrdered(m: Buckets, wsId: string, key: Key, time: int)
    requires Ordered(m, time)
    ensures Ordered(Forgotten(m, wsId, key), time)
  {
    if wsId in m {
      WithoutKeyShrinks(m[wsId], key);
      WithoutKeyDescending(m[wsId], key, time);
      ShrunkOrdered(m, wsId, WithoutKey(m[wsId], key), time);
    }
  }

  ghost predicate VisitsBefore(events: seq<Event>, time: int) {
    forall e :: e in events && e.Visit? ==> e.entry.visitedAt < time
  }

  lemma {:induction false} RunOrdered(events: seq<Event>, time: int)
    requires Runs(events) && Clocked(events) && VisitsBefore(events, time)
    ensures Ordered(Run(events), time)
  {
    if events != [] {
      var init, e := events[..|events| - 1], events[|events| - 1];
      assert e in events && forall x :: x in init ==> x in events;
      if e.Visit? {
        RunOrdered(init, e.entry.visitedAt);
        FrontOrdered(Run(init), e.wsId, e.entry);
        assert e.wsId in e.ids;
      } else {
        RunOrdered(init, time);
        if e.Forget? {
          ForgottenOrdered(Run(init), e.wsId, KeyOf(e.entry), time);
        }
      }
    }
  }

  lemma HeadsDiffer(m: Buckets, time: int, v: string, w: string)
    requires Ordered(m, time) && v in m && w in m && v != w && m[v] != [] && m[w] != []
    ensures HeadTime(m, v) != HeadTime(m, w)
  {
    assert Apart(m[v], m[w]);
    assert m[v][0] in m[v] && m[w][0] in m[w];
  }

  lemma OtherKey(s: set<string>, x: string)
    requires |s| > 1
    ensures exists y :: y in s && y != x
  {
    if forall y :: y in s ==> y == x {
      SubsetSize(s, {x});
    }
  }

  /** Its latest visit is older than every other workspace's. */
  ghost predicate Stalest(m: Buckets, w: string) {
    w in m && forall x :: x in m && x != w ==> HeadTime(m, w) < HeadTime(m, x)
  }

  ghost predicate AllSound(m: Buckets) {
    forall w :: w in m ==> Sound(m[w])
  }

  /** In an ordered store, what is evicted is strictly the stalest, whatever order the keys are listed in. */
  lemma EvictedIsStalest(next: Buckets, ids: seq<string>, time: int, x: string)
    requires AllSound(next) && Ordered(next, time) && Lists(ids, next) && ids != []
    requires x in next && x != Oldest(next, ids)
    ensures HeadTime(next, Oldest(next, ids)) < HeadTime(next, x)
  {
    var oldest := Oldest(next, ids);
    assert Sound(next[x]) && Sound(next[oldest]);
    HeadsDiffer(next, time, oldest, x);
  }

  lemma KeyOrderIsIrrelevant(next: Buckets, ids: seq<string>, other: seq<string>, time: int)
    requires AllSound(next) && Ordered(next, time)
    requires Lists(ids, next) && Lists(other, next) && ids != [] && other != []
    ensures Evicted(next, ids) == Evicted(next, other)
  {
    if Oldest(next, ids) != Oldest(next, other) {
      EvictedIsStalest(next, ids, time, Oldest(next, other));
      assert false;
    }
  }

  /** The visited workspace has the latest head, so the loop for the oldest never ends on it. */
  lemma OldestIsOther(m: Buckets, wsId: string, e: Entry, ids: seq<string>)
    requires Bounded(m) && Ordered(m, e.visitedAt) && Lists(ids, Front(m, wsId, e)) && ids != []
    requires |Front(m, wsId, e)| > MAX_WORKSPACES
    ensures Oldest(Front(m, wsId, e), ids) != wsId
  {
    var next := Front(m, wsId, e);
    FrontSound(m, wsId, e);
    OtherKey(next.Keys, wsId);
    var other :| other in next && other != wsId;
    assert Sound(m[other]);
    assert m[other][0] in m[other];
    assert HeadTime(next, other) < e.visitedAt == HeadTime(next, wsId);
  }

  lemma FrontHeads(m: Buckets, wsId: string, e: Entry, x: string)
    requires Bounded(m)
    ensures HeadTime(Front(m, wsId, e), x) == if x == wsId then e.visitedAt else HeadTime(m, x)
  {
    FrontSound(m, wsId, e);
  }

  lemma EvictedWhenFull(m: Buckets, next: Buckets, wsId: string, ids: seq<string>, time: int, w: string)
    requires |m| <= MAX_WORKSPACES && next.Keys == m.Keys + {wsId}
    requires AllSound(next) && Ordered(next, time) && Lists(ids, next) && ids != []
    requires |next| > MAX_WORKSPACES && w == Oldest(next, ids)
    ensures |m| == MAX_WORKSPACES && wsId !in m
    ensures forall x :: x in m && x != w ==> HeadTime(next, w) < HeadTime(next, x)
  {
    assert wsId in m ==> next.Keys == m.Keys;
    forall x | x in m && x != w
      ensures HeadTime(next, w) < HeadTime(next, x)
    {
      EvictedIsStalest(next, ids, time, x);
    }
  }

  lemma OverflowIsStalest(m: Buckets, wsId: string, e: Entry, ids: seq<string>)
    requires Bounded(m) && Ordered(m, e.visitedAt) && Lists(ids, Front(m, wsId, e)) && ids != []
    requires |Front(m, wsId, e)| > MAX_WORKSPACES
    ensures Oldest(Front(m, wsId, e), ids) != wsId && Stalest(m, Oldest(Front(m, wsId, e), ids))
    ensures |m| == MAX_WORKSPACES && wsId !in m
  {
    var next := Front(m, wsId, e);
    FrontSound(m, wsId, e);
    OldestIsOther(m, wsId, e, ids);
    FrontOrdered(m, wsId, e);
    EvictedWhenFull(m, next, wsId, ids, e.visitedAt + 1, Oldest(next, ids));
    forall x | x in m
      ensures HeadTime(next, x) == HeadTime(m, x)
    {
      FrontHeads(m, wsId, e, x);
    }
  }

  lemma EvictedFrom(m: Buckets, wsId: string, s: seq<Entry>, ids: seq<string>, w: string)
    requires ids != [] && |m| <= MAX_WORKSPACES
    requires var next := m[wsId := s];
             |next| > MAX_WORKSPACES ==> Oldest(next, ids) != wsId && Stalest(m, Oldest(next, ids))
    ensures var after := Evicted(m[wsId := s], ids);
            && Bucket(after, wsId) == s
            && (w in m && w != wsId && w in after ==> after[w] == m[w])
            && (w in m && w !in after <==> |m| == MAX_WORKSPACES && wsId !in m && Stalest(m, w))
  {
    var next := m[wsId := s];
    assert next.Keys == m.Keys + {wsId};
    assert wsId in m ==> next.Keys == m.Keys;
    assert wsId !in m ==> |next.Keys| == |m.Keys| + 1;
  }

  /** What a visit does to the other workspaces: nothing while there is room, else it evicts the one whose latest
      visit is the oldest; and its own bucket always keeps the visit in front. */
  lemma EvictsTheStalest(m: Buckets, wsId: string, e: Entry, ids: seq<string>, w: string)
    requires Bounded(m) && Ordered(m, e.visitedAt) && Lists(ids, Front(m, wsId, e)) && ids != []
    ensures Bucket(Recorded(m, wsId, e, ids), wsId) == Bumped(Bucket(m, wsId), e)
    ensures w in m && w != wsId && w in Recorded(m, wsId, e, ids) ==> Recorded(m, wsId, e, ids)[w] == m[w]
    ensures w in m && w !in Recorded(m, wsId, e, ids) <==> |m| == MAX_WORKSPACES && wsId !in m && Stalest(m, w)
  {
    if |Front(m, wsId, e)| > MAX_WORKSPACES {
      OverflowIsStalest(m, wsId, e, ids);
    }
    EvictedFrom(m, wsId, Bumped(Bucket(m, wsId), e), ids, w);
  }

  ghost predicate InFront(m: Buckets, e: Event)
    requires e.Visit?
  {
    Bucket(m, e.wsId) != [] && Bucket(m, e.wsId)[0] == e.entry
  }

  lemma VisitPutsInFront(m: Buckets, e: Event)
    requires Bounded(m) && e.Visit? && Ordered(m, e.entry.visitedAt) && Enabled(m, e)
    ensures Bucket(Next(m, e), e.wsId) == Bumped(Bucket(m, e.wsId), e.entry)
    ensures InFront(Next(m, e), e)
  {
    assert e.wsId in e.ids;
    EvictsTheStalest(m, e.wsId, e.entry, e.ids, e.wsId);
  }

  lemma RunUnappend(init: seq<Event>, e: Event)
    requires Runs(init + [e])
    ensures Runs(init) && Enabled(Run(init), e) && Run(init + [e]) == Next(Run(init), e)
  {
    assert (init + [e])[..|init|] == init;
  }

  lemma ClockedUnappend(init: seq<Event>, e: Event)
    requires Clocked(init + [e]) && e.Visit?
    ensures Clocked(init) && VisitsBefore(init, e.entry.visitedAt)
  {
    var events := init + [e];
    assert forall i :: 0 <= i < |init| ==> events[i] == init[i];
    assert events[|init|] == e;
  }

  lemma NextOrdered(m: Buckets, e: Event)
    requires e.Visit? && Ordered(m, e.entry.visitedAt) && Enabled(m, e)
    ensures Ordered(Next(m, e), e.entry.visitedAt + 1)
  {
    FrontOrdered(m, e.wsId, e.entry);
    assert e.wsId in e.ids;
  }

  /** Over every run with a strictly increasing clock, the workspace just visited is there with its visit in front,
      and every bucket is in visit order. */
  lemma VisitedIsInFront(earlier: seq<Event>, visit: Event)
    requires visit.Visit? && Runs(earlier + [visit]) && Clocked(earlier + [visit])
    ensures InFront(Run(earlier + [visit]), visit)
    ensures Ordered(Run(earlier + [visit]), visit.entry.visitedAt + 1)
  {
    RunUnappend(earlier, visit);
    ClockedUnappend(earlier, visit);
    RunBounded(earlier);
    RunOrdered(earlier, visit.entry.visitedAt);
    VisitPutsInFront(Run(earlier), visit);
    NextOrdered(Run(earlier), visit);
  }

  /** The reduction takes the first of the earliest, in the order the keys are listed. */
  lemma {:induction false} OldestIsFirst(m: Buckets, ids: seq<string>) returns (p: nat)
    requires ids != []
    ensures p < |ids| && ids[p] == Oldest(m, ids) && FirstEarliest(m, ids, p)
  {
    if |ids| == 1 {
      p := 0;
    } else {
      var init := ids[..|ids| - 1];
      p := OldestIsFirst(m, init);
      if HeadTime(m, ids[|ids| - 1]) < HeadTime(m, init[p]) {
        p := |ids| - 1;
      }
    }
  }

  /** A time no later than any other head, and earlier than the heads listed before place p. */
  ghost predicate Precedes(m: Buckets, ids: seq<string>, p: nat, time: int) {
    && (forall q :: 0 <= q < p && q < |ids| ==> time < HeadTime(m, ids[q]))
    && forall q :: p < q < |ids| ==> time <= HeadTime(m, ids[q])
  }

  ghost predicate FirstEarliest(m: Buckets, ids: seq<string>, p: nat)
    requires p < |ids|
  {
    Precedes(m, ids, p, HeadTime(m, ids[p]))
  }

  lemma FrontPrecedes(m: Buckets, wsId: string, e: Entry, ids: seq<string>, p: nat)
    requires Bounded(m) && Distinct(ids) && p < |ids| && ids[p] == wsId
    ensures FirstEarliest(Front(m, wsId, e), ids, p) <==> Precedes(m, ids, p, e.visitedAt)
  {
    forall q | 0 <= q < |ids|
      ensures HeadTime(Front(m, wsId, e), ids[q]) == if q == p then e.visitedAt else HeadTime(m, ids[q])
    {
      FrontHeads(m, wsId, e, ids[q]);
    }
  }

  lemma SelfEvicted(next: Buckets, ids: seq<string>, p: nat)
    requires Lists(ids, next) && p < |ids|
    ensures ids[p] !in Evicted(next, ids) <==> |next| > MAX_WORKSPACES && FirstEarliest(next, ids, p)
  {
    var q := OldestIsFirst(next, ids);
    assert ids[p] in ids;
    if FirstEarliest(next, ids, p) {
      assert p == q;
    }
  }

  /** With any clock, a visit evicts itself exactly when the store is full, its workspace is new, no other latest visit
      is earlier, and none is as early among the workspaces listed before it. */
  lemma SelfEvictedExactly(m: Buckets, wsId: string, e: Entry, ids: seq<string>, p: nat)
    requires Bounded(m) && Lists(ids, Front(m, wsId, e)) && p < |ids| && ids[p] == wsId
    ensures wsId !in Recorded(m, wsId, e, ids) <==>
            |m| == MAX_WORKSPACES && wsId !in m && Precedes(m, ids, p, e.visitedAt)
  {
    var next := Front(m, wsId, e);
    FrontSound(m, wsId, e);
    FrontPrecedes(m, wsId, e, ids, p);
    SelfEvicted(next, ids, p);
    assert wsId in m ==> next.Keys == m.Keys;
    assert wsId !in m ==> |next| == |m| + 1;
  }

  // ----- a run that evicts its own visit

  function Workspace(i: nat): string {
    seq(i, _ => 'w')
  }

  function Workspaces(n: nat): (ids: seq<string>)
    ensures |ids| == n && forall i :: 0 <= i < n ==> ids[i] == Workspace(i)
  {
    if n == 0 then [] else Workspaces(n - 1) + [Workspace(n - 1)]
  }

  function At(time: int): Entry {
    Entry(Issue, "1", Details(None, None, None, None, None), time)
  }

  /** One visit to each of the first n workspaces, at the times 1 to n. */
  function Visits(n: nat): seq<Event> {
    if n == 0 then [] else Visits(n - 1) + [Visit(Workspace(n - 1), At(n), Workspaces(n))]
  }

  /** A store that holds exactly the first n workspaces, all visited after time 0. */
  ghost predicate HoldsFirst(m: Buckets, n: nat) {
    && Lists(Workspaces(n), m) && |m| == n
    && forall w :: w in m ==> HeadTime(m, w) > 0
  }

  lemma WorkspacesDiffer(n: nat)
    ensures Distinct(Workspaces(n)) && Workspace(n) !in Workspaces(n)
    ensures Workspaces(n + 1) == Workspaces(n) + [Workspace(n)]
  {
    var ids := Workspaces(n);
    forall i, j | 0 <= i < j <= n ensures Workspace(i) != Workspace(j) {
      assert |Workspace(i)| == i && |Workspace(j)| == j;
    }
    assert |Workspaces(n + 1)[..n]| == n;
  }

  lemma FrontLists(m: Buckets, n: nat, e: Entry)
    requires Bounded(m) && HoldsFirst(m, n)
    ensures Workspace(n) !in m && Lists(Workspaces(n + 1), Front(m, Workspace(n), e))
    ensures |Front(m, Workspace(n), e)| == n + 1
  {
    WorkspacesDiffer(n);
    WorkspacesDiffer(n + 1);
    FrontSound(m, Workspace(n), e);
    assert Front(m, Workspace(n), e).Keys == m.Keys + {Workspace(n)};
  }

  lemma FrontHoldsMore(m: Buckets, n: nat, e: Entry)
    requires Bounded(m) && HoldsFirst(m, n) && e.visitedAt > 0
    ensures HoldsFirst(Front(m, Workspace(n), e), n + 1)
  {
    FrontLists(m, n, e);
    forall w | w in Front(m, Workspace(n), e) ensures HeadTime(Front(m, Workspace(n), e), w) > 0 {
      FrontHeads(m, Workspace(n), e, w);
    }
  }

  lemma VisitHoldsMore(m: Buckets, n: nat, e: Event)
    requires Bounded(m) && HoldsFirst(m, n) && n < MAX_WORKSPACES
    requires e == Visit(Workspace(n), At(n + 1), Workspaces(n + 1))
    ensures Enabled(m, e) && HoldsFirst(Next(m, e), n + 1)
  {
    FrontLists(m, n, e.entry);
    FrontHoldsMore(m, n, e.entry);
  }

  lemma EarlierThanAll(m: Buckets, n: nat, ids: seq<string>)
    requires HoldsFirst(m, n) && ids == Workspaces(n) + [Workspace(n)]
    ensures Precedes(m, ids, n, 0)
  {
    assert forall q :: 0 <= q < n ==> ids[q] == Workspaces(n)[q] && ids[q] in m;
  }

  lemma BackEvictsItself(m: Buckets, n: nat, e: Entry)
    requires Bounded(m) && HoldsFirst(m, n) && n == MAX_WORKSPACES && e.visitedAt == 0
    ensures Lists(Workspaces(n + 1), Front(m, Workspace(n), e))
    ensures Workspace(n) !in Recorded(m, Workspace(n), e, Workspaces(n + 1))
  {
    FrontLists(m, n, e);
    WorkspacesDiffer(n);
    EarlierThanAll(m, n, Workspaces(n + 1));
    SelfEvictedExactly(m, Workspace(n), e, Workspaces(n + 1), n);
  }

  lemma RunAppend(events: seq<Event>, e: Event)
    requires Runs(events) && Enabled(Run(events), e)
    ensures Runs(events + [e]) && Run(events + [e]) == Next(Run(events), e)
  {
    assert (events + [e])[..|events|] == events;
  }

  ghost predicate Reaches(events: seq<Event>, n: nat) {
    Runs(events) && HoldsFirst(Run(events), n)
  }

  lemma ReachesMore(events: seq<Event>, n: nat, e: Event, after: seq<Event>)
    requires Reaches(events, n) && n < MAX_WORKSPACES
    requires e == Visit(Workspace(n), At(n + 1), Workspaces(n + 1)) && after == events + [e]
    ensures Reaches(after, n + 1)
  {
    RunBounded(events);
    VisitHoldsMore(Run(events), n, e);
    RunAppend(events, e);
  }

  lemma NothingVisited()
    ensures Reaches([], 0)
  {
    assert Workspaces(0) == [];
  }

  lemma {:induction false} VisitsReach(n: nat)
    requires n <= MAX_WORKSPACES
    ensures Reaches(Visits(n), n)
  {
    if n == 0 {
      NothingVisited();
    } else {
      VisitsReach(n - 1);
      ReachesMore(Visits(n - 1), n - 1, Visit(Workspace(n - 1), At(n), Workspaces(n)), Visits(n));
    }
  }

  /** A run that fails: fifty workspaces are visited, then a new one while the clock reads an earlier time. */
  lemma ClockStepsBack(n: nat)
    requires n == MAX_WORKSPACES
    ensures var back := Visit(Workspace(n), At(0), Workspaces(n + 1));
            Runs(Visits(n) + [back]) && Workspace(n) !in Run(Visits(n) + [back])
  {
    VisitsReach(n);
    RunBounded(Visits(n));
    BackEvictsItself(Run(Visits(n)), n, At(0));
    RunAppend(Visits(n), Visit(Workspace(n), At(0), Workspaces(n + 1)));
  }

  /** A pruning keeps the active workspaces as they are and no other. */
  lemma PrunedExactly(m: Buckets, active: set<string>, w: string)
    ensures w in Pruned(m, active) <==> w in m && w in active
    ensures Bucket(Pruned(m, active), w) == if w in active then Bucket(m, w) else []
  {
  }
}
