/** Persisted chat state: key layout, stored blobs, and the read and write helpers of the chat store. */
module ChatStorage {
  import opened Basics
  import opened DraftUploads

  // ----- keys

  datatype Field = AgentField | ProjectField | SessionField
                 | DraftsField | AttachmentsField | AppliedField | QueuesField

  /** A key of the active workspace; the empty slug stands for "no workspace". */
  datatype Key = Key(field: Field, slug: string)

  function Base(f: Field): string {
    match f
    case AgentField => "multica:chat:selectedAgentId"
    case ProjectField => "multica:chat:selectedProjectId"
    case SessionField => "multica:chat:activeSessionId"
    case DraftsField => "multica:chat:drafts"
    case AttachmentsField => "multica:chat:draft-attachments"
    case AppliedField => "multica:chat:applied-draft-restores"
    case QueuesField => "multica:chat:pending-send-restores"
  }

  function KeyString(k: Key): string {
    if k.slug != "" then Base(k.field) + ":" + k.slug else Base(k.field)
  }

  /** Four characters tell the base keys apart, whatever follows them. */
  function Tag(s: string): (char, char, char, char)
    requires |s| >= 19
  {
    (s[13], s[14], s[18], if s[13] == 's' && |s| > 21 then s[21] else ' ')
  }

  lemma TagOfKey(k: Key)
    ensures |KeyString(k)| >= 19
    ensures Tag(KeyString(k)) == Tag(Base(k.field))
  {
    var b := Base(k.field);
    assert |b| >= 19 && (b[13] == 's' ==> |b| > 21);
    assert KeyString(k)[..|b|] == b;
    assert forall i :: 0 <= i < |b| ==> KeyString(k)[i] == b[i];
  }

  /** No slug, however odd, makes two fields or two workspaces share a storage key. */
  lemma KeyStringInjective(k: Key, l: Key)
    requires KeyString(k) == KeyString(l)
    ensures k == l
  {
    TagOfKey(k);
    TagOfKey(l);
    assert k.field == l.field;
    var b := Base(k.field);
    if k.slug != "" && l.slug != "" {
      assert KeyString(k)[|b| + 1..] == k.slug;
      assert KeyString(l)[|b| + 1..] == l.slug;
    }
  }

  // ----- blobs

  /** A restore with no server copy, waiting for its session's composer. */
  datatype PendingSendRestore = PendingSendRestore(id: string, content: string,
                                                   attachments: Option<seq<Attachment>>, sessionId: string)

  datatype StoredRestore =
    | RestoreEntry(id: string, content: string, sessionId: string, attachments: Option<seq<Option<Attachment>>>)
    | NotARestore

  datatype StoredSlot = SlotItems(uploads: seq<StoredUpload>) | SlotNotArray
  datatype StoredQueue = QueueItems(restores: seq<StoredRestore>) | QueueNotArray

  /** The value under one key. `Unusable` covers an empty string, text that is not JSON, and JSON of another shape. */
  datatype Blob =
    | Text(text: string)
    | DraftsJson(drafts: map<string, string>)
    | UploadsJson(slots: map<string, StoredSlot>)
    | IdsJson(ids: seq<Option<string>>)
    | QueuesJson(queues: map<string, StoredQueue>)
    | Unusable

  type Disk = map<Key, Blob>
  type Drafts = map<string, string>
  type Slots = map<string, seq<DraftUpload>>
  type Queues = map<string, seq<PendingSendRestore>>

  // ----- what reading yields

  function Get(d: Disk, k: Key): Option<Blob> {
    if k in d then Some(d[k]) else None
  }

  function TextOf(b: Option<Blob>): Option<string> {
    if b.Some? && b.value.Text? then Some(b.value.text) else None
  }

  function DraftsOf(b: Option<Blob>): Drafts {
    if b.Some? && b.value.DraftsJson? then b.value.drafts else map[]
  }

  function SlotOf(s: StoredSlot): seq<DraftUpload> {
    if s.SlotItems? then Normalize(s.uploads) else []
  }

  function SlotsOf(b: Option<Blob>): Slots {
    if b.Some? && b.value.UploadsJson? then
      var m := b.value.slots;
      map k | k in m && SlotOf(m[k]) != [] :: SlotOf(m[k])
    else map[]
  }

  function Known<T>(s: seq<Option<T>>): seq<T> {
    if s == [] then []
    else if s[0].Some? then [s[0].value] + Known(s[1..])
    else Known(s[1..])
  }

  function IdsOf(b: Option<Blob>): seq<string> {
    if b.Some? && b.value.IdsJson? then Known(b.value.ids) else []
  }

  function RestoreOf(r: StoredRestore): seq<PendingSendRestore> {
    match r
    case RestoreEntry(id, content, sessionId, attachments) =>
      [PendingSendRestore(id, content, Some(if attachments.Some? then Known(attachments.value) else []), sessionId)]
    case NotARestore => []
  }

  function RestoresOf(rs: seq<StoredRestore>): seq<PendingSendRestore> {
    if rs == [] then [] else RestoreOf(rs[0]) + RestoresOf(rs[1..])
  }

  function QueueOf(q: StoredQueue): seq<PendingSendRestore> {
    if q.QueueItems? then RestoresOf(q.restores) else []
  }

  function QueuesOf(b: Option<Blob>): Queues {
    if b.Some? && b.value.QueuesJson? then
      var m := b.value.queues;
      map k | k in m && QueueOf(m[k]) != [] :: QueueOf(m[k])
    else map[]
  }

  // ----- what writing leaves behind

  function PruneDrafts(m: Drafts): Drafts {
    map k | k in m && m[k] != "" :: m[k]
  }

  function PruneSlots<T>(m: map<string, seq<T>>): map<string, seq<T>> {
    map k | k in m && m[k] != [] :: m[k]
  }

  function StoredSlots(m: Slots): map<string, StoredSlot> {
    map k | k in m :: SlotItems(Stored(m[k]))
  }

  function Present<T>(s: seq<T>): (r: seq<Option<T>>)
    ensures |r| == |s| && forall i :: 0 <= i < |r| ==> r[i] == Some(s[i])
  {
    if s == [] then [] else [Some(s[0])] + Present(s[1..])
  }

  function StoredRestoreOf(r: PendingSendRestore): StoredRestore {
    RestoreEntry(r.id, r.content, r.sessionId,
                 if r.attachments.Some? then Some(Present(r.attachments.value)) else None)
  }

  function StoredRestores(q: seq<PendingSendRestore>): seq<StoredRestore> {
    if q == [] then [] else [StoredRestoreOf(q[0])] + StoredRestores(q[1..])
  }

  function StoredQueues(m: Queues): map<string, StoredQueue> {
    map k | k in m :: QueueItems(StoredRestores(m[k]))
  }

  function DraftsBlob(m: Drafts): Option<Blob> {
    if PruneDrafts(m) == map[] then None else Some(DraftsJson(PruneDrafts(m)))
  }

  function SlotsBlob(m: Slots): Option<Blob> {
    if PruneSlots(m) == map[] then None else Some(UploadsJson(StoredSlots(PruneSlots(m))))
  }

  function IdsBlob(ids: seq<string>): Option<Blob> {
    if ids == [] then None else Some(IdsJson(Present(ids)))
  }

  function QueuesBlob(m: Queues): Option<Blob> {
    if PruneSlots(m) == map[] then None else Some(QueuesJson(StoredQueues(PruneSlots(m))))
  }

  /** `setItem` for a value, `removeItem` for none. */
  function Put(d: Disk, k: Key, b: Option<Blob>): (r: Disk)
    ensures Get(r, k) == b
    ensures forall l :: l != k ==> Get(r, l) == Get(d, l)
  {
    match b
    case Some(v) => d[k := v]
    case None => d - {k}
  }

  // ----- what survives a write followed by a read

  /** A restore as the reader rebuilds it: a missing attachment list becomes an empty one. */
  function ReloadedRestore(r: PendingSendRestore): PendingSendRestore {
    r.(attachments := Some(r.attachments.GetOr([])))
  }

  function ReloadedQueue(q: seq<PendingSendRestore>): (r: seq<PendingSendRestore>)
    ensures |r| == |q| && forall i :: 0 <= i < |q| ==> r[i] == ReloadedRestore(q[i])
  {
    if q == [] then [] else [ReloadedRestore(q[0])] + ReloadedQueue(q[1..])
  }

  function SettledSlots(m: Slots): Slots {
    map k | k in m && Settled(m[k]) != [] :: Settled(m[k])
  }

  function ReloadedQueues(m: Queues): Queues {
    map k | k in m && m[k] != [] :: ReloadedQueue(m[k])
  }

  lemma DraftsRoundTrip(m: Drafts)
    ensures DraftsOf(DraftsBlob(m)) == PruneDrafts(m)
  {
  }

  /** What a reload makes of written uploads: `uploading` entries gone, empty slots gone, the rest intact. */
  lemma SlotsRoundTrip(m: Slots)
    ensures SlotsOf(SlotsBlob(m)) == SettledSlots(m)
  {
    var p, r, t := PruneSlots(m), SlotsOf(SlotsBlob(m)), SettledSlots(m);
    forall k
      ensures k in r <==> k in t
      ensures k in r ==> r[k] == t[k]
    {
      if k in p {
        NormalizeStored(m[k]);
      }
    }
    MapsEqual(r, t);
  }

  lemma MapsEqual<T>(r: map<string, T>, t: map<string, T>)
    requires forall k :: k in r <==> k in t
    requires forall k :: k in r ==> r[k] == t[k]
    ensures r == t
  {
    assert r.Keys == t.Keys;
  }

  lemma {:induction false} KnownPresent<T>(s: seq<T>)
    ensures Known(Present(s)) == s
  {
    if s != [] {
      KnownPresent(s[1..]);
      assert Present(s)[1..] == Present(s[1..]);
    }
  }

  lemma IdsRoundTrip(ids: seq<string>)
    ensures IdsOf(IdsBlob(ids)) == ids
  {
    KnownPresent(ids);
  }

  lemma {:induction false} RestoresRoundTrip(q: seq<PendingSendRestore>)
    ensures RestoresOf(StoredRestores(q)) == ReloadedQueue(q)
  {
    if q != [] {
      RestoresRoundTrip(q[1..]);
      if q[0].attachments.Some? {
        KnownPresent(q[0].attachments.value);
      }
      assert StoredRestores(q)[1..] == StoredRestores(q[1..]);
    }
  }

  /** Queues come back whole and in order; only a missing attachment list is filled in. */
  lemma QueuesRoundTrip(m: Queues)
    ensures QueuesOf(QueuesBlob(m)) == ReloadedQueues(m)
  {
    var p := PruneSlots(m);
    var st := StoredQueues(p);
    forall k | k in p
      ensures k in st && QueueOf(st[k]) == ReloadedQueue(m[k]) && QueueOf(st[k]) != []
    {
      RestoresRoundTrip(p[k]);
    }
    if p == map[] {
      assert ReloadedQueues(m) == map[] by {
        forall k | k in m ensures m[k] == [] {
          assert k !in p;
        }
      }
    } else {
      assert QueuesOf(QueuesBlob(m)) == map k | k in st && QueueOf(st[k]) != [] :: QueueOf(st[k]);
    }
  }

  /** Reading never yields anything a further write and read would change. */
  lemma ReadsAreStable(b: Option<Blob>)
    ensures SettledSlots(SlotsOf(b)) == SlotsOf(b)
    ensures ReloadedQueues(QueuesOf(b)) == QueuesOf(b)
  {
    var m := SlotsOf(b);
    forall k | k in m
      ensures Settled(m[k]) == m[k] != []
    {
      NormalizeIsSettled(b.value.slots[k].uploads);
    }
    var qs := QueuesOf(b);
    forall k | k in qs
      ensures ReloadedQueue(qs[k]) == qs[k] != []
    {
      RestoresAreReloaded(b.value.queues[k].restores);
      QueueFixed(qs[k]);
    }
  }

  lemma {:induction false} RestoresAreReloaded(rs: seq<StoredRestore>)
    ensures forall r :: r in RestoresOf(rs) ==> r.attachments.Some?
  {
    if rs != [] {
      RestoresAreReloaded(rs[1..]);
    }
  }

  lemma {:induction false} QueueFixed(q: seq<PendingSendRestore>)
    requires forall r :: r in q ==> r.attachments.Some?
    ensures ReloadedQueue(q) == q
  {
    if q != [] {
      QueueFixed(q[1..]);
    }
  }

  // ----- what is written

  /** A written blob holds every non-empty draft and no empty one; without any there is no blob. */
  lemma DraftsWritten(m: Drafts, k: string)
    ensures DraftsBlob(m) == None <==> forall x :: x in m ==> m[x] == ""
    ensures DraftsBlob(m).Some? ==> DraftsBlob(m).value.DraftsJson?
    ensures k in DraftsOf(DraftsBlob(m)) <==> k in m && m[k] != ""
    ensures k in DraftsOf(DraftsBlob(m)) ==> DraftsOf(DraftsBlob(m))[k] == m[k]
  {
    if PruneDrafts(m) == map[] {
      forall x | x in m ensures m[x] == "" {
        assert x !in PruneDrafts(m);
      }
    }
  }

  /** The same for slots and queues: an empty list is never written. */
  lemma ListsWritten<T>(m: map<string, seq<T>>, k: string)
    ensures k in PruneSlots(m) <==> k in m && m[k] != []
    ensures PruneSlots(m) == map[] <==> forall x :: x in m ==> m[x] == []
  {
    if PruneSlots(m) == map[] {
      forall x | x in m ensures m[x] == [] {
        assert x !in PruneSlots(m);
      }
    }
  }

  /** A reload changes nothing of a waiting restore but a missing attachment list, which becomes an empty one, and keeps
      a queue in order. */
  lemma ReloadedExactly(q: seq<PendingSendRestore>, i: nat)
    requires i < |q|
    ensures |ReloadedQueue(q)| == |q|
    ensures var r := ReloadedQueue(q)[i];
            && r.id == q[i].id && r.content == q[i].content && r.sessionId == q[i].sessionId
            && r.attachments == Some(if q[i].attachments == None then [] else q[i].attachments.value)
  {
  }
}
