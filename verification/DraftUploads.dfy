/** Persistable upload placeholders and their normalisation on load. */
module DraftUploads {
  import opened Basics

  datatype Attachment = Attachment(id: string, filename: string, url: string, downloadUrl: string,
                                   sizeBytes: int, contentType: string)

  datatype PendingStatus = Uploading | Failed | Interrupted

  datatype DraftUpload =
    | Pending(clientUploadId: string, filename: string, size: int, contentType: Option<string>,
              status: PendingStatus, error: Option<string>)
    | Uploaded(clientUploadId: string, filename: string, size: int, contentType: Option<string>,
               attachment: Attachment)
  {
    predicate InFlight() { Pending? && status == Uploading }
  }

  /** One element of a persisted uploads array, whichever build wrote it. */
  datatype StoredUpload =
    | Entry(upload: DraftUpload)
    | UploadedWithoutAttachment(clientUploadId: string)
    | Bare(attachment: Attachment)
    | Unrecognised

  /** A finished upload under a given id; the short-lived download URL is not kept. */
  function UploadedAs(id: string, a: Attachment): DraftUpload {
    Uploaded(id, a.filename, a.sizeBytes,
             if a.contentType != "" then Some(a.contentType) else None,
             a.(downloadUrl := ""))
  }

  function AttachmentToDraftUpload(a: Attachment): DraftUpload {
    UploadedAs(if a.id != "" then a.id else a.url, a)
  }

  function NormalizeOne(item: StoredUpload): seq<DraftUpload> {
    match item
    case Entry(u) => if u.InFlight() then [] else [u]
    case UploadedWithoutAttachment(_) => []
    case Bare(a) => [AttachmentToDraftUpload(a)]
    case Unrecognised => []
  }

  function Normalize(raw: seq<StoredUpload>): seq<DraftUpload> {
    if raw == [] then [] else NormalizeOne(raw[0]) + Normalize(raw[1..])
  }

  /** What an array of uploads looks like after it has been written out. */
  function Stored(uploads: seq<DraftUpload>): (raw: seq<StoredUpload>)
    ensures |raw| == |uploads| && forall i :: 0 <= i < |raw| ==> raw[i] == Entry(uploads[i])
  {
    if uploads == [] then [] else [Entry(uploads[0])] + Stored(uploads[1..])
  }

  /** The uploads that survive a reload: everything but the ones still in flight. */
  function Settled(uploads: seq<DraftUpload>): (r: seq<DraftUpload>)
    ensures forall u :: u in r <==> u in uploads && !u.InFlight()
  {
    if uploads == [] then []
    else if uploads[0].InFlight() then Settled(uploads[1..])
    else [uploads[0]] + Settled(uploads[1..])
  }

  lemma {:induction false} NormalizeAppend(a: seq<StoredUpload>, b: seq<StoredUpload>)
    ensures Normalize(a + b) == Normalize(a) + Normalize(b)
  {
    if a == [] {
      assert a + b == b;
    } else {
      NormalizeAppend(a[1..], b);
      assert (a + b)[0] == a[0] && (a + b)[1..] == a[1..] + b;
      ConcatAssociates(NormalizeOne(a[0]), Normalize(a[1..]), Normalize(b));
    }
  }

  /** Reading back what was written drops exactly the uploads in flight. */
  lemma {:induction false} NormalizeStored(uploads: seq<DraftUpload>)
    ensures Normalize(Stored(uploads)) == Settled(uploads)
  {
    if uploads != [] {
      NormalizeStored(uploads[1..]);
      assert Stored(uploads)[1..] == Stored(uploads[1..]);
    }
  }

  /** Loading is idempotent for every stored array: nothing is lost by a second load. */
  lemma {:induction false} NormalizeIsSettled(raw: seq<StoredUpload>)
    ensures Settled(Normalize(raw)) == Normalize(raw)
    ensures Normalize(Stored(Normalize(raw))) == Normalize(raw)
  {
    NoneInFlight(raw);
    SettledFixed(Normalize(raw));
    NormalizeStored(Normalize(raw));
  }

  lemma {:induction false} NoneInFlight(raw: seq<StoredUpload>)
    ensures forall u :: u in Normalize(raw) ==> !u.InFlight()
  {
    if raw != [] {
      NoneInFlight(raw[1..]);
    }
  }

  lemma {:induction false} SettledFixed(uploads: seq<DraftUpload>)
    requires forall u :: u in uploads ==> !u.InFlight()
    ensures Settled(uploads) == uploads
  {
    if uploads != [] {
      SettledFixed(uploads[1..]);
    }
  }

  method NormalizeStoredUploads(raw: seq<StoredUpload>) returns (out: seq<DraftUpload>)
    ensures out == Normalize(raw)
  {
    out := [];
    for i := 0 to |raw|
      invariant out == Normalize(raw[..i])
    {
      NormalizeAppend(raw[..i], [raw[i]]);
      assert raw[..i + 1] == raw[..i] + [raw[i]];
      match raw[i]
      case Entry(u) =>
        if !u.InFlight() {
          out := out + [u];
        }
      case UploadedWithoutAttachment(_) =>
      case Bare(a) => out := out + [AttachmentToDraftUpload(a)];
      case Unrecognised =>
    }
    assert raw[..|raw|] == raw;
  }

  // ----- the ids tracked by a slot

  function Ids(uploads: seq<DraftUpload>): (r: seq<string>)
    ensures |r| == |uploads|
    ensures forall i :: 0 <= i < |r| ==> r[i] == uploads[i].clientUploadId
  {
    if uploads == [] then [] else [uploads[0].clientUploadId] + Ids(uploads[1..])
  }

  predicate Tracks(uploads: seq<DraftUpload>, id: string) {
    exists i :: 0 <= i < |uploads| && uploads[i].clientUploadId == id
  }

  /** Every upload with the id replaced, in its place. */
  function ReplaceUpload(uploads: seq<DraftUpload>, id: string, v: DraftUpload): (r: seq<DraftUpload>)
    ensures |r| == |uploads|
    ensures forall i :: 0 <= i < |r| ==> r[i] == if uploads[i].clientUploadId == id then v else uploads[i]
  {
    if uploads == [] then []
    else [if uploads[0].clientUploadId == id then v else uploads[0]] + ReplaceUpload(uploads[1..], id, v)
  }

  /** Every upload with the id left out. */
  function DropUpload(uploads: seq<DraftUpload>, id: string): (r: seq<DraftUpload>)
    ensures forall u :: u in r <==> u in uploads && u.clientUploadId != id
  {
    if uploads == [] then []
    else if uploads[0].clientUploadId == id then DropUpload(uploads[1..], id)
    else [uploads[0]] + DropUpload(uploads[1..], id)
  }

  /** The first upload with the id. */
  function FindUpload(uploads: seq<DraftUpload>, id: string): (u: DraftUpload)
    requires Tracks(uploads, id)
    ensures u in uploads && u.clientUploadId == id
  {
    if uploads[0].clientUploadId == id then uploads[0] else FindUpload(uploads[1..], id)
  }

  lemma {:induction false} DropKeepsDistinct(uploads: seq<DraftUpload>, id: string)
    requires Distinct(Ids(uploads))
    ensures Distinct(Ids(DropUpload(uploads, id)))
  {
    if uploads != [] {
      var rest := uploads[1..];
      assert Ids(uploads)[1..] == Ids(rest);
      DropKeepsDistinct(rest, id);
      var r := DropUpload(rest, id);
      forall j | 0 <= j < |r|
        ensures r[j].clientUploadId != uploads[0].clientUploadId
      {
        assert r[j] in rest;
        var k :| 0 <= k < |rest| && rest[k] == r[j];
        assert Ids(uploads)[k + 1] == r[j].clientUploadId;
      }
      if uploads[0].clientUploadId != id {
        assert DropUpload(uploads, id) == [uploads[0]] + r;
        DistinctCons(uploads[0].clientUploadId, Ids(r));
        assert Ids(DropUpload(uploads, id)) == [uploads[0].clientUploadId] + Ids(r);
      }
    }
  }

  lemma DistinctCons(x: string, s: seq<string>)
    requires Distinct(s) && forall j :: 0 <= j < |s| ==> s[j] != x
    ensures Distinct([x] + s)
  {
  }

  lemma {:induction false} SettledKeepsDistinct(uploads: seq<DraftUpload>)
    requires Distinct(Ids(uploads))
    ensures Distinct(Ids(Settled(uploads)))
  {
    if uploads != [] {
      var rest := uploads[1..];
      assert Ids(uploads)[1..] == Ids(rest);
      SettledKeepsDistinct(rest);
      var r := Settled(rest);
      forall j | 0 <= j < |r|
        ensures r[j].clientUploadId != uploads[0].clientUploadId
      {
        assert r[j] in rest;
        var k :| 0 <= k < |rest| && rest[k] == r[j];
        assert Ids(uploads)[k + 1] == r[j].clientUploadId;
      }
      if !uploads[0].InFlight() {
        assert Settled(uploads) == [uploads[0]] + r;
        DistinctCons(uploads[0].clientUploadId, Ids(r));
        assert Ids(Settled(uploads)) == [uploads[0].clientUploadId] + Ids(r);
      }
    }
  }

  /** What loading makes of one stored item, wherever it stands: an entry that is not in flight stays, an attachment
      from an older build becomes a finished entry under its own id, and anything else goes. */
  lemma NormalizeEach(before: seq<StoredUpload>, item: StoredUpload, after: seq<StoredUpload>)
    ensures Normalize(before + ([item] + after)) == Normalize(before) + (Normalize([item]) + Normalize(after))
    ensures item.Entry? && !item.upload.InFlight() ==> Normalize([item]) == [item.upload]
    ensures item.Entry? && item.upload.InFlight() ==> Normalize([item]) == []
    ensures item.UploadedWithoutAttachment? || item.Unrecognised? ==> Normalize([item]) == []
    ensures item.Bare? ==>
              var a, now := item.attachment, Normalize([item]);
              && |now| == 1 && now[0].Uploaded? && now[0].attachment == a.(downloadUrl := "")
              && now[0].clientUploadId == (if a.id == "" then a.url else a.id) && now[0].filename == a.filename
  {
    NormalizeAppend(before, [item] + after);
    NormalizeAppend([item], after);
    assert [item][1..] == [] && Normalize([item]) == NormalizeOne(item);
  }
}
