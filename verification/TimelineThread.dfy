/** Bundling reply threads under their top-level comment for a flat list. */
module TimelineThread {
  import opened Basics

  datatype Kind = Activity | Comment

  /** `body` stands for the fields the grouping never looks at. */
  datatype Entry = Entry(kind: Kind, id: string, parentId: Option<string>, body: string)

  datatype Row = Row(entry: Entry, replies: seq<Entry>)

  // ----- the parent relation

  function CommentIds(entries: seq<Entry>): (r: set<string>) {
    set i | 0 <= i < |entries| && entries[i].kind == Comment :: entries[i].id
  }

  /** A comment whose parent is loaded. A reply whose parent is missing counts as top-level. */
  predicate Reply(ids: set<string>, e: Entry) {
    e.kind == Comment && e.parentId.Some? && e.parentId.value != "" && e.parentId.value in ids
  }

  function Kids(entries: seq<Entry>, ids: set<string>, parent: string): (r: seq<Entry>)
    ensures forall e :: e in r <==> e in entries && Reply(ids, e) && e.parentId.value == parent
  {
    if entries == [] then []
    else
      var e := entries[|entries| - 1];
      var rest := Kids(entries[..|entries| - 1], ids, parent);
      if Reply(ids, e) && e.parentId.value == parent then rest + [e] else rest
  }

  function TopLevel(entries: seq<Entry>, ids: set<string>): (r: seq<Entry>)
    ensures forall e :: e in r <==> e in entries && !Reply(ids, e)
  {
    if entries == [] then []
    else
      var e := entries[|entries| - 1];
      var rest := TopLevel(entries[..|entries| - 1], ids);
      if Reply(ids, e) then rest else rest + [e]
  }

  function Ids(entries: seq<Entry>): (r: seq<string>)
    ensures |r| == |entries| && forall i :: 0 <= i < |r| ==> r[i] == entries[i].id
  {
    if entries == [] then [] else [entries[0].id] + Ids(entries[1..])
  }

  ghost predicate DistinctComments(entries: seq<Entry>) {
    forall i, j :: 0 <= i < j < |entries| && entries[i].kind == Comment && entries[j].kind == Comment
                   ==> entries[i].id != entries[j].id
  }

  lemma SameIdSameEntry(entries: seq<Entry>, a: Entry, b: Entry)
    requires DistinctComments(entries) && a in entries && b in entries
    requires a.kind == Comment && b.kind == Comment && a.id == b.id
    ensures a == b
  {
    var i :| 0 <= i < |entries| && entries[i] == a;
    var j :| 0 <= j < |entries| && entries[j] == b;
  }

  // ----- breadth-first order

  function FlatKids(entries: seq<Entry>, ids: set<string>, parents: seq<string>): (r: seq<Entry>)
    ensures forall e :: e in r <==> e in entries && Reply(ids, e) && e.parentId.value in parents
  {
    if parents == [] then []
    else FlatKids(entries, ids, parents[..|parents| - 1]) + Kids(entries, ids, parents[|parents| - 1])
  }

  /** The parents in the order their children are listed: the root, then every reply listed. */
  function Order(root: string, out: seq<Entry>): seq<string> {
    [root] + Ids(out)
  }

  ghost predicate ParentListed(ids: set<string>, root: string, out: seq<Entry>, i: nat)
    requires i < |out|
  {
    Reply(ids, out[i]) && out[i].parentId.value in Order(root, out)[..i + 1]
  }

  ghost predicate ParentsFirst(ids: set<string>, root: string, out: seq<Entry>) {
    forall i {:trigger ParentListed(ids, root, out, i)} :: 0 <= i < |out| ==> ParentListed(ids, root, out, i)
  }

  /** `out` lists the children of the root, then the children of each listed reply in turn, each reply once and
      after its parent. */
  ghost predicate BreadthFirst(entries: seq<Entry>, ids: set<string>, root: string, out: seq<Entry>) {
    && out == FlatKids(entries, ids, Order(root, out))
    && Distinct(Order(root, out))
    && ParentsFirst(ids, root, out)
  }

  ghost predicate IsRoot(entries: seq<Entry>, ids: set<string>, root: string) {
    root in ids && forall e :: e in entries && Reply(ids, e) ==> e.id != root
  }

  lemma {:induction false} KidsDistinct(entries: seq<Entry>, ids: set<string>, parent: string)
    requires DistinctComments(entries)
    ensures Distinct(Ids(Kids(entries, ids, parent)))
  {
    if entries != [] {
      var init, e := entries[..|entries| - 1], entries[|entries| - 1];
      KidsDistinct(init, ids, parent);
      var k := Kids(init, ids, parent);
      if Reply(ids, e) && e.parentId.value == parent {
        assert Ids(k + [e]) == Ids(k) + [e.id];
        forall i | 0 <= i < |k| ensures k[i].id != e.id {
          assert k[i] in init;
          var j :| 0 <= j < |init| && init[j] == k[i];
          assert entries[j] == k[i];
        }
        DistinctAppend(Ids(k), [e.id]);
      }
    }
  }

  lemma IdsAppend(a: seq<Entry>, b: seq<Entry>)
    ensures Ids(a + b) == Ids(a) + Ids(b)
  {
  }

  lemma OrderAppend(root: string, out: seq<Entry>, kids: seq<Entry>)
    ensures Order(root, out + kids) == Order(root, out) + Ids(kids)
  {
    IdsAppend(out, kids);
    ConcatAssociates([root], Ids(out), Ids(kids));
  }

  lemma NextIsNotDone(done: seq<string>, pid: string, rest: seq<string>)
    requires Distinct(done + [pid] + rest)
    ensures pid !in done
  {
    var order := done + [pid] + rest;
    assert order[|done|] == pid;
    assert forall i :: 0 <= i < |done| ==> order[i] == done[i];
  }

  /** A child of the next queued id has not been listed: its parent would have been handled already. */
  lemma NextKidIsNew(entries: seq<Entry>, ids: set<string>, root: string,
                     done: seq<string>, pid: string, out: seq<Entry>, kid: Entry)
    requires DistinctComments(entries) && IsRoot(entries, ids, root)
    requires out == FlatKids(entries, ids, done) && pid !in done
    requires kid in Kids(entries, ids, pid)
    ensures kid.id !in Order(root, out)
  {
    forall j | 0 <= j < |out|
      ensures out[j].id != kid.id
    {
      assert out[j] in out;
      if out[j].id == kid.id {
        SameIdSameEntry(entries, kid, out[j]);
      }
    }
  }

  /** Listing the children of the next queued id keeps every id listed once. */
  lemma NextKidsAreNew(entries: seq<Entry>, ids: set<string>, root: string,
                       done: seq<string>, pid: string, rest: seq<string>, out: seq<Entry>)
    requires DistinctComments(entries) && IsRoot(entries, ids, root)
    requires done + [pid] + rest == Order(root, out) && Distinct(Order(root, out))
    requires out == FlatKids(entries, ids, done)
    ensures Distinct(Order(root, out + Kids(entries, ids, pid)))
  {
    var kids := Kids(entries, ids, pid);
    KidsDistinct(entries, ids, pid);
    OrderAppend(root, out, kids);
    NextIsNotDone(done, pid, rest);
    forall x | x in Ids(kids)
      ensures x !in Order(root, out)
    {
      var i :| 0 <= i < |kids| && Ids(kids)[i] == x;
      NextKidIsNew(entries, ids, root, done, pid, out, kids[i]);
    }
    DistinctAppend(Order(root, out), Ids(kids));
  }

  lemma OrderInIds(entries: seq<Entry>, ids: set<string>, root: string, out: seq<Entry>)
    requires ids == CommentIds(entries) && root in ids
    requires forall e :: e in out ==> e in entries && e.kind == Comment
    ensures forall x :: x in Order(root, out) ==> x in ids
  {
    forall x | x in Order(root, out)
      ensures x in ids
    {
      var j :| 0 <= j < |Order(root, out)| && Order(root, out)[j] == x;
      if j > 0 {
        assert out[j - 1] in out;
        var i :| 0 <= i < |entries| && entries[i] == out[j - 1];
      }
    }
  }

  lemma {:induction false} DistinctFits(s: seq<string>, ids: set<string>)
    requires Distinct(s) && forall x :: x in s ==> x in ids
    ensures |s| <= |ids|
  {
    if s != [] {
      var init, x := s[..|s| - 1], s[|s| - 1];
      forall y | y in init ensures y in ids - {x} {
        var i :| 0 <= i < |init| && init[i] == y;
        assert s[i] == y;
      }
      DistinctFits(init, ids - {x});
    }
  }

  function ChildrenOf(children: map<string, seq<Entry>>, p: string): seq<Entry> {
    if p in children then children[p] else []
  }

  method CollectDescendants(ghost entries: seq<Entry>, ghost ids: set<string>,
                            childrenByParent: map<string, seq<Entry>>, parentId: string)
    returns (out: seq<Entry>)
    requires ids == CommentIds(entries) && DistinctComments(entries) && IsRoot(entries, ids, parentId)
    requires forall p :: ChildrenOf(childrenByParent, p) == Kids(entries, ids, p)
    ensures BreadthFirst(entries, ids, parentId, out)
  {
    out := [];
    var queue := [parentId];
    ghost var done: seq<string> := [];
    while |queue| > 0
      invariant done + queue == Order(parentId, out)
      invariant Distinct(Order(parentId, out))
      invariant out == FlatKids(entries, ids, done)
      invariant ParentsFirst(ids, parentId, out)
      invariant |done| <= |ids|
      decreases |ids| - |done|
    {
      var pid := queue[0];
      queue := queue[1..];
      ghost var before, rest := out, queue;
      ghost var kids := Kids(entries, ids, pid);
      assert done + [pid] + rest == Order(parentId, before);
      NextKidsAreNew(entries, ids, parentId, done, pid, rest, before);
      Pushed(entries, ids, parentId, done, pid, rest, before);
      RoomForNext(entries, ids, parentId, done, pid, rest, before);
      assert kids == ChildrenOf(childrenByParent, pid);
      if pid in childrenByParent {
        out, queue := PushAll(out, queue, childrenByParent[pid]);
      }
      assert out == before + kids && queue == rest + Ids(kids);
      done := done + [pid];
    }
    assert done == Order(parentId, out);
  }

  method PushAll(out: seq<Entry>, queue: seq<string>, kids: seq<Entry>) returns (out': seq<Entry>, queue': seq<string>)
    ensures out' == out + kids && queue' == queue + Ids(kids)
  {
    out', queue' := out, queue;
    ghost var ids := Ids(kids);
    for i := 0 to |kids|
      invariant out' == out + kids[..i]
      invariant queue' == queue + ids[..i]
    {
      assert kids[..i + 1] == kids[..i] + [kids[i]] && ids[..i + 1] == ids[..i] + [ids[i]];
      out' := out' + [kids[i]];
      queue' := queue' + [kids[i].id];
    }
  }

  lemma RoomForNext(entries: seq<Entry>, ids: set<string>, root: string,
                    done: seq<string>, pid: string, rest: seq<string>, out: seq<Entry>)
    requires ids == CommentIds(entries) && IsRoot(entries, ids, root)
    requires done + [pid] + rest == Order(root, out) && Distinct(Order(root, out))
    requires out == FlatKids(entries, ids, done)
    ensures |done| + 1 <= |ids|
  {
    OrderInIds(entries, ids, root, out);
    DistinctFits(Order(root, out), ids);
  }

  lemma Pushed(entries: seq<Entry>, ids: set<string>, root: string,
               done: seq<string>, pid: string, rest: seq<string>, before: seq<Entry>)
    requires done + [pid] + rest == Order(root, before)
    requires before == FlatKids(entries, ids, done) && ParentsFirst(ids, root, before)
    ensures var kids := Kids(entries, ids, pid);
            && done + [pid] + (rest + Ids(kids)) == Order(root, before + kids)
            && before + kids == FlatKids(entries, ids, done + [pid])
            && ParentsFirst(ids, root, before + kids)
  {
    var kids := Kids(entries, ids, pid);
    OrderAppend(root, before, kids);
    ConcatAssociates(done + [pid], rest, Ids(kids));
    assert (done + [pid])[..|done|] == done;
    var order := Order(root, before);
    assert order[|done|] == pid;
    forall i | |before| <= i < |before + kids|
      ensures Reply(ids, (before + kids)[i]) && (before + kids)[i].parentId.value == pid
    {
      assert (before + kids)[i] in kids;
    }
    KidsAfterParent(ids, root, before, kids, |done|);
  }

  lemma KidsAfterParent(ids: set<string>, root: string, before: seq<Entry>, kids: seq<Entry>, at: nat)
    requires ParentsFirst(ids, root, before) && at <= |before|
    requires forall i :: 0 <= i < |kids| ==> Reply(ids, kids[i]) && kids[i].parentId.value == Order(root, before)[at]
    ensures ParentsFirst(ids, root, before + kids)
  {
    var out := before + kids;
    OrderAppend(root, before, kids);
    forall i | 0 <= i < |out|
      ensures ParentListed(ids, root, out, i)
    {
      if i < |before| {
        assert ParentListed(ids, root, before, i);
        assert Order(root, out)[..i + 1] == Order(root, before)[..i + 1];
      } else {
        assert out[i] == kids[i - |before|];
        assert Order(root, out)[..i + 1][at] == Order(root, before)[at];
      }
    }
  }

  // ----- the rows

  ghost predicate RowOk(entries: seq<Entry>, ids: set<string>, row: Row) {
    if row.entry.kind == Comment then BreadthFirst(entries, ids, row.entry.id, row.replies) else row.replies == []
  }

  /** One row per top-level entry, in order, each with its replies in breadth-first order. */
  ghost predicate RowsOf(entries: seq<Entry>, rows: seq<Row>) {
    var ids := CommentIds(entries);
    && Heads(rows) == TopLevel(entries, ids)
    && forall r {:trigger r in rows} :: r in rows ==> RowOk(entries, ids, r)
  }

  function Heads(rows: seq<Row>): (r: seq<Entry>)
    ensures |r| == |rows| && forall i :: 0 <= i < |r| ==> r[i] == rows[i].entry
  {
    if rows == [] then [] else Heads(rows[..|rows| - 1]) + [rows[|rows| - 1].entry]
  }

  lemma TopLevelIsRoot(entries: seq<Entry>, e: Entry)
    requires DistinctComments(entries) && e in TopLevel(entries, CommentIds(entries)) && e.kind == Comment
    ensures IsRoot(entries, CommentIds(entries), e.id)
  {
    var ids := CommentIds(entries);
    assert e.id in ids by {
      var i :| 0 <= i < |entries| && entries[i] == e;
    }
    forall r | r in entries && Reply(ids, r) ensures r.id != e.id {
      if r.id == e.id {
        SameIdSameEntry(entries, r, e);
      }
    }
  }

  method Partition(entries: seq<Entry>, commentIds: set<string>)
    returns (topLevel: seq<Entry>, childrenByParent: map<string, seq<Entry>>)
    ensures topLevel == TopLevel(entries, commentIds)
    ensures forall p :: ChildrenOf(childrenByParent, p) == Kids(entries, commentIds, p)
  {
    topLevel, childrenByParent := [], map[];
    for i := 0 to |entries|
      invariant topLevel == TopLevel(entries[..i], commentIds)
      invariant forall p :: ChildrenOf(childrenByParent, p) == Kids(entries[..i], commentIds, p)
    {
      var e := entries[i];
      assert entries[..i + 1][..i] == entries[..i];
      if e.kind == Comment && e.parentId.Some? && e.parentId.value != "" && e.parentId.value in commentIds {
        var list := ChildrenOf(childrenByParent, e.parentId.value);
        childrenByParent := childrenByParent[e.parentId.value := list + [e]];
      } else {
        topLevel := topLevel + [e];
      }
    }
    assert entries[..|entries|] == entries;
  }

  method CollectCommentIds(entries: seq<Entry>) returns (commentIds: set<string>)
    ensures commentIds == CommentIds(entries)
  {
    commentIds := {};
    for i := 0 to |entries|
      invariant commentIds == CommentIds(entries[..i])
    {
      assert entries[..i + 1] == entries[..i] + [entries[i]];
      CommentIdsSnoc(entries[..i], entries[i]);
      if entries[i].kind == Comment {
        commentIds := commentIds + {entries[i].id};
      }
    }
    assert entries[..|entries|] == entries;
  }

  method BuildTimelineRows(entries: seq<Entry>) returns (rows: seq<Row>)
    requires DistinctComments(entries)
    ensures RowsOf(entries, rows)
  {
    var commentIds := CollectCommentIds(entries);
    var topLevel, childrenByParent := Partition(entries, commentIds);
    rows := [];
    for i := 0 to |topLevel|
      invariant Heads(rows) == topLevel[..i]
      invariant forall r {:trigger r in rows} :: r in rows ==> RowOk(entries, commentIds, r)
    {
      assert topLevel[i] in topLevel;
      var row := BuildRow(entries, commentIds, childrenByParent, topLevel[i]);
      assert (rows + [row])[..|rows|] == rows && topLevel[..i + 1] == topLevel[..i] + [topLevel[i]];
      rows := rows + [row];
    }
    assert topLevel[..|topLevel|] == topLevel;
  }

  method BuildRow(ghost entries: seq<Entry>, ghost ids: set<string>,
                  childrenByParent: map<string, seq<Entry>>, e: Entry) returns (row: Row)
    requires DistinctComments(entries) && ids == CommentIds(entries) && e in TopLevel(entries, ids)
    requires forall p :: ChildrenOf(childrenByParent, p) == Kids(entries, ids, p)
    ensures row.entry == e && RowOk(entries, ids, row)
  {
    var replies: seq<Entry> := [];
    if e.kind == Comment {
      TopLevelIsRoot(entries, e);
      replies := CollectDescendants(entries, ids, childrenByParent, e.id);
    }
    row := Row(e, replies);
  }

  lemma CommentIdsSnoc(es: seq<Entry>, e: Entry)
    ensures CommentIds(es + [e]) == CommentIds(es) + (if e.kind == Comment then {e.id} else {})
  {
    var all := es + [e];
    forall x | x in CommentIds(es) ensures x in CommentIds(all) {
      var i :| 0 <= i < |es| && es[i].kind == Comment && es[i].id == x;
      assert all[i] == es[i];
    }
    assert all[|es|] == e;
  }

  // ----- one row holds exactly the replies under its comment

  /** Climbing n parents from the comment `id` arrives at `root`. */
  ghost predicate Climbs(entries: seq<Entry>, ids: set<string>, id: string, root: string, n: nat)
    decreases n
  {
    if n == 0 then id == root
    else exists e :: e in entries && Reply(ids, e) && e.id == id && Climbs(entries, ids, e.parentId.value, root, n - 1)
  }

  ghost predicate Under(entries: seq<Entry>, ids: set<string>, e: Entry, root: string) {
    Reply(ids, e) && exists n: nat :: Climbs(entries, ids, e.parentId.value, root, n)
  }

  lemma ClimbFrom(entries: seq<Entry>, ids: set<string>, p: Entry, root: string, n: nat)
    requires p in entries && Reply(ids, p) && Climbs(entries, ids, p.parentId.value, root, n)
    ensures Climbs(entries, ids, p.id, root, n + 1)
  {
  }

  lemma FirstStep(entries: seq<Entry>, ids: set<string>, id: string, root: string, n: nat) returns (p: Entry)
    requires n > 0 && Climbs(entries, ids, id, root, n)
    ensures p in entries && Reply(ids, p) && p.id == id && Climbs(entries, ids, p.parentId.value, root, n - 1)
  {
    p :| p in entries && Reply(ids, p) && p.id == id && Climbs(entries, ids, p.parentId.value, root, n - 1);
  }

  /** Children of the root and of listed replies are listed. */
  ghost predicate Closed(entries: seq<Entry>, ids: set<string>, root: string, out: seq<Entry>) {
    forall e {:trigger e in out} ::
      e in entries && Reply(ids, e) && (e.parentId.value == root || exists p :: p in out && p.id == e.parentId.value)
      ==> e in out
  }

  lemma BreadthFirstIsClosed(entries: seq<Entry>, ids: set<string>, root: string, out: seq<Entry>)
    requires BreadthFirst(entries, ids, root, out)
    ensures Closed(entries, ids, root, out)
  {
    var order := Order(root, out);
    assert order[0] == root;
    forall p | p in out ensures p.id in order {
      var j :| 0 <= j < |out| && out[j] == p;
      assert order[j + 1] == p.id;
    }
  }

  lemma ParentPosition(ids: set<string>, root: string, out: seq<Entry>, i: nat) returns (j: nat)
    requires ParentsFirst(ids, root, out) && i < |out|
    ensures Reply(ids, out[i]) && j <= i
    ensures out[i].parentId.value == if j == 0 then root else out[j - 1].id
  {
    var order := Order(root, out);
    assert ParentListed(ids, root, out, i);
    j :| 0 <= j < |order[..i + 1]| && order[..i + 1][j] == out[i].parentId.value;
  }

  lemma {:induction false} UnderIsListed(entries: seq<Entry>, ids: set<string>, root: string, out: seq<Entry>,
                                         e: Entry, n: nat)
    requires Closed(entries, ids, root, out)
    requires e in entries && Reply(ids, e) && Climbs(entries, ids, e.parentId.value, root, n)
    ensures e in out
    decreases n
  {
    if n > 0 {
      var p := FirstStep(entries, ids, e.parentId.value, root, n);
      UnderIsListed(entries, ids, root, out, p, n - 1);
    }
  }

  lemma {:induction false} ListedIsUnder(entries: seq<Entry>, ids: set<string>, root: string, out: seq<Entry>, i: nat)
    returns (n: nat)
    requires ParentsFirst(ids, root, out) && (forall e :: e in out ==> e in entries) && i < |out|
    ensures n <= i && Reply(ids, out[i]) && Climbs(entries, ids, out[i].parentId.value, root, n)
    decreases i
  {
    var j := ParentPosition(ids, root, out, i);
    if j == 0 {
      n := 0;
    } else {
      var m := ListedIsUnder(entries, ids, root, out, j - 1);
      ClimbFrom(entries, ids, out[j - 1], root, m);
      n := m + 1;
    }
  }

  /** A row bundles exactly the replies whose chain of parents leads to its comment, however deep. */
  lemma RowHoldsItsThread(entries: seq<Entry>, rows: seq<Row>, i: nat, e: Entry)
    requires RowsOf(entries, rows) && i < |rows| && rows[i].entry.kind == Comment
    ensures e in rows[i].replies <==> e in entries && Under(entries, CommentIds(entries), e, rows[i].entry.id)
  {
    var ids, root, out := CommentIds(entries), rows[i].entry.id, rows[i].replies;
    assert rows[i] in rows;
    if e in out {
      var k :| 0 <= k < |out| && out[k] == e;
      var n := ListedIsUnder(entries, ids, root, out, k);
    } else if e in entries && Under(entries, ids, e, root) {
      var n: nat :| Climbs(entries, ids, e.parentId.value, root, n);
      BreadthFirstIsClosed(entries, ids, root, out);
      UnderIsListed(entries, ids, root, out, e, n);
    }
  }

  // ----- order inside a row

  lemma {:induction false} KidsOfFlat(entries: seq<Entry>, ids: set<string>, parents: seq<string>, p: string)
    requires Distinct(parents)
    ensures Kids(FlatKids(entries, ids, parents), ids, p) == if p in parents then Kids(entries, ids, p) else []
  {
    if parents != [] {
      var init, q := parents[..|parents| - 1], parents[|parents| - 1];
      KidsOfFlat(entries, ids, init, p);
      KidsAppend(FlatKids(entries, ids, init), Kids(entries, ids, q), ids, p);
      KidsOfKids(entries, ids, q, p);
      assert p in parents <==> p in init || p == q;
      assert q !in init;
    }
  }

  lemma {:induction false} KidsAppend(a: seq<Entry>, b: seq<Entry>, ids: set<string>, p: string)
    ensures Kids(a + b, ids, p) == Kids(a, ids, p) + Kids(b, ids, p)
  {
    if b == [] {
      assert a + b == a;
    } else {
      var init := b[..|b| - 1];
      assert (a + b)[..|a + b| - 1] == a + init;
      KidsAppend(a, init, ids, p);
    }
  }

  lemma KidsSnoc(init: seq<Entry>, e: Entry, ids: set<string>, p: string)
    ensures Kids(init + [e], ids, p)
         == if Reply(ids, e) && e.parentId.value == p then Kids(init, ids, p) + [e] else Kids(init, ids, p)
  {
    assert (init + [e])[..|init|] == init;
  }

  lemma {:induction false} KidsOfKids(entries: seq<Entry>, ids: set<string>, q: string, p: string)
    ensures Kids(Kids(entries, ids, q), ids, p) == if p == q then Kids(entries, ids, q) else []
  {
    if entries != [] {
      var init, e := entries[..|entries| - 1], entries[|entries| - 1];
      assert entries == init + [e];
      KidsOfKids(init, ids, q, p);
      KidsSnoc(init, e, ids, q);
      if Reply(ids, e) && e.parentId.value == q {
        KidsSnoc(Kids(init, ids, q), e, ids, p);
      }
    }
  }

  /** Inside a row a parent comes before its children, and siblings keep the order they came in. */
  lemma RowOrder(entries: seq<Entry>, rows: seq<Row>, i: nat, k: nat)
    requires RowsOf(entries, rows) && i < |rows| && rows[i].entry.kind == Comment && k < |rows[i].replies|
    ensures var out, parent := rows[i].replies, rows[i].replies[k].parentId;
            && parent.Some?
            && (parent.value == rows[i].entry.id || exists j :: 0 <= j < k && out[j].id == parent.value)
            && Kids(out, CommentIds(entries), parent.value) == Kids(entries, CommentIds(entries), parent.value)
  {
    var ids, root, out := CommentIds(entries), rows[i].entry.id, rows[i].replies;
    assert rows[i] in rows;
    SiblingOrder(entries, ids, root, out, k);
  }

  lemma ParentInOrder(ids: set<string>, root: string, out: seq<Entry>, k: nat)
    requires ParentsFirst(ids, root, out) && k < |out|
    ensures out[k].parentId.Some? && out[k].parentId.value in Order(root, out)
    ensures out[k].parentId.value == root || exists j :: 0 <= j < k && out[j].id == out[k].parentId.value
  {
    var j := ParentPosition(ids, root, out, k);
    assert Order(root, out)[j] == out[k].parentId.value;
  }

  lemma SiblingOrder(entries: seq<Entry>, ids: set<string>, root: string, out: seq<Entry>, k: nat)
    requires BreadthFirst(entries, ids, root, out) && k < |out|
    ensures out[k].parentId.Some?
    ensures out[k].parentId.value == root || exists j :: 0 <= j < k && out[j].id == out[k].parentId.value
    ensures Kids(out, ids, out[k].parentId.value) == Kids(entries, ids, out[k].parentId.value)
  {
    ParentInOrder(ids, root, out, k);
    KidsOfFlat(entries, ids, Order(root, out), out[k].parentId.value);
  }

  // ----- nothing is lost, exactly when no reply chain bites its own tail

  function Replies(entries: seq<Entry>, ids: set<string>): (r: seq<Entry>)
    ensures forall e :: e in r <==> e in entries && Reply(ids, e)
  {
    if entries == [] then []
    else
      var e := entries[|entries| - 1];
      var rest := Replies(entries[..|entries| - 1], ids);
      if Reply(ids, e) then rest + [e] else rest
  }

  /** All replies shown, row by row. */
  function Shown(rows: seq<Row>): seq<Entry> {
    if rows == [] then [] else Shown(rows[..|rows| - 1]) + rows[|rows| - 1].replies
  }

  /** Everything shown, row by row. */
  function Emitted(rows: seq<Row>): seq<Entry> {
    if rows == [] then []
    else Emitted(rows[..|rows| - 1]) + ([rows[|rows| - 1].entry] + rows[|rows| - 1].replies)
  }

  lemma {:induction false} EmittedParts(rows: seq<Row>)
    ensures multiset(Emitted(rows)) == multiset(Heads(rows)) + multiset(Shown(rows))
  {
    if rows != [] {
      EmittedParts(rows[..|rows| - 1]);
    }
  }

  lemma {:induction false} EntryParts(entries: seq<Entry>, ids: set<string>)
    ensures multiset(entries) == multiset(TopLevel(entries, ids)) + multiset(Replies(entries, ids))
  {
    if entries != [] {
      EntryParts(entries[..|entries| - 1], ids);
      assert entries == entries[..|entries| - 1] + [entries[|entries| - 1]];
    }
  }

  ghost predicate Rooted(entries: seq<Entry>, ids: set<string>, e: Entry) {
    exists top :: top in TopLevel(entries, ids) && top.kind == Comment && Under(entries, ids, e, top.id)
  }

  lemma {:induction false} ShownMembers(rows: seq<Row>, e: Entry)
    ensures e in Shown(rows) <==> exists i :: 0 <= i < |rows| && e in rows[i].replies
  {
    if rows != [] {
      ShownMembers(rows[..|rows| - 1], e);
    }
  }

  lemma ShownIffRooted(entries: seq<Entry>, rows: seq<Row>, e: Entry)
    requires RowsOf(entries, rows)
    ensures e in Shown(rows) <==> e in entries && Rooted(entries, CommentIds(entries), e)
  {
    var ids := CommentIds(entries);
    var top := TopLevel(entries, ids);
    ShownMembers(rows, e);
    if e in Shown(rows) {
      var i :| 0 <= i < |rows| && e in rows[i].replies;
      assert rows[i] in rows && rows[i].entry == top[i] && top[i] in top;
      RowHoldsItsThread(entries, rows, i, e);
    }
    if e in entries && Rooted(entries, ids, e) {
      var t :| t in top && t.kind == Comment && Under(entries, ids, e, t.id);
      var i :| 0 <= i < |top| && top[i] == t;
      assert rows[i].entry == t;
      RowHoldsItsThread(entries, rows, i, e);
    }
  }

  /** A chain of parents ends at one root only. */
  lemma {:induction false} RootIsUnique(entries: seq<Entry>, ids: set<string>, id: string,
                                        r1: string, n1: nat, r2: string, n2: nat)
    requires DistinctComments(entries) && IsRoot(entries, ids, r1) && IsRoot(entries, ids, r2)
    requires Climbs(entries, ids, id, r1, n1) && Climbs(entries, ids, id, r2, n2)
    ensures r1 == r2
    decreases n1
  {
    if n1 > 0 && n2 > 0 {
      var e1 := FirstStep(entries, ids, id, r1, n1);
      var e2 := FirstStep(entries, ids, id, r2, n2);
      SameIdSameEntry(entries, e1, e2);
      RootIsUnique(entries, ids, e1.parentId.value, r1, n1 - 1, r2, n2 - 1);
    }
  }

  lemma OneRowOnly(entries: seq<Entry>, rows: seq<Row>, i: nat, j: nat, e: Entry)
    requires DistinctComments(entries) && RowsOf(entries, rows)
    requires i < j < |rows| && e in rows[i].replies
    ensures e !in rows[j].replies
  {
    var ids := CommentIds(entries);
    var top := TopLevel(entries, ids);
    assert rows[i].entry == top[i] && rows[j].entry == top[j] && top[i] in top && top[j] in top;
    assert rows[i] in rows && rows[j] in rows;
    RowHoldsItsThread(entries, rows, i, e);
    if e in rows[j].replies {
      RowHoldsItsThread(entries, rows, j, e);
      SameRoot(entries, top[i], top[j], e);
      TopLevelDistinct(entries, ids, i, j);
    }
  }

  lemma SameRoot(entries: seq<Entry>, a: Entry, b: Entry, e: Entry)
    requires DistinctComments(entries)
    requires var ids := CommentIds(entries);
             && a in TopLevel(entries, ids) && a.kind == Comment && b in TopLevel(entries, ids) && b.kind == Comment
             && Under(entries, ids, e, a.id) && Under(entries, ids, e, b.id)
    ensures a.id == b.id
  {
    var ids := CommentIds(entries);
    TopLevelIsRoot(entries, a);
    TopLevelIsRoot(entries, b);
    var n1: nat :| Climbs(entries, ids, e.parentId.value, a.id, n1);
    var n2: nat :| Climbs(entries, ids, e.parentId.value, b.id, n2);
    RootIsUnique(entries, ids, e.parentId.value, a.id, n1, b.id, n2);
  }

  lemma {:induction false} TopLevelDistinct(entries: seq<Entry>, ids: set<string>, i: nat, j: nat)
    requires DistinctComments(entries) && i < j < |TopLevel(entries, ids)|
    requires TopLevel(entries, ids)[i].kind == Comment && TopLevel(entries, ids)[j].kind == Comment
    ensures TopLevel(entries, ids)[i].id != TopLevel(entries, ids)[j].id
  {
    var init, e := entries[..|entries| - 1], entries[|entries| - 1];
    var top := TopLevel(init, ids);
    if j < |top| {
      TopLevelDistinct(init, ids, i, j);
    } else {
      assert top[i] in top;
      var k :| 0 <= k < |init| && init[k] == top[i];
      assert entries[k] == top[i];
    }
  }

  lemma {:induction false} ShownDistinct(entries: seq<Entry>, rows: seq<Row>, n: nat)
    requires DistinctComments(entries) && RowsOf(entries, rows) && n <= |rows|
    ensures Distinct(Shown(rows[..n]))
  {
    if n > 0 {
      ShownDistinct(entries, rows, n - 1);
      assert rows[..n][..n - 1] == rows[..n - 1];
      var last := rows[n - 1].replies;
      RowDistinct(entries, rows, n - 1);
      forall e | e in Shown(rows[..n - 1])
        ensures e !in last
      {
        ShownMembers(rows[..n - 1], e);
        var i :| 0 <= i < n - 1 && e in rows[i].replies;
        OneRowOnly(entries, rows, i, n - 1, e);
      }
      DistinctAppend(Shown(rows[..n - 1]), last);
    }
  }

  lemma RowDistinct(entries: seq<Entry>, rows: seq<Row>, i: nat)
    requires RowsOf(entries, rows) && i < |rows|
    ensures Distinct(rows[i].replies)
  {
    assert rows[i] in rows;
    if rows[i].entry.kind == Comment {
      EntriesOfDistinctIds(rows[i].entry.id, rows[i].replies);
    }
  }

  lemma EntriesOfDistinctIds(root: string, out: seq<Entry>)
    requires Distinct(Order(root, out))
    ensures Distinct(out)
  {
    forall i, j | 0 <= i < j < |out| ensures out[i] != out[j] {
      assert Order(root, out)[i + 1] == out[i].id && Order(root, out)[j + 1] == out[j].id;
    }
  }

  lemma {:induction false} RepliesDistinct(entries: seq<Entry>, ids: set<string>)
    requires DistinctComments(entries)
    ensures Distinct(Replies(entries, ids))
  {
    if entries != [] {
      var init, e := entries[..|entries| - 1], entries[|entries| - 1];
      RepliesDistinct(init, ids);
      if Reply(ids, e) {
        forall r | r in Replies(init, ids) ensures r != e {
          var k :| 0 <= k < |init| && init[k] == r;
          assert entries[k] == r;
        }
        DistinctAppend(Replies(init, ids), [e]);
      }
    }
  }

  lemma {:induction false} DistinctCounts(s: seq<Entry>, e: Entry)
    requires Distinct(s)
    ensures multiset(s)[e] == if e in s then 1 else 0
  {
    if s != [] {
      var init := s[..|s| - 1];
      assert s == init + [s[|s| - 1]];
      DistinctCounts(init, e);
    }
  }

  /** Some replies are each other's ancestors: a non-empty set of reply ids closed under taking the parent. */
  ghost predicate Loop(entries: seq<Entry>, ids: set<string>, c: set<string>) {
    c != {} && forall id {:trigger ParentStaysIn(entries, ids, c, id)} :: id in c ==> ParentStaysIn(entries, ids, c, id)
  }

  ghost predicate ParentStaysIn(entries: seq<Entry>, ids: set<string>, c: set<string>, id: string) {
    exists e :: e in entries && Reply(ids, e) && e.id == id && e.parentId.value in c
  }

  lemma LoopStep(entries: seq<Entry>, ids: set<string>, c: set<string>, id: string) returns (e: Entry)
    requires Loop(entries, ids, c) && id in c
    ensures e in entries && Reply(ids, e) && e.id == id && e.parentId.value in c
  {
    assert ParentStaysIn(entries, ids, c, id);
    e :| e in entries && Reply(ids, e) && e.id == id && e.parentId.value in c;
  }

  lemma {:induction false} LoopsAreNotRooted(entries: seq<Entry>, ids: set<string>, c: set<string>,
                                             id: string, root: string, n: nat)
    requires DistinctComments(entries) && Loop(entries, ids, c) && id in c && IsRoot(entries, ids, root)
    ensures !Climbs(entries, ids, id, root, n)
    decreases n
  {
    var e := LoopStep(entries, ids, c, id);
    if n > 0 && Climbs(entries, ids, id, root, n) {
      var f := FirstStep(entries, ids, id, root, n);
      SameIdSameEntry(entries, e, f);
      LoopsAreNotRooted(entries, ids, c, e.parentId.value, root, n - 1);
    }
  }

  lemma RootedByParent(entries: seq<Entry>, p: Entry, e: Entry)
    requires var ids := CommentIds(entries);
             p in entries && p.kind == Comment && Reply(ids, e) && e.parentId.value == p.id
             && (Reply(ids, p) ==> Rooted(entries, ids, p))
    ensures Rooted(entries, CommentIds(entries), e)
  {
    var ids := CommentIds(entries);
    if Reply(ids, p) {
      var t :| t in TopLevel(entries, ids) && t.kind == Comment && Under(entries, ids, p, t.id);
      var n: nat :| Climbs(entries, ids, p.parentId.value, t.id, n);
      ClimbFrom(entries, ids, p, t.id, n);
      assert Under(entries, ids, e, t.id);
    } else {
      assert Climbs(entries, ids, e.parentId.value, p.id, 0);
      assert p in TopLevel(entries, ids) && Under(entries, ids, e, p.id);
    }
  }

  /** The ids of the replies that reach no root. */
  ghost function Unrooted(entries: seq<Entry>): set<string> {
    var ids := CommentIds(entries);
    set k | 0 <= k < |entries| && Reply(ids, entries[k]) && !Rooted(entries, ids, entries[k]) :: entries[k].id
  }

  lemma UnrootedMember(entries: seq<Entry>, e: Entry)
    requires e in entries && Reply(CommentIds(entries), e) && !Rooted(entries, CommentIds(entries), e)
    ensures e.id in Unrooted(entries)
  {
    var k :| 0 <= k < |entries| && entries[k] == e;
  }

  lemma UnrootedParent(entries: seq<Entry>, id: string) returns (e: Entry)
    requires id in Unrooted(entries)
    ensures e in entries && Reply(CommentIds(entries), e) && e.id == id && e.parentId.value in Unrooted(entries)
  {
    var ids := CommentIds(entries);
    var m :| 0 <= m < |entries| && Reply(ids, entries[m]) && !Rooted(entries, ids, entries[m]) && entries[m].id == id;
    e := entries[m];
    var k :| 0 <= k < |entries| && entries[k].kind == Comment && entries[k].id == e.parentId.value;
    var p := entries[k];
    if Reply(ids, p) ==> Rooted(entries, ids, p) {
      RootedByParent(entries, p, e);
    }
    UnrootedMember(entries, p);
  }

  lemma UnrootedIsLoop(entries: seq<Entry>)
    requires Unrooted(entries) != {}
    ensures Loop(entries, CommentIds(entries), Unrooted(entries))
  {
    forall id | id in Unrooted(entries)
      ensures ParentStaysIn(entries, CommentIds(entries), Unrooted(entries), id)
    {
      var e := UnrootedParent(entries, id);
    }
  }

  lemma LoopMemberUnrooted(entries: seq<Entry>, c: set<string>) returns (e: Entry)
    requires DistinctComments(entries) && Loop(entries, CommentIds(entries), c)
    ensures e in entries && Reply(CommentIds(entries), e) && !Rooted(entries, CommentIds(entries), e)
  {
    var ids := CommentIds(entries);
    var id :| id in c;
    e := LoopStep(entries, ids, c, id);
    if Rooted(entries, ids, e) {
      var t :| t in TopLevel(entries, ids) && t.kind == Comment && Under(entries, ids, e, t.id);
      var n: nat :| Climbs(entries, ids, e.parentId.value, t.id, n);
      TopLevelIsRoot(entries, t);
      LoopsAreNotRooted(entries, ids, c, e.parentId.value, t.id, n);
    }
  }

  ghost predicate AllRooted(entries: seq<Entry>) {
    forall e :: e in entries && Reply(CommentIds(entries), e) ==> Rooted(entries, CommentIds(entries), e)
  }

  lemma RootedUnlessLoop(entries: seq<Entry>)
    requires DistinctComments(entries)
    ensures AllRooted(entries) <==> !exists c :: Loop(entries, CommentIds(entries), c)
  {
    if c :| Loop(entries, CommentIds(entries), c) {
      var e := LoopMemberUnrooted(entries, c);
    }
    if !AllRooted(entries) {
      var e :| e in entries && Reply(CommentIds(entries), e) && !Rooted(entries, CommentIds(entries), e);
      UnrootedMember(entries, e);
      UnrootedIsLoop(entries);
    }
  }

  lemma ShownCounts(entries: seq<Entry>, rows: seq<Row>, e: Entry)
    requires DistinctComments(entries) && RowsOf(entries, rows)
    ensures var ids := CommentIds(entries);
            && multiset(Shown(rows))[e] == (if e in entries && Rooted(entries, ids, e) then 1 else 0)
            && multiset(Replies(entries, ids))[e] == (if e in entries && Reply(ids, e) then 1 else 0)
  {
    var ids := CommentIds(entries);
    ShownDistinct(entries, rows, |rows|);
    assert rows[..|rows|] == rows;
    RepliesDistinct(entries, ids);
    DistinctCounts(Shown(rows), e);
    DistinctCounts(Replies(entries, ids), e);
    ShownIffRooted(entries, rows, e);
  }

  lemma ShownVersusReplies(entries: seq<Entry>, rows: seq<Row>)
    requires DistinctComments(entries) && RowsOf(entries, rows)
    ensures multiset(Shown(rows)) <= multiset(Replies(entries, CommentIds(entries)))
    ensures multiset(Shown(rows)) == multiset(Replies(entries, CommentIds(entries))) <==> AllRooted(entries)
  {
    var ids := CommentIds(entries);
    var shown, all := multiset(Shown(rows)), multiset(Replies(entries, ids));
    forall e ensures shown[e] <= all[e] {
      ShownCounts(entries, rows, e);
    }
    if AllRooted(entries) {
      forall e ensures shown[e] == all[e] {
        ShownCounts(entries, rows, e);
      }
    } else {
      var e :| e in entries && Reply(ids, e) && !Rooted(entries, ids, e);
      ShownCounts(entries, rows, e);
    }
  }

  /** The counts agree: rows and replies together are a permutation of the input exactly when no set of replies
      forms a loop of parents; the replies on or under a loop are the ones that vanish. */
  lemma NothingIsLostUnlessLoop(entries: seq<Entry>, rows: seq<Row>)
    requires DistinctComments(entries) && RowsOf(entries, rows)
    ensures multiset(Emitted(rows)) == multiset(entries) <==> !exists c :: Loop(entries, CommentIds(entries), c)
    ensures multiset(Emitted(rows)) <= multiset(entries)
  {
    var ids := CommentIds(entries);
    EmittedParts(rows);
    EntryParts(entries, ids);
    ShownVersusReplies(entries, rows);
    RootedUnlessLoop(entries);
    var t, shown, all := multiset(TopLevel(entries, ids)), multiset(Shown(rows)), multiset(Replies(entries, ids));
    SameRemainder(t, shown, all);
  }

  /** The shortest loop: a comment that names itself as its parent appears in no row. */
  lemma SelfReplyIsLost(e: Entry, rows: seq<Row>)
    requires e.kind == Comment && e.parentId == Some(e.id) && e.id != "" && RowsOf([e], rows)
    ensures Loop([e], CommentIds([e]), {e.id})
    ensures multiset(Emitted(rows)) != multiset([e])
  {
    assert e in [e] && Reply(CommentIds([e]), e);
    assert ParentStaysIn([e], CommentIds([e]), {e.id}, e.id);
    NothingIsLostUnlessLoop([e], rows);
  }

  lemma SameRemainder(t: multiset<Entry>, a: multiset<Entry>, b: multiset<Entry>)
    ensures t + a == t + b <==> a == b
    ensures a <= b ==> t + a <= t + b
  {
    assert (t + a) - t == a && (t + b) - t == b;
  }

  // ----- which entries are top-level

  /** An entry is shown as a row of its own exactly when it is an activity, or a comment that names no parent or one
      that is not a loaded comment. */
  lemma TopLevelExactly(entries: seq<Entry>, e: Entry)
    ensures e in TopLevel(entries, CommentIds(entries)) <==>
            e in entries
            && (e.kind == Activity || e.parentId == None || e.parentId == Some("")
                || forall p :: p in entries && p.kind == Comment ==> Some(p.id) != e.parentId)
  {
    if e.parentId.Some? && e.parentId.value in CommentIds(entries) {
      var i :| 0 <= i < |entries| && entries[i].kind == Comment && entries[i].id == e.parentId.value;
      assert entries[i] in entries;
    }
    if exists p :: p in entries && p.kind == Comment && Some(p.id) == e.parentId {
      var p :| p in entries && p.kind == Comment && Some(p.id) == e.parentId;
      var i :| 0 <= i < |entries| && entries[i] == p;
      assert entries[i].id in CommentIds(entries);
    }
  }
}
