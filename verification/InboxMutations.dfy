/** The optimistic patches on the cached notification lists, against the grouped lists shown from them. */
module InboxMutations {
  import opened Basics
  import opened InboxGrouping

  /** The notifications of one sub-view: the main list, or the archived one. */
  function View(items: seq<Item>, archived: bool): seq<Item> {
    if items == [] then []
    else
      var rest := View(items[..|items| - 1], archived);
      if items[|items| - 1].archived == archived then rest + [items[|items| - 1]] else rest
  }

  /** The list shown in a sub-view: its notifications, one row per issue. */
  function Listed(items: seq<Item>, archived: bool): seq<Item> {
    Grouped(View(items, archived))
  }

  function Unread(rows: seq<Item>): nat {
    if rows == [] then 0 else Unread(rows[..|rows| - 1]) + if rows[|rows| - 1].read then 0 else 1
  }

  // ----- the patches

  function Find(items: seq<Item>, id: string): Option<Item> {
    if items == [] then None else if items[0].id == id then Some(items[0]) else Find(items[1..], id)
  }

  /** Which items the archive and unarchive patches flip: the item itself, and every sibling of its issue. */
  predicate Flips(target: Option<Item>, id: string, i: Item) {
    i.id == id
    || (target.Some? && target.value.issueId.Some? && target.value.issueId.value != ""
        && i.issueId == target.value.issueId)
  }

  function Flip(items: seq<Item>, target: Option<Item>, id: string, archived: bool): (r: seq<Item>)
    ensures |r| == |items|
    ensures forall k :: 0 <= k < |r| ==>
              r[k] == if Flips(target, id, items[k]) then items[k].(archived := archived) else items[k]
  {
    if items == [] then []
    else
      var i := items[|items| - 1];
      Flip(items[..|items| - 1], target, id, archived) + [if Flips(target, id, i) then i.(archived := archived) else i]
  }

  function MarkRead(items: seq<Item>, id: string, read: bool): (r: seq<Item>)
    ensures |r| == |items|
    ensures forall k :: 0 <= k < |r| ==> r[k] == if items[k].id == id then items[k].(read := read) else items[k]
  {
    if items == [] then []
    else
      var i := items[|items| - 1];
      MarkRead(items[..|items| - 1], id, read) + [if i.id == id then i.(read := read) else i]
  }

  function MarkAllRead(items: seq<Item>): (r: seq<Item>)
    ensures |r| == |items|
    ensures forall k :: 0 <= k < |r| ==> r[k] == if !items[k].archived then items[k].(read := true) else items[k]
  {
    if items == [] then []
    else
      var i := items[|items| - 1];
      MarkAllRead(items[..|items| - 1]) + [if !i.archived then i.(read := true) else i]
  }

  /** The query cache for one workspace, and the `onMutate` handlers that patch it. */
  class InboxCache {
    var list: Option<seq<Item>>
    var archived: Option<seq<Item>>

    method ArchiveInbox(id: string) returns (previous: Option<seq<Item>>)
      modifies this`list
      ensures previous == old(list)
      ensures list == if old(list).None? then None
                      else Some(Flip(old(list).value, Find(old(list).value, id), id, true))
    {
      previous := list;
      if list.Some? {
        var target := Find(list.value, id);
        list := Some(Flip(list.value, target, id, true));
      }
    }

    method UnarchiveInbox(id: string) returns (previous: Option<seq<Item>>)
      modifies this`archived
      ensures previous == old(archived)
      ensures archived == if old(archived).None? then None
                          else Some(Flip(old(archived).value, Find(old(archived).value, id), id, false))
    {
      previous := archived;
      if archived.Some? {
        var target := Find(archived.value, id);
        archived := Some(Flip(archived.value, target, id, false));
      }
    }

    method SetRead(id: string, read: bool) returns (previous: Option<seq<Item>>, previousArchived: Option<seq<Item>>)
      modifies this
      ensures previous == old(list) && previousArchived == old(archived)
      ensures list == if old(list).None? then None else Some(MarkRead(old(list).value, id, read))
      ensures archived == if old(archived).None? then None else Some(MarkRead(old(archived).value, id, read))
    {
      previous, previousArchived := list, archived;
      if list.Some? {
        list := Some(MarkRead(list.value, id, read));
      }
      if archived.Some? {
        archived := Some(MarkRead(archived.value, id, read));
      }
    }

    method MarkAllInboxRead() returns (previous: Option<seq<Item>>)
      modifies this`list
      ensures previous == old(list)
      ensures list == if old(list).None? then None else Some(MarkAllRead(old(list).value))
    {
      previous := list;
      if list.Some? {
        list := Some(MarkAllRead(list.value));
      }
    }
  }

  // ----- taking one issue out of a list

  function WithoutKey(items: seq<Item>, key: string): seq<Item> {
    if items == [] then []
    else
      var rest := WithoutKey(items[..|items| - 1], key);
      if KeyOf(items[|items| - 1]) == key then rest else rest + [items[|items| - 1]]
  }

  lemma {:induction false} WithoutKeyMembers(items: seq<Item>, key: string)
    ensures forall i :: i in WithoutKey(items, key) <==> i in items && KeyOf(i) != key
  {
    if items != [] {
      WithoutKeyMembers(items[..|items| - 1], key);
    }
  }

  lemma {:induction false} GroupWithout(items: seq<Item>, gone: string, key: string)
    ensures GroupOf(WithoutKey(items, gone), key) == if key == gone then [] else GroupOf(items, key)
  {
    if items != [] {
      var init, last := items[..|items| - 1], items[|items| - 1];
      GroupWithout(init, gone, key);
      var w := WithoutKey(init, gone);
      assert (w + [last])[..|w|] == w;
    }
  }

  function WithoutString(s: seq<string>, x: string): seq<string> {
    if s == [] then []
    else
      var rest := WithoutString(s[..|s| - 1], x);
      if s[|s| - 1] == x then rest else rest + [s[|s| - 1]]
  }

  lemma {:induction false} WithoutStringMembers(s: seq<string>, x: string)
    ensures forall y :: y in WithoutString(s, x) <==> y in s && y != x
  {
    if s != [] {
      WithoutStringMembers(s[..|s| - 1], x);
    }
  }

  lemma {:induction false} KeysWithout(items: seq<Item>, gone: string)
    ensures Keys(WithoutKey(items, gone)) == WithoutString(Keys(items), gone)
  {
    if items != [] {
      var init, last := items[..|items| - 1], items[|items| - 1];
      KeysWithout(init, gone);
      WithoutStringMembers(Keys(init), gone);
      var w, ks := WithoutKey(init, gone), Keys(init);
      assert (w + [last])[..|w|] == w;
      assert (ks + [KeyOf(last)])[..|ks|] == ks;
    }
  }

  lemma {:induction false} RowsWithout(items: seq<Item>, keys: seq<string>, gone: string)
    requires forall k :: k in keys ==> GroupOf(items, k) != []
    ensures forall k :: k in WithoutString(keys, gone) ==> GroupOf(WithoutKey(items, gone), k) != []
    ensures Rows(WithoutKey(items, gone), WithoutString(keys, gone)) == WithoutKey(Rows(items, keys), gone)
  {
    WithoutStringMembers(keys, gone);
    forall k | k in WithoutString(keys, gone) ensures GroupOf(WithoutKey(items, gone), k) != [] {
      GroupWithout(items, gone, k);
    }
    if keys != [] {
      var init, last := keys[..|keys| - 1], keys[|keys| - 1];
      assert last in keys;
      RowsWithout(items, init, gone);
      RowKeepsKey(items, last);
      GroupWithout(items, gone, last);
      var r := Rows(items, init);
      assert (r + [RowFor(items, last)])[..|r|] == r;
      var w := WithoutString(init, gone);
      assert (w + [last])[..|w|] == w;
      assert Rows(items, keys) == r + [RowFor(items, last)];
    }
  }

  lemma WithoutKeySnoc(s: seq<Item>, x: Item, gone: string)
    ensures WithoutKey(s + [x], gone) == if KeyOf(x) == gone then WithoutKey(s, gone) else WithoutKey(s, gone) + [x]
  {
    assert (s + [x])[..|s|] == s;
  }

  lemma InsertSnoc(s: seq<Item>, last: Item, x: Item)
    ensures Insert(s + [last], x) == if last.at >= x.at then s + [last] + [x] else Insert(s, x) + [last]
  {
    assert (s + [last])[..|s|] == s;
  }

  lemma InsertAtEnd(s: seq<Item>, x: Item)
    requires forall i :: i in s ==> i.at >= x.at
    ensures Insert(s, x) == s + [x]
  {
    if s != [] {
      assert s[|s| - 1] in s;
    }
  }

  lemma InsertLastWithout(s: seq<Item>, last: Item, x: Item, gone: string)
    requires Descending(s + [last]) && last.at >= x.at
    ensures var w := WithoutKey(s + [last], gone);
            WithoutKey(s + [last] + [x], gone) == if KeyOf(x) == gone then w else Insert(w, x)
  {
    var all := s + [last];
    assert all[|s|] == last;
    WithoutKeySnoc(all, x, gone);
    WithoutKeyMembers(all, gone);
    InsertAtEnd(WithoutKey(all, gone), x);
  }

  lemma {:induction false} InsertWithout(s: seq<Item>, x: Item, gone: string)
    requires Descending(s)
    ensures WithoutKey(Insert(s, x), gone)
            == if KeyOf(x) == gone then WithoutKey(s, gone) else Insert(WithoutKey(s, gone), x)
  {
    if s == [] {
      WithoutKeySnoc([], x, gone);
      assert [] + [x] == [x];
    } else {
      var init, last := s[..|s| - 1], s[|s| - 1];
      assert s == init + [last];
      InsertSnoc(init, last, x);
      if last.at >= x.at {
        InsertLastWithout(init, last, x, gone);
      } else {
        InsertWithout(init, x, gone);
        WithoutKeySnoc(Insert(init, x), last, gone);
        WithoutKeySnoc(init, last, gone);
        InsertSnoc(WithoutKey(init, gone), last, x);
      }
    }
  }

  lemma {:induction false} SortWithout(s: seq<Item>, gone: string)
    ensures WithoutKey(NewestFirst(s), gone) == NewestFirst(WithoutKey(s, gone))
  {
    if s != [] {
      var init, last := s[..|s| - 1], s[|s| - 1];
      SortWithout(init, gone);
      NewestFirstSorts(init);
      InsertWithout(NewestFirst(init), last, gone);
      var w := WithoutKey(init, gone);
      assert (w + [last])[..|w|] == w;
    }
  }

  /** Removing an issue's items removes exactly its row; the other rows and their order stay. */
  lemma GroupedWithout(items: seq<Item>, gone: string)
    ensures Grouped(WithoutKey(items, gone)) == WithoutKey(Grouped(items), gone)
  {
    AllGrouped(items);
    AllGrouped(WithoutKey(items, gone));
    KeysWithout(items, gone);
    RowsWithout(items, Keys(items), gone);
    SortWithout(Rows(items, Keys(items)), gone);
  }

  // ----- archiving and unarchiving

  /** Every item of the target's row is flipped. */
  ghost predicate CatchesWholeRow(items: seq<Item>, target: Item, id: string, archived: bool) {
    forall i :: i in items && i.archived == archived && KeyOf(i) == KeyOf(target) ==> Flips(Some(target), id, i)
  }

  ghost predicate DistinctItems(items: seq<Item>) {
    forall i, j :: 0 <= i < j < |items| ==> items[i].id != items[j].id
  }

  lemma {:induction false} FindIsThere(items: seq<Item>, id: string)
    ensures Find(items, id).Some? ==> Find(items, id).value in items && Find(items, id).value.id == id
    ensures Find(items, id).None? ==> forall i :: i in items ==> i.id != id
  {
    if items != [] {
      FindIsThere(items[1..], id);
    }
  }

  lemma FlippedBelongs(items: seq<Item>, target: Item, id: string, i: Item)
    requires DistinctItems(items) && Find(items, id) == Some(target) && i in items
    ensures Flips(Some(target), id, i) ==> KeyOf(i) == KeyOf(target)
  {
    FindIsThere(items, id);
    if i.id == id {
      var j :| 0 <= j < |items| && items[j] == i;
      var k :| 0 <= k < |items| && items[k] == target;
    }
  }

  lemma ViewSnoc(s: seq<Item>, x: Item, archived: bool)
    ensures View(s + [x], archived) == View(s, archived) + if x.archived == archived then [x] else []
  {
    assert (s + [x])[..|s|] == s;
  }

  lemma FlipSnoc(s: seq<Item>, x: Item, target: Item, id: string, archived: bool)
    ensures Flip(s + [x], Some(target), id, archived)
         == Flip(s, Some(target), id, archived)
            + [if Flips(Some(target), id, x) then x.(archived := archived) else x]
  {
    assert (s + [x])[..|s|] == s;
  }

  /** What leaves the view: exactly the flipped items. */
  lemma {:induction false} ViewAfterFlip(items: seq<Item>, target: Item, id: string, archived: bool)
    requires forall i :: i in items && i.archived == archived ==>
               (Flips(Some(target), id, i) <==> KeyOf(i) == KeyOf(target))
    ensures View(Flip(items, Some(target), id, !archived), archived) == WithoutKey(View(items, archived), KeyOf(target))
  {
    if items != [] {
      var init, last := items[..|items| - 1], items[|items| - 1];
      assert items == init + [last] && last in items && forall i :: i in init ==> i in items;
      ViewAfterFlip(init, target, id, archived);
      FlipViewSnoc(init, last, target, id, archived);
      ViewSnoc(init, last, archived);
      WithoutKeySnoc(View(init, archived), last, KeyOf(target));
    }
  }

  /** One more item in the view of a flipped list. */
  lemma FlipViewSnoc(init: seq<Item>, last: Item, target: Item, id: string, archived: bool)
    ensures View(Flip(init + [last], Some(target), id, !archived), archived)
         == View(Flip(init, Some(target), id, !archived), archived)
            + if last.archived == archived && !Flips(Some(target), id, last) then [last] else []
  {
    FlipSnoc(init, last, target, id, !archived);
    var f := Flip(init, Some(target), id, !archived);
    ViewSnoc(f, if Flips(Some(target), id, last) then last.(archived := !archived) else last, archived);
  }

  lemma {:induction false} ViewMembers(items: seq<Item>, archived: bool)
    ensures forall i :: i in View(items, archived) <==> i in items && i.archived == archived
  {
    if items != [] {
      ViewMembers(items[..|items| - 1], archived);
    }
  }

  /** An optimistic archive (or unarchive) removes exactly the target's row from the list it leaves, keeping the
      others in order, if and only if every listed notification of that row is flipped. What can escape is a
      notification that shares the row's key without sharing a non-empty issue id. */
  lemma FlipRemovesRowExactly(items: seq<Item>, id: string, archived: bool)
    requires DistinctItems(items) && Find(items, id).Some?
    ensures var target := Find(items, id).value;
            Listed(Flip(items, Some(target), id, !archived), archived)
              == WithoutKey(Listed(items, archived), KeyOf(target))
            <==> CatchesWholeRow(items, target, id, archived)
  {
    var target := Find(items, id).value;
    var flipped := Flip(items, Some(target), id, !archived);
    forall i | i in items ensures Flips(Some(target), id, i) ==> KeyOf(i) == KeyOf(target) {
      FlippedBelongs(items, target, id, i);
    }
    if CatchesWholeRow(items, target, id, archived) {
      ViewAfterFlip(items, target, id, archived);
      GroupedWithout(View(items, archived), KeyOf(target));
    } else {
      var i :| i in items && i.archived == archived && KeyOf(i) == KeyOf(target) && !Flips(Some(target), id, i);
      var k :| 0 <= k < |items| && items[k] == i;
      assert flipped[k] == i;
      ViewMembers(flipped, archived);
      assert i in View(flipped, archived);
      GroupedShape(View(flipped, archived));
      var row :| row in Listed(flipped, archived) && KeyOf(row) == KeyOf(i);
      WithoutKeyMembers(Listed(items, archived), KeyOf(target));
    }
  }

  /** Two inputs on which a notification escapes: the siblings have an empty issue id, or one of them has no issue and
      an id equal to the other's issue id. */
  lemma SiblingEscapes(a: Item, b: Item)
    requires a.id != b.id && a.archived == b.archived
    requires a.issueId == b.issueId == Some("") || (a.issueId == Some(b.id) && b.issueId == None)
    ensures !CatchesWholeRow([a, b], a, a.id, a.archived)
    ensures Listed(Flip([a, b], Some(a), a.id, !a.archived), a.archived)
         != WithoutKey(Listed([a, b], a.archived), KeyOf(a))
  {
    assert Find([a, b], a.id) == Some(a);
    assert b in [a, b] && KeyOf(b) == KeyOf(a) && !Flips(Some(a), a.id, b);
    FlipRemovesRowExactly([a, b], a.id, a.archived);
  }

  /** When it can go wrong at all: with ids that do not clash with issue ids and no empty issue id, it never does. */
  lemma WholeRowIsCaught(items: seq<Item>, id: string, archived: bool)
    requires DistinctItems(items) && Find(items, id).Some?
    requires forall i, j :: i in items && j in items ==> i.issueId != Some(j.id)
    requires forall i :: i in items ==> i.issueId != Some("")
    ensures CatchesWholeRow(items, Find(items, id).value, id, archived)
  {
    FindIsThere(items, id);
    var target := Find(items, id).value;
    forall i | i in items && i.archived == archived && KeyOf(i) == KeyOf(target)
      ensures Flips(Some(target), id, i)
    {
    }
  }

  /** One when the row with this key is listed and unread. */
  ghost function UnreadRow(rows: seq<Item>, key: string): nat {
    if exists r :: r in rows && KeyOf(r) == key && !r.read then 1 else 0
  }

  lemma UnreadSnoc(rows: seq<Item>, last: Item)
    ensures Unread(rows + [last]) == Unread(rows) + if last.read then 0 else 1
  {
    assert (rows + [last])[..|rows|] == rows;
  }

  lemma UnreadRowSnoc(rows: seq<Item>, last: Item, key: string)
    ensures KeyOf(last) != key ==> UnreadRow(rows + [last], key) == UnreadRow(rows, key)
    ensures KeyOf(last) == key && (forall r :: r in rows ==> KeyOf(r) != key) ==>
              UnreadRow(rows + [last], key) == if last.read then 0 else 1
  {
    assert last in rows + [last];
    assert forall r :: r in rows + [last] <==> r in rows || r == last;
  }

  lemma KeyNotBefore(rows: seq<Item>, last: Item)
    requires DistinctKeys(rows + [last])
    ensures DistinctKeys(rows) && forall r :: r in rows ==> KeyOf(r) != KeyOf(last)
  {
    var all := rows + [last];
    assert all[|rows|] == last && forall i :: 0 <= i < |rows| ==> all[i] == rows[i];
  }

  lemma {:induction false} NothingWithout(rows: seq<Item>, key: string)
    requires forall r :: r in rows ==> KeyOf(r) != key
    ensures WithoutKey(rows, key) == rows
  {
    if rows != [] {
      var init, last := rows[..|rows| - 1], rows[|rows| - 1];
      assert rows == init + [last] && last in rows;
      NothingWithout(init, key);
      WithoutKeySnoc(init, last, key);
    }
  }

  lemma {:induction false} UnreadWithout(rows: seq<Item>, key: string)
    requires DistinctKeys(rows)
    ensures Unread(rows) == Unread(WithoutKey(rows, key)) + UnreadRow(rows, key)
  {
    if rows != [] {
      var init, last := rows[..|rows| - 1], rows[|rows| - 1];
      assert rows == init + [last];
      UnreadWithoutSnoc(init, last, key);
    }
  }

  lemma {:induction false} UnreadWithoutSnoc(init: seq<Item>, last: Item, key: string)
    requires DistinctKeys(init + [last])
    ensures Unread(init + [last]) == Unread(WithoutKey(init + [last], key)) + UnreadRow(init + [last], key)
    decreases |init|
  {
    KeyNotBefore(init, last);
    UnreadSnoc(init, last);
    WithoutKeySnoc(init, last, key);
    UnreadRowSnoc(init, last, key);
    if KeyOf(last) == key {
      NothingWithout(init, key);
    } else {
      UnreadSnoc(WithoutKey(init, key), last);
      if init != [] {
        assert init == init[..|init| - 1] + [init[|init| - 1]];
        UnreadWithoutSnoc(init[..|init| - 1], init[|init| - 1], key);
      }
    }
  }

  /** The other rows' notifications stay where they are, whether or not the patch catches its own row whole. */
  lemma {:induction false} OthersStay(items: seq<Item>, target: Item, id: string)
    requires forall i :: i in items && Flips(Some(target), id, i) ==> KeyOf(i) == KeyOf(target)
    ensures WithoutKey(View(Flip(items, Some(target), id, true), false), KeyOf(target))
         == WithoutKey(View(items, false), KeyOf(target))
  {
    if items != [] {
      var init, last := items[..|items| - 1], items[|items| - 1];
      assert items == init + [last] && last in items && forall i :: i in init ==> i in items;
      OthersStay(init, target, id);
      FlipViewSnoc(init, last, target, id, false);
      ViewSnoc(init, last, false);
      WithoutKeySnoc(View(init, false), last, KeyOf(target));
      WithoutKeySnoc(View(Flip(init, Some(target), id, true), false), last, KeyOf(target));
    }
  }

  /** What archiving does to the badge, for every item: it loses the target's row if that was unread, and gains what is
      left of the row if that is. Nothing is left of a row that is caught whole. */
  lemma ArchiveLowersUnread(items: seq<Item>, id: string)
    requires DistinctItems(items) && Find(items, id).Some?
    ensures var target := Find(items, id).value;
            var before, after := Listed(items, false), Listed(Flip(items, Some(target), id, true), false);
            && Unread(before) - UnreadRow(before, KeyOf(target)) == Unread(after) - UnreadRow(after, KeyOf(target))
            && (CatchesWholeRow(items, target, id, false) ==> UnreadRow(after, KeyOf(target)) == 0)
  {
    var target := Find(items, id).value;
    var key, flipped := KeyOf(target), Flip(items, Some(target), id, true);
    forall i | i in items ensures Flips(Some(target), id, i) ==> KeyOf(i) == key {
      FlippedBelongs(items, target, id, i);
    }
    OthersStay(items, target, id);
    GroupedWithout(View(items, false), key);
    GroupedWithout(View(flipped, false), key);
    UnreadListed(items, key);
    UnreadListed(flipped, key);
    if CatchesWholeRow(items, target, id, false) {
      FlipRemovesRowExactly(items, id, false);
      WithoutKeyMembers(Listed(items, false), key);
    }
  }

  lemma UnreadListed(items: seq<Item>, key: string)
    ensures Unread(Listed(items, false))
         == Unread(WithoutKey(Listed(items, false), key)) + UnreadRow(Listed(items, false), key)
  {
    GroupedShape(View(items, false));
    UnreadWithout(Listed(items, false), key);
  }

  // ----- read state

  lemma {:induction false} AllReadView(items: seq<Item>)
    ensures forall i :: i in View(MarkAllRead(items), false) ==> i.read
  {
    if items != [] {
      var m := MarkAllRead(items);
      AllReadView(items[..|items| - 1]);
      assert m[..|m| - 1] == MarkAllRead(items[..|items| - 1]);
    }
  }

  lemma {:induction false} NoneUnread(rows: seq<Item>)
    requires forall r :: r in rows ==> r.read
    ensures Unread(rows) == 0
  {
    if rows != [] {
      assert forall r :: r in rows[..|rows| - 1] ==> r in rows;
      NoneUnread(rows[..|rows| - 1]);
      assert rows[|rows| - 1] in rows;
    }
  }

  /** Marking everything read leaves no unread row. */
  lemma MarkAllReadClearsBadge(items: seq<Item>)
    ensures Unread(Listed(MarkAllRead(items), false)) == 0
  {
    var v := View(MarkAllRead(items), false);
    AllReadView(items);
    GroupedShape(v);
    forall r | r in Grouped(v) ensures r.read {
      var i := RowIsNewest(v, KeyOf(r));
      assert v[i] in v && r.read == v[i].read;
    }
    NoneUnread(Grouped(v));
  }

  // ----- marking one notification commutes with the grouping

  lemma {:induction false} MarkInsert(s: seq<Item>, x: Item, id: string, read: bool)
    ensures MarkRead(Insert(s, x), id, read)
         == Insert(MarkRead(s, id, read), if x.id == id then x.(read := read) else x)
  {
    var m := MarkRead(s, id, read);
    if s != [] {
      var init, last := s[..|s| - 1], s[|s| - 1];
      assert m[..|m| - 1] == MarkRead(init, id, read);
      if last.at >= x.at {
        assert (s + [x])[..|s|] == s;
      } else {
        MarkInsert(init, x, id, read);
        var r := Insert(init, x);
        assert (r + [last])[..|r|] == r;
      }
    }
  }

  lemma {:induction false} MarkSort(s: seq<Item>, id: string, read: bool)
    ensures MarkRead(NewestFirst(s), id, read) == NewestFirst(MarkRead(s, id, read))
  {
    if s != [] {
      var init, last := s[..|s| - 1], s[|s| - 1];
      var m := MarkRead(s, id, read);
      assert m[..|m| - 1] == MarkRead(init, id, read);
      MarkSort(init, id, read);
      MarkInsert(NewestFirst(init), last, id, read);
    }
  }

  lemma {:induction false} MarkGroup(items: seq<Item>, key: string, id: string, read: bool)
    ensures GroupOf(MarkRead(items, id, read), key) == MarkRead(GroupOf(items, key), id, read)
  {
    if items != [] {
      var init, last := items[..|items| - 1], items[|items| - 1];
      var m := MarkRead(items, id, read);
      assert m[..|m| - 1] == MarkRead(init, id, read);
      MarkGroup(init, key, id, read);
      var g := GroupOf(init, key);
      assert (g + [last])[..|g|] == g;
    }
  }

  lemma {:induction false} MarkKeys(items: seq<Item>, id: string, read: bool)
    ensures Keys(MarkRead(items, id, read)) == Keys(items)
  {
    if items != [] {
      var m := MarkRead(items, id, read);
      assert m[..|m| - 1] == MarkRead(items[..|items| - 1], id, read);
      MarkKeys(items[..|items| - 1], id, read);
    }
  }

  lemma {:induction false} MarkView(items: seq<Item>, archived: bool, id: string, read: bool)
    ensures View(MarkRead(items, id, read), archived) == MarkRead(View(items, archived), id, read)
  {
    if items != [] {
      var init, last := items[..|items| - 1], items[|items| - 1];
      var m := MarkRead(items, id, read);
      assert m[..|m| - 1] == MarkRead(init, id, read);
      MarkView(init, archived, id, read);
      var v := View(init, archived);
      assert (v + [last])[..|v|] == v;
    }
  }

  lemma MarkTail(s: seq<Item>, id: string, read: bool)
    requires s != []
    ensures MarkRead(s, id, read)[1..] == MarkRead(s[1..], id, read)
  {
  }

  lemma {:induction false} MarkFirstAnchor(s: seq<Item>, id: string, read: bool)
    ensures FirstAnchor(MarkRead(s, id, read)) == FirstAnchor(s)
  {
    if s != [] {
      MarkFirstAnchor(s[1..], id, read);
      MarkTail(s, id, read);
      assert Anchor(MarkRead(s, id, read)[0]) == Anchor(s[0]);
    }
  }

  lemma MarkRow(items: seq<Item>, key: string, id: string, read: bool)
    requires GroupOf(items, key) != []
    ensures GroupOf(MarkRead(items, id, read), key) != []
    ensures var row := RowFor(items, key);
            RowFor(MarkRead(items, id, read), key) == if row.id == id then row.(read := read) else row
  {
    var g := GroupOf(items, key);
    MarkGroup(items, key, id, read);
    MarkSort(g, id, read);
    NewestFirstSorts(g);
    MarkFirstAnchor(NewestFirst(g), id, read);
  }

  lemma MarkReadSnoc(s: seq<Item>, x: Item, id: string, read: bool)
    ensures MarkRead(s + [x], id, read) == MarkRead(s, id, read) + [if x.id == id then x.(read := read) else x]
  {
    assert (s + [x])[..|s|] == s;
  }

  ghost predicate AllHaveRows(items: seq<Item>, keys: seq<string>) {
    forall k :: k in keys ==> GroupOf(items, k) != []
  }

  lemma RowsSnoc(items: seq<Item>, keys: seq<string>, last: string)
    requires AllHaveRows(items, keys + [last])
    ensures AllHaveRows(items, keys) && GroupOf(items, last) != []
    ensures Rows(items, keys + [last]) == Rows(items, keys) + [RowFor(items, last)]
  {
    var all := keys + [last];
    assert all[..|keys|] == keys && last in all && forall k :: k in keys ==> k in all;
  }

  lemma MarkRowsSnoc(items: seq<Item>, keys: seq<string>, last: string, id: string, read: bool)
    requires AllHaveRows(items, keys + [last]) && AllHaveRows(MarkRead(items, id, read), keys + [last])
    requires AllHaveRows(items, keys) && AllHaveRows(MarkRead(items, id, read), keys)
    requires Rows(MarkRead(items, id, read), keys) == MarkRead(Rows(items, keys), id, read)
    ensures Rows(MarkRead(items, id, read), keys + [last]) == MarkRead(Rows(items, keys + [last]), id, read)
  {
    RowsSnoc(items, keys, last);
    RowsSnoc(MarkRead(items, id, read), keys, last);
    MarkRow(items, last, id, read);
    MarkReadSnoc(Rows(items, keys), RowFor(items, last), id, read);
  }

  lemma {:induction false} MarkRows(items: seq<Item>, keys: seq<string>, id: string, read: bool)
    requires AllHaveRows(items, keys) && AllHaveRows(MarkRead(items, id, read), keys)
    ensures Rows(MarkRead(items, id, read), keys) == MarkRead(Rows(items, keys), id, read)
  {
    if keys != [] {
      var init, last := keys[..|keys| - 1], keys[|keys| - 1];
      assert keys == init + [last];
      MarkRows(items, init, id, read);
      MarkRowsSnoc(items, init, last, id, read);
    }
  }

  lemma MarkGrouped(items: seq<Item>, id: string, read: bool)
    ensures Grouped(MarkRead(items, id, read)) == MarkRead(Grouped(items), id, read)
  {
    AllGrouped(items);
    AllGrouped(MarkRead(items, id, read));
    MarkKeys(items, id, read);
    MarkRows(items, Keys(items), id, read);
    MarkSort(Rows(items, Keys(items)), id, read);
  }

  /** Marking a notification read or unread shows as exactly that on the list: its row changes when it is the row's
      newest notification, and nothing changes when it is an older sibling. */
  lemma MarkingCommutes(items: seq<Item>, archived: bool, id: string, read: bool)
    ensures Listed(MarkRead(items, id, read), archived) == MarkRead(Listed(items, archived), id, read)
  {
    MarkView(items, archived, id, read);
    MarkGrouped(View(items, archived), id, read);
  }

  // ----- what marking does to the badge

  /** The unread, or the read, rows with this notification's id. */
  function RowsMarked(rows: seq<Item>, id: string, read: bool): nat {
    if rows == [] then 0
    else RowsMarked(rows[..|rows| - 1], id, read)
         + if rows[|rows| - 1].id == id && rows[|rows| - 1].read == read then 1 else 0
  }

  lemma RowsMarkedSnoc(rows: seq<Item>, last: Item, id: string, read: bool)
    ensures RowsMarked(rows + [last], id, read)
         == RowsMarked(rows, id, read) + if last.id == id && last.read == read then 1 else 0
  {
    assert (rows + [last])[..|rows|] == rows;
  }

  lemma {:induction false} MarkChangesUnread(rows: seq<Item>, id: string, read: bool)
    ensures Unread(MarkRead(rows, id, read))
         == Unread(rows) + if read then -(RowsMarked(rows, id, false) as int) else RowsMarked(rows, id, true)
  {
    if rows != [] {
      var init, last := rows[..|rows| - 1], rows[|rows| - 1];
      assert rows == init + [last];
      MarkChangesUnread(init, id, read);
      MarkReadSnoc(init, last, id, read);
      UnreadSnoc(init, last);
      UnreadSnoc(MarkRead(init, id, read), if last.id == id then last.(read := read) else last);
      RowsMarkedSnoc(init, last, id, !read);
    }
  }

  /** Marking a notification read takes its row off the badge if the row showed it unread, marking it unread puts it
      back, and neither touches another row. */
  lemma MarkingMovesBadge(items: seq<Item>, id: string, read: bool)
    ensures var rows := Listed(items, false);
            Unread(Listed(MarkRead(items, id, read), false))
            == Unread(rows) + if read then -(RowsMarked(rows, id, false) as int) else RowsMarked(rows, id, true)
  {
    MarkingCommutes(items, false, id, read);
    MarkChangesUnread(Listed(items, false), id, read);
  }

  /** Marking everything read leaves the archive as it is. */
  lemma {:induction false} MarkAllKeepsArchive(items: seq<Item>)
    ensures View(MarkAllRead(items), true) == View(items, true)
  {
    if items != [] {
      var init, last := items[..|items| - 1], items[|items| - 1];
      var marked := MarkAllRead(items);
      assert items == init + [last];
      assert marked == MarkAllRead(init) + [if !last.archived then last.(read := true) else last];
      MarkAllKeepsArchive(init);
      ViewSnoc(init, last, true);
      ViewSnoc(MarkAllRead(init), if !last.archived then last.(read := true) else last, true);
    }
  }
}
