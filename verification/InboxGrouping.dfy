/** One row per issue: grouping notifications, and the unread count built on it. */
module InboxGrouping {
  import opened Basics

  const COMMENT_ID := "comment_id"

  /** `body` stands for the fields the grouping copies without looking at them. */
  datatype Item = Item(id: string, issueId: Option<string>, read: bool, archived: bool, at: int,
                       details: Option<map<string, string>>, body: string)

  function KeyOf(i: Item): string {
    i.issueId.GetOr(i.id)
  }

  /** The comment a notification points to, if it points to one. */
  function Anchor(i: Item): Option<string> {
    if i.details.Some? && COMMENT_ID in i.details.value then Some(i.details.value[COMMENT_ID]) else None
  }

  function Detail(i: Item, k: string): Option<string> {
    if i.details.Some? && k in i.details.value then Some(i.details.value[k]) else None
  }

  // ----- newest first, ties in input order

  function Insert(s: seq<Item>, x: Item): seq<Item> {
    if s == [] then [x]
    else if s[|s| - 1].at >= x.at then s + [x]
    else Insert(s[..|s| - 1], x) + [s[|s| - 1]]
  }

  /** A stable sort by descending time. */
  function NewestFirst(s: seq<Item>): seq<Item> {
    if s == [] then [] else Insert(NewestFirst(s[..|s| - 1]), s[|s| - 1])
  }

  ghost predicate Descending(s: seq<Item>) {
    forall i, j :: 0 <= i < j < |s| ==> s[i].at >= s[j].at
  }

  lemma {:induction false} InsertSorts(s: seq<Item>, x: Item)
    requires Descending(s)
    ensures Descending(Insert(s, x)) && |Insert(s, x)| == |s| + 1
    ensures forall y :: y in Insert(s, x) <==> y in s || y == x
  {
    if s != [] && s[|s| - 1].at < x.at {
      var init, last := s[..|s| - 1], s[|s| - 1];
      InsertSorts(init, x);
      assert forall y :: y in s <==> y in init || y == last;
      forall y | y in Insert(init, x) ensures y.at >= last.at {
        if y in init {
          var i :| 0 <= i < |init| && init[i] == y;
          assert s[i] == y;
        }
      }
    }
  }

  lemma {:induction false} NewestFirstSorts(s: seq<Item>)
    ensures Descending(NewestFirst(s)) && |NewestFirst(s)| == |s|
    ensures forall y :: y in NewestFirst(s) <==> y in s
  {
    if s != [] {
      var init, last := s[..|s| - 1], s[|s| - 1];
      NewestFirstSorts(init);
      InsertSorts(NewestFirst(init), last);
      assert forall y :: y in s <==> y in init || y == last;
    }
  }

  lemma {:induction false} SortedIsFixed(s: seq<Item>)
    requires Descending(s)
    ensures NewestFirst(s) == s
  {
    if s != [] {
      SortedIsFixed(s[..|s| - 1]);
    }
  }

  /** The head of the sorted list: newest, and the first such in input order. */
  ghost predicate IsNewest(s: seq<Item>, k: int) {
    0 <= k < |s| && (forall j :: 0 <= j < |s| ==> s[j].at <= s[k].at) && (forall j :: 0 <= j < k ==> s[j].at < s[k].at)
  }

  lemma {:induction false} InsertHead(s: seq<Item>, x: Item)
    requires Descending(s)
    ensures Insert(s, x) != []
    ensures Insert(s, x)[0] == if s == [] || s[0].at < x.at then x else s[0]
  {
    if s != [] && s[|s| - 1].at < x.at {
      InsertHead(s[..|s| - 1], x);
    }
  }

  lemma {:induction false} HeadIsNewest(s: seq<Item>) returns (k: nat)
    requires s != []
    ensures NewestFirst(s) != [] && IsNewest(s, k) && s[k] == NewestFirst(s)[0]
  {
    var init, last := s[..|s| - 1], s[|s| - 1];
    NewestFirstSorts(init);
    InsertHead(NewestFirst(init), last);
    if init == [] {
      k := 0;
    } else {
      k := HeadIsNewest(init);
      assert init + [last] == s;
      k := if init[k].at < last.at then |init| else k;
    }
  }

  // ----- groups

  function GroupOf(items: seq<Item>, key: string): seq<Item> {
    if items == [] then []
    else
      var rest := GroupOf(items[..|items| - 1], key);
      if KeyOf(items[|items| - 1]) == key then rest + [items[|items| - 1]] else rest
  }

  /** The keys, in the order they first appear. */
  function Keys(items: seq<Item>): seq<string> {
    if items == [] then []
    else
      var rest := Keys(items[..|items| - 1]);
      if KeyOf(items[|items| - 1]) in rest then rest else rest + [KeyOf(items[|items| - 1])]
  }

  /** The first non-empty comment anchor in the list. */
  function FirstAnchor(s: seq<Item>): Option<string> {
    if s == [] then None
    else if Anchor(s[0]).Some? && Anchor(s[0]).value != "" then Anchor(s[0])
    else FirstAnchor(s[1..])
  }

  function WithAnchor(i: Item, comment: string): Item {
    i.(details := Some(i.details.GetOr(map[])[COMMENT_ID := comment]))
  }

  /** The row of a group sorted newest first: its newest item, given the newest comment anchor if it has none. */
  function RowOf(sorted: seq<Item>): Item
    requires sorted != []
  {
    var newest := sorted[0];
    if Anchor(newest).None? && FirstAnchor(sorted).Some? then WithAnchor(newest, FirstAnchor(sorted).value) else newest
  }

  function RowFor(items: seq<Item>, key: string): Item
    requires GroupOf(items, key) != []
  {
    NewestFirstSorts(GroupOf(items, key));
    RowOf(NewestFirst(GroupOf(items, key)))
  }

  lemma {:induction false} GroupMembers(items: seq<Item>, key: string)
    ensures forall i :: i in GroupOf(items, key) <==> i in items && KeyOf(i) == key
    ensures GroupOf(items, key) != [] <==> key in Keys(items)
  {
    if items != [] {
      GroupMembers(items[..|items| - 1], key);
    }
  }

  function Rows(items: seq<Item>, keys: seq<string>): (r: seq<Item>)
    requires forall k :: k in keys ==> GroupOf(items, k) != []
    ensures |r| == |keys| && forall i :: 0 <= i < |r| ==> r[i] == RowFor(items, keys[i])
  {
    if keys == [] then [] else Rows(items, keys[..|keys| - 1]) + [RowFor(items, keys[|keys| - 1])]
  }

  lemma AllGrouped(items: seq<Item>)
    ensures forall k :: k in Keys(items) ==> GroupOf(items, k) != []
  {
    forall k | k in Keys(items) ensures GroupOf(items, k) != [] {
      GroupMembers(items, k);
    }
  }

  /** One row per issue, newest first. */
  function Grouped(items: seq<Item>): seq<Item> {
    AllGrouped(items);
    NewestFirst(Rows(items, Keys(items)))
  }

  method GroupInboxItemsByIssue(items: seq<Item>) returns (r: seq<Item>)
    ensures r == Grouped(items)
  {
    var order, groups := GroupItems(items);
    AllGrouped(items);
    var merged: seq<Item> := [];
    for i := 0 to |order|
      invariant forall k :: k in order[..i] ==> GroupOf(items, k) != []
      invariant merged == Rows(items, order[..i])
    {
      assert order[..i + 1] == order[..i] + [order[i]];
      assert order[i] in order && groups[order[i]] == GroupOf(items, order[i]);
      NewestFirstSorts(groups[order[i]]);
      var row := MergeGroup(NewestFirst(groups[order[i]]));
      merged := merged + [row];
    }
    assert order[..|order|] == order;
    r := NewestFirst(merged);
  }

  /** The groups, and the order in which their keys first occur. */
  method GroupItems(items: seq<Item>) returns (order: seq<string>, groups: map<string, seq<Item>>)
    ensures order == Keys(items)
    ensures forall k :: k in groups <==> k in order
    ensures forall k :: k in groups ==> groups[k] == GroupOf(items, k)
  {
    order, groups := [], map[];
    for i := 0 to |items|
      invariant order == Keys(items[..i])
      invariant forall k :: k in groups <==> k in order
      invariant forall k :: (if k in groups then groups[k] else []) == GroupOf(items[..i], k)
    {
      assert items[..i + 1][..i] == items[..i];
      var key := KeyOf(items[i]);
      var group := if key in groups then groups[key] else [];
      if key !in groups {
        order := order + [key];
      }
      groups := groups[key := group + [items[i]]];
    }
    assert items[..|items|] == items;
  }

  method MergeGroup(group: seq<Item>) returns (row: Item)
    requires group != []
    ensures row == RowOf(group)
  {
    var newest := group[0];
    var commentId := Anchor(newest);
    if commentId.None? {
      var j := 0;
      while j < |group| && !(Anchor(group[j]).Some? && Anchor(group[j]).value != "")
        invariant 0 <= j <= |group|
        invariant FirstAnchor(group) == FirstAnchor(group[j..])
      {
        assert group[j..][1..] == group[j + 1..];
        j := j + 1;
      }
      if j < |group| {
        commentId := Anchor(group[j]);
      }
    }
    if commentId.Some? && commentId.value != "" && Anchor(newest) != commentId {
      return WithAnchor(newest, commentId.value);
    }
    return newest;
  }

  // ----- what a row is

  lemma {:induction false} GroupIndex(items: seq<Item>, key: string, k: nat) returns (i: nat)
    requires IsNewest(GroupOf(items, key), k)
    ensures i < |items| && items[i] == GroupOf(items, key)[k] && KeyOf(items[i]) == key
    ensures forall j :: 0 <= j < |items| && KeyOf(items[j]) == key ==> items[j].at <= items[i].at
    ensures forall j :: 0 <= j < i && KeyOf(items[j]) == key ==> items[j].at < items[i].at
  {
    var init, last := items[..|items| - 1], items[|items| - 1];
    var g := GroupOf(init, key);
    if KeyOf(last) != key {
      i := GroupIndex(init, key, k);
    } else if k < |g| {
      assert GroupOf(items, key)[..|g|] == g;
      assert forall j :: 0 <= j < |g| ==> GroupOf(items, key)[j] == g[j];
      i := GroupIndex(init, key, k);
      assert GroupOf(items, key)[|g|] == last;
    } else {
      i := |items| - 1;
      GroupMembers(init, key);
      forall j | 0 <= j < |init| && KeyOf(init[j]) == key ensures init[j].at < last.at {
        assert init[j] in g;
        var m :| 0 <= m < |g| && g[m] == init[j];
        assert GroupOf(items, key)[m] == g[m];
      }
    }
  }

  /** A row is the newest item of its issue, the first in input order on ties, carrying its own comment anchor or
      else the newest one in the group. */
  lemma RowIsNewest(items: seq<Item>, key: string) returns (i: nat)
    requires GroupOf(items, key) != []
    ensures i < |items| && KeyOf(items[i]) == key
    ensures forall j :: 0 <= j < |items| && KeyOf(items[j]) == key ==> items[j].at <= items[i].at
    ensures forall j :: 0 <= j < i && KeyOf(items[j]) == key ==> items[j].at < items[i].at
    ensures var row := RowFor(items, key);
            && row.(details := items[i].details) == items[i]
            && (forall k :: k != COMMENT_ID ==> Detail(row, k) == Detail(items[i], k))
            && Anchor(row) == (if Anchor(items[i]).Some? then Anchor(items[i])
                               else FirstAnchor(NewestFirst(GroupOf(items, key))))
  {
    var k := HeadIsNewest(GroupOf(items, key));
    i := GroupIndex(items, key, k);
  }

  /** The anchor handed down is the newest there is. */
  lemma {:induction false} FirstAnchorIsNewest(sorted: seq<Item>)
    requires Descending(sorted)
    ensures FirstAnchor(sorted).None? ==>
              forall i :: i in sorted ==> Anchor(i).None? || Anchor(i).value == ""
    ensures FirstAnchor(sorted).Some? ==>
              exists i :: i in sorted && Anchor(i) == FirstAnchor(sorted) && FirstAnchor(sorted).value != ""
                          && forall j :: j in sorted && Anchor(j).Some? && Anchor(j).value != "" ==> j.at <= i.at
  {
    if sorted != [] {
      assert forall j :: j in sorted ==> j.at <= sorted[0].at;
      if !(Anchor(sorted[0]).Some? && Anchor(sorted[0]).value != "") {
        FirstAnchorIsNewest(sorted[1..]);
        assert forall j :: j in sorted <==> j == sorted[0] || j in sorted[1..];
      }
    }
  }

  // ----- the list as a whole

  ghost predicate DistinctKeys(rows: seq<Item>) {
    forall i, j :: 0 <= i < j < |rows| ==> KeyOf(rows[i]) != KeyOf(rows[j])
  }

  lemma {:induction false} KeysDistinct(items: seq<Item>)
    ensures Distinct(Keys(items))
  {
    if items != [] {
      KeysDistinct(items[..|items| - 1]);
    }
  }

  lemma RowKeepsKey(items: seq<Item>, key: string)
    requires GroupOf(items, key) != []
    ensures KeyOf(RowFor(items, key)) == key
  {
    var i := RowIsNewest(items, key);
    assert RowFor(items, key).issueId == items[i].issueId && RowFor(items, key).id == items[i].id;
  }

  lemma RowKeys(items: seq<Item>)
    ensures forall k :: k in Keys(items) ==> GroupOf(items, k) != []
    ensures var rows := Rows(items, Keys(items));
            DistinctKeys(rows) && forall i :: 0 <= i < |rows| ==> KeyOf(rows[i]) == Keys(items)[i]
  {
    AllGrouped(items);
    KeysDistinct(items);
    var rows := Rows(items, Keys(items));
    forall i | 0 <= i < |rows| ensures KeyOf(rows[i]) == Keys(items)[i] {
      assert Keys(items)[i] in Keys(items);
      RowKeepsKey(items, Keys(items)[i]);
    }
  }

  lemma {:induction false} InsertKeepsDistinct(s: seq<Item>, x: Item)
    requires Descending(s) && DistinctKeys(s) && forall y :: y in s ==> KeyOf(y) != KeyOf(x)
    ensures DistinctKeys(Insert(s, x))
  {
    if s != [] && s[|s| - 1].at < x.at {
      var init, last := s[..|s| - 1], s[|s| - 1];
      assert forall y :: y in init ==> y in s;
      InsertKeepsDistinct(init, x);
      InsertSorts(init, x);
      var r := Insert(init, x);
      forall y | y in r ensures KeyOf(y) != KeyOf(last) {
        if y in init {
          var j :| 0 <= j < |init| && init[j] == y;
          assert s[j] == y;
        } else {
          assert last in s;
        }
      }
    }
  }

  lemma {:induction false} SortKeepsDistinct(s: seq<Item>)
    requires DistinctKeys(s)
    ensures DistinctKeys(NewestFirst(s))
  {
    if s != [] {
      var init, last := s[..|s| - 1], s[|s| - 1];
      SortKeepsDistinct(init);
      NewestFirstSorts(init);
      forall y | y in NewestFirst(init) ensures KeyOf(y) != KeyOf(last) {
        var j :| 0 <= j < |init| && init[j] == y;
        assert s[j] == y;
      }
      InsertKeepsDistinct(NewestFirst(init), last);
    }
  }

  /** Exactly one row per issue key among the items, newest first, each the row of its group. */
  lemma GroupedShape(items: seq<Item>)
    ensures Descending(Grouped(items))
    ensures DistinctKeys(Grouped(items))
    ensures forall row :: row in Grouped(items) <==>
              KeyOf(row) in Keys(items) && GroupOf(items, KeyOf(row)) != [] && row == RowFor(items, KeyOf(row))
    ensures forall i :: i in items ==> exists row :: row in Grouped(items) && KeyOf(row) == KeyOf(i)
  {
    RowKeys(items);
    var rows := Rows(items, Keys(items));
    NewestFirstSorts(rows);
    SortKeepsDistinct(rows);
    forall row
      ensures row in rows <==>
              KeyOf(row) in Keys(items) && GroupOf(items, KeyOf(row)) != [] && row == RowFor(items, KeyOf(row))
    {
      if row in rows {
        var i :| 0 <= i < |rows| && rows[i] == row;
        assert Keys(items)[i] in Keys(items);
      }
      if KeyOf(row) in Keys(items) && row == RowFor(items, KeyOf(row)) {
        var i :| 0 <= i < |Keys(items)| && Keys(items)[i] == KeyOf(row);
        assert rows[i] == row;
      }
    }
    forall x | x in items
      ensures exists row :: row in Grouped(items) && KeyOf(row) == KeyOf(x)
    {
      GroupMembers(items, KeyOf(x));
      assert x in GroupOf(items, KeyOf(x));
      RowKeepsKey(items, KeyOf(x));
      assert RowFor(items, KeyOf(x)) in rows;
    }
  }

  lemma {:induction false} NoGroup(items: seq<Item>, key: string)
    requires forall i :: i in items ==> KeyOf(i) != key
    ensures GroupOf(items, key) == []
  {
    if items != [] {
      assert items[|items| - 1] in items;
      NoGroup(items[..|items| - 1], key);
    }
  }

  /** Lists with one item per key are left alone. */
  lemma {:induction false} SingletonGroups(rows: seq<Item>, i: nat)
    requires DistinctKeys(rows) && i < |rows|
    ensures GroupOf(rows, KeyOf(rows[i])) == [rows[i]]
  {
    var init, last := rows[..|rows| - 1], rows[|rows| - 1];
    if i < |init| {
      SingletonGroups(init, i);
    } else {
      forall x | x in init ensures KeyOf(x) != KeyOf(last) {
        var j :| 0 <= j < |init| && init[j] == x;
        assert rows[j] == x;
      }
      NoGroup(init, KeyOf(last));
    }
  }

  lemma {:induction false} KeysOfDistinct(rows: seq<Item>)
    requires DistinctKeys(rows)
    ensures |Keys(rows)| == |rows| && forall i :: 0 <= i < |rows| ==> Keys(rows)[i] == KeyOf(rows[i])
  {
    if rows != [] {
      KeysOfDistinct(rows[..|rows| - 1]);
    }
  }

  lemma RegroupRow(g: seq<Item>, i: nat)
    requires DistinctKeys(g) && i < |g|
    ensures GroupOf(g, KeyOf(g[i])) != [] && RowFor(g, KeyOf(g[i])) == g[i]
  {
    SingletonGroups(g, i);
    var one := [g[i]];
    SortedIsFixed(one);
    assert FirstAnchor(one[1..]) == None;
  }

  /** A list that is newest first with one item per issue is its own grouping. */
  lemma GroupedFixed(g: seq<Item>)
    requires DistinctKeys(g) && Descending(g)
    ensures Grouped(g) == g
  {
    AllGrouped(g);
    KeysOfDistinct(g);
    var rows := Rows(g, Keys(g));
    forall i | 0 <= i < |g| ensures rows[i] == g[i] {
      RegroupRow(g, i);
    }
    assert rows == g;
    SortedIsFixed(g);
  }

  /** Grouping is idempotent. */
  lemma GroupedIdempotent(items: seq<Item>)
    ensures Grouped(Grouped(items)) == Grouped(items)
  {
    GroupedShape(items);
    GroupedFixed(Grouped(items));
  }
}
