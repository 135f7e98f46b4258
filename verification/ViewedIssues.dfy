/** The issues last opened in each workspace, most recent first, ten at most. */
module ViewedIssues {
  import opened Basics

  const CAPACITY := 10

  type Lists = map<string, seq<string>>

  function ListOf(m: Lists, wsId: string): seq<string> {
    if wsId in m then m[wsId] else []
  }

  /** At most the first n. */
  function Upto<T>(s: seq<T>, n: nat): seq<T> {
    if |s| > n then s[..n] else s
  }

  function Pushed(list: seq<string>, id: string): seq<string> {
    Upto([id] + Without(list, id), CAPACITY)
  }

  class ViewedIssuesStore {
    var byWorkspace: Lists

    constructor ()
      ensures byWorkspace == map[]
    {
      byWorkspace := map[];
    }

    method Push(wsId: string, id: string)
      modifies this
      ensures byWorkspace == Next(old(byWorkspace), Opened(wsId, id))
    {
      byWorkspace := byWorkspace[wsId := Pushed(ListOf(byWorkspace, wsId), id)];
    }

    method Remove(wsId: string, id: string)
      modifies this
      ensures byWorkspace == Next(old(byWorkspace), Gone(wsId, id))
    {
      if wsId !in byWorkspace {
        return;
      }
      byWorkspace := byWorkspace[wsId := Without(byWorkspace[wsId], id)];
    }
  }

  // ----- runs

  datatype Event = Opened(wsId: string, id: string) | Gone(wsId: string, id: string)

  function Next(m: Lists, e: Event): Lists {
    if e.Opened? then m[e.wsId := Pushed(ListOf(m, e.wsId), e.id)]
    else if e.wsId in m then m[e.wsId := Without(m[e.wsId], e.id)]
    else m
  }

  function Run(events: seq<Event>): Lists {
    if events == [] then map[] else Next(Run(events[..|events| - 1]), events[|events| - 1])
  }

  // ----- what the list should be, from the whole history

  /** The ids opened in a workspace, newest first, repetitions included. */
  function History(events: seq<Event>, wsId: string): seq<string> {
    if events == [] then []
    else
      var e, earlier := events[|events| - 1], History(events[..|events| - 1], wsId);
      if e == Opened(wsId, e.id) then [e.id] + earlier else earlier
  }

  /** Each element once, where it first occurs. */
  function Firsts(s: seq<string>): (r: seq<string>)
    ensures forall x :: x in r <==> x in s
  {
    if s == [] then [] else [s[0]] + Without(Firsts(s[1..]), s[0])
  }

  /** Every id by its latest opening, unbounded, without those removed since. */
  function Recency(events: seq<Event>, wsId: string): seq<string> {
    if events == [] then []
    else
      var e, earlier := events[|events| - 1], Recency(events[..|events| - 1], wsId);
      if e.wsId != wsId then earlier
      else if e.Opened? then [e.id] + Without(earlier, e.id)
      else Without(earlier, e.id)
  }

  lemma {:induction false} WithoutOfPrefix(a: seq<string>, b: seq<string>, x: string)
    requires a <= b
    ensures Without(a, x) <= Without(b, x)
  {
    if a != [] {
      WithoutOfPrefix(a[1..], b[1..], x);
    }
  }

  lemma {:induction false} WithoutLosesOne(s: seq<string>, x: string)
    requires Distinct(s)
    ensures |s| - 1 <= |Without(s, x)| <= |s|
    ensures x !in s ==> Without(s, x) == s
  {
    if s != [] {
      WithoutLosesOne(s[1..], x);
      assert s[0] !in s[1..];
    }
  }

  lemma {:induction false} RecencyDistinct(events: seq<Event>, wsId: string)
    ensures Distinct(Recency(events, wsId))
  {
    if events != [] {
      var e, earlier := events[|events| - 1], Recency(events[..|events| - 1], wsId);
      RecencyDistinct(events[..|events| - 1], wsId);
      WithoutKeepsDistinct(earlier, e.id);
      DistinctAppend([e.id], Without(earlier, e.id));
    }
  }

  /** Over every run of pushes and removals, in any mix of workspaces: the list is the newest stretch of the full
      recency order, never with a gap, a repetition, or an eleventh entry. */
  lemma {:induction false} ListIsNewestStretch(events: seq<Event>, wsId: string)
    ensures ListOf(Run(events), wsId) <= Recency(events, wsId)
    ensures |ListOf(Run(events), wsId)| <= CAPACITY
    ensures Distinct(ListOf(Run(events), wsId))
  {
    RecencyDistinct(events, wsId);
    if events != [] {
      var init, e := events[..|events| - 1], events[|events| - 1];
      ListIsNewestStretch(init, wsId);
      WithoutOfPrefix(ListOf(Run(init), wsId), Recency(init, wsId), e.id);
      WithoutLosesOne(ListOf(Run(init), wsId), e.id);
    }
  }

  ghost predicate OnlyOpened(events: seq<Event>) {
    forall e :: e in events ==> e.Opened?
  }

  lemma {:induction false} RecencyOfOpenings(events: seq<Event>, wsId: string)
    requires OnlyOpened(events)
    ensures Recency(events, wsId) == Firsts(History(events, wsId))
  {
    if events != [] {
      var init, e := events[..|events| - 1], events[|events| - 1];
      assert e in events && forall x :: x in init ==> x in events;
      RecencyOfOpenings(init, wsId);
      if e.wsId == wsId {
        assert e == Opened(wsId, e.id);
        assert ([e.id] + History(init, wsId))[1..] == History(init, wsId);
      }
    }
  }

  lemma PushKeepsNewest(full: seq<string>, id: string)
    requires Distinct(full)
    ensures Pushed(Upto(full, CAPACITY), id) == Upto([id] + Without(full, id), CAPACITY)
  {
    var list := Upto(full, CAPACITY);
    WithoutOfPrefix(list, full, id);
    WithoutLosesOne(list, id);
    WithoutLosesOne(full, id);
    assert [id] + Without(list, id) <= [id] + Without(full, id);
  }

  /** Without removals: exactly the first ten distinct ids of the reversed history of the workspace. */
  lemma {:induction false} ListIsFirstTen(events: seq<Event>, wsId: string)
    requires OnlyOpened(events)
    ensures ListOf(Run(events), wsId) == Upto(Firsts(History(events, wsId)), CAPACITY)
  {
    RecencyOfOpenings(events, wsId);
    if events != [] {
      var init, e := events[..|events| - 1], events[|events| - 1];
      assert e in events && forall x :: x in init ==> x in events;
      ListIsFirstTen(init, wsId);
      RecencyOfOpenings(init, wsId);
      RecencyDistinct(init, wsId);
      PushKeepsNewest(Recency(init, wsId), e.id);
    }
  }

  // ----- what `Firsts` means

  function FirstIndex(s: seq<string>, x: string): (i: nat)
    requires x in s
    ensures i < |s| && s[i] == x && x !in s[..i]
  {
    if s[0] == x then 0 else
      var i := FirstIndex(s[1..], x);
      assert s[..i + 1] == [s[0]] + s[1..][..i];
      i + 1
  }

  lemma {:induction false} WithoutKeepsPlaces(s: seq<string>, x: string, i: nat, j: nat) returns (p: nat, q: nat)
    requires i < j < |Without(s, x)|
    ensures p < q < |s| && s[p] == Without(s, x)[i] && s[q] == Without(s, x)[j]
  {
    if s[0] == x {
      p, q := WithoutKeepsPlaces(s[1..], x, i, j);
      p, q := p + 1, q + 1;
    } else if i > 0 {
      p, q := WithoutKeepsPlaces(s[1..], x, i - 1, j - 1);
      p, q := p + 1, q + 1;
    } else {
      assert Without(s, x)[j] in Without(s[1..], x);
      q :| 1 <= q < |s| && s[q] == Without(s, x)[j];
      p := 0;
    }
  }

  ghost predicate InFirstOrder(s: seq<string>, r: seq<string>) {
    && (forall i :: 0 <= i < |r| ==> r[i] in s)
    && forall i, j :: 0 <= i < j < |r| ==> FirstIndex(s, r[i]) < FirstIndex(s, r[j])
  }

  lemma WithoutInFirstOrder(s: seq<string>, r: seq<string>, x: string)
    requires InFirstOrder(s, r)
    ensures InFirstOrder(s, Without(r, x))
  {
    var w := Without(r, x);
    forall i | 0 <= i < |w|
      ensures w[i] in s
    {
      assert w[i] in w;
    }
    forall i, j | 0 <= i < j < |w|
      ensures FirstIndex(s, w[i]) < FirstIndex(s, w[j])
    {
      var p, q := WithoutKeepsPlaces(r, x, i, j);
    }
  }

  lemma ConsInFirstOrder(s: seq<string>, r: seq<string>)
    requires s != [] && InFirstOrder(s[1..], r) && s[0] !in r
    ensures InFirstOrder(s, [s[0]] + r)
  {
    var c := [s[0]] + r;
    forall i, j | 0 <= i < j < |c|
      ensures FirstIndex(s, c[i]) < FirstIndex(s, c[j])
    {
      assert c[j] == r[j - 1] && r[j - 1] in r;
      if i > 0 {
        assert c[i] == r[i - 1] && r[i - 1] in r;
      }
    }
  }

  /** No repetition, and ordered by first occurrence. */
  lemma {:induction false} FirstsInOrder(s: seq<string>)
    ensures Distinct(Firsts(s)) && InFirstOrder(s, Firsts(s))
  {
    if s != [] {
      var rest := Without(Firsts(s[1..]), s[0]);
      FirstsInOrder(s[1..]);
      WithoutKeepsDistinct(Firsts(s[1..]), s[0]);
      DistinctAppend([s[0]], rest);
      WithoutInFirstOrder(s[1..], Firsts(s[1..]), s[0]);
      ConsInFirstOrder(s, rest);
    }
  }
}
