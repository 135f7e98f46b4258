/** Folding runs of identical activity entries into one. */
module TimelineCoalesce {
  import opened Basics

  /** A parsed timestamp, or one that does not parse. */
  datatype Instant = At(ms: int) | Unparsable

  /** `text` stands for the fields the coalescing copies without looking at them. */
  datatype Entry =
    | Activity(id: string, action: Option<string>, actorType: string, actorId: string, at: Instant,
               count: Option<int>, text: string)
    | Comment(id: string, at: Instant, text: string)

  const COALESCE_MS := 120000

  predicate NoTimeLimit(action: Option<string>) {
    action in {Some("task_completed"), Some("task_failed")}
  }

  predicate NeverCoalesces(action: Option<string>) {
    action == Some("squad_leader_evaluated")
  }

  /** Absolute gap at most two minutes; a timestamp that does not parse is close to nothing. */
  predicate Close(a: Instant, b: Instant) {
    a.At? && b.At? && -COALESCE_MS <= a.ms - b.ms <= COALESCE_MS
  }

  predicate SameKind(a: Entry, b: Entry) {
    a.Activity? && b.Activity? && a.action == b.action && a.actorType == b.actorType && a.actorId == b.actorId
  }

  /** Whether `next` folds into `prev`. */
  predicate Mergeable(prev: Entry, next: Entry) {
    SameKind(prev, next) && !NeverCoalesces(next.action) && (NoTimeLimit(next.action) || Close(next.at, prev.at))
  }

  function Merge(prev: Entry, next: Entry): Entry
    requires prev.Activity? && next.Activity?
  {
    next.(count := Some(prev.count.GetOr(1) + 1))
  }

  function Add(out: seq<Entry>, e: Entry): seq<Entry> {
    if out != [] && Mergeable(out[|out| - 1], e)
    then out[..|out| - 1] + [Merge(out[|out| - 1], e)]
    else out + [e]
  }

  function Coalesce(entries: seq<Entry>): seq<Entry> {
    if entries == [] then [] else Add(Coalesce(entries[..|entries| - 1]), entries[|entries| - 1])
  }

  method CoalesceTimeline(entries: seq<Entry>) returns (out: seq<Entry>)
    ensures out == Coalesce(entries)
  {
    out := [];
    for i := 0 to |entries|
      invariant out == Coalesce(entries[..i])
    {
      assert entries[..i + 1][..i] == entries[..i];
      out := FoldOrPush(out, entries[i]);
    }
    assert entries[..|entries|] == entries;
  }

  /** The body of the loop. */
  method FoldOrPush(out: seq<Entry>, entry: Entry) returns (next: seq<Entry>)
    ensures next == Add(out, entry)
  {
    if entry.Activity? && |out| > 0 {
      var prev := out[|out| - 1];
      if !NeverCoalesces(entry.action)
         && prev.Activity? && prev.action == entry.action
         && prev.actorType == entry.actorType && prev.actorId == entry.actorId
         && (NoTimeLimit(entry.action) || Close(entry.at, prev.at)) {
        return out[|out| - 1 := entry.(count := Some(prev.count.GetOr(1) + 1))];
      }
    }
    next := out + [entry];
  }

  // ----- conservation

  function CountOf(e: Entry): int {
    if e.Activity? then e.count.GetOr(1) else 1
  }

  function Total(entries: seq<Entry>): int {
    if entries == [] then 0 else Total(entries[..|entries| - 1]) + CountOf(entries[|entries| - 1])
  }

  /** Whatever counts the entries carry, folding one entry in adds exactly its unit: a merge forgets the count the
      newer entry came with and counts it as one. */
  lemma AddTotal(out: seq<Entry>, e: Entry)
    ensures Total(Add(out, e)) == Total(out) + if Add(out, e) == out + [e] then CountOf(e) else 1
  {
    var r := Add(out, e);
    if r != out + [e] {
      assert r[..|r| - 1] == out[..|out| - 1];
    } else {
      assert r[..|r| - 1] == out;
    }
  }

  /** Every input entry is counted once. */
  lemma {:induction false} CountsSumToInput(entries: seq<Entry>)
    requires forall e :: e in entries && e.Activity? ==> e.count.None?
    ensures Total(Coalesce(entries)) == |entries|
  {
    if entries != [] {
      var init := entries[..|entries| - 1];
      CountsSumToInput(init);
      AddTotal(Coalesce(init), entries[|entries| - 1]);
    }
  }

  /** Entries that never fold, in order. */
  function Kept(entries: seq<Entry>): seq<Entry> {
    if entries == [] then []
    else
      var e := entries[|entries| - 1];
      var rest := Kept(entries[..|entries| - 1]);
      if e.Comment? || NeverCoalesces(e.action) then rest + [e] else rest
  }

  /** Comments and squad evaluations survive one for one, unchanged and in order. */
  lemma {:induction false} KeptSurvive(entries: seq<Entry>)
    ensures Kept(Coalesce(entries)) == Kept(entries)
  {
    if entries != [] {
      var init, e := entries[..|entries| - 1], entries[|entries| - 1];
      KeptSurvive(init);
      var out := Coalesce(init);
      var r := Add(out, e);
      if out != [] && Mergeable(out[|out| - 1], e) {
        assert r[..|r| - 1] == out[..|out| - 1];
      } else {
        assert r[..|r| - 1] == out;
      }
    }
  }

  // ----- no two neighbours can still merge

  /** Times that parse do not go back. */
  ghost predicate TimeOrdered(entries: seq<Entry>) {
    forall i, j :: 0 <= i < j < |entries| && entries[i].at.At? && entries[j].at.At?
                   ==> entries[i].at.ms <= entries[j].at.ms
  }

  ghost predicate Settled(out: seq<Entry>) {
    forall i :: 0 < i < |out| ==> !Mergeable(out[i - 1], out[i])
  }

  ghost predicate HasTime(entries: seq<Entry>, t: Instant) {
    exists j :: 0 <= j < |entries| && entries[j].at == t
  }

  /** Each output time is the time of some input. */
  lemma {:induction false} OutputTimes(entries: seq<Entry>)
    ensures forall e :: e in Coalesce(entries) ==> HasTime(entries, e.at)
  {
    if entries != [] {
      var init, last := entries[..|entries| - 1], entries[|entries| - 1];
      OutputTimes(init);
      forall e | e in Coalesce(entries)
        ensures HasTime(entries, e.at)
      {
        if e.at == last.at {
          assert entries[|entries| - 1].at == e.at;
        } else {
          assert e in Coalesce(init);
          var j :| 0 <= j < |init| && init[j].at == e.at;
          assert entries[j].at == e.at;
        }
      }
    }
  }

  /** A later entry of the same kind is no easier to merge. */
  lemma LaterIsNoCloser(p: Entry, a: Entry, b: Entry)
    requires !Mergeable(p, a) && SameKind(a, b) && Mergeable(a, b)
    requires p.at.At? && a.at.At? ==> p.at.ms <= a.at.ms
    requires a.at.At? && b.at.At? ==> a.at.ms <= b.at.ms
    ensures !Mergeable(p, Merge(a, b))
  {
  }

  lemma {:induction false} OutputSettled(entries: seq<Entry>)
    requires TimeOrdered(entries)
    ensures Settled(Coalesce(entries)) && TimeOrdered(Coalesce(entries))
  {
    if entries != [] {
      var init, e := entries[..|entries| - 1], entries[|entries| - 1];
      OutputSettled(init);
      OutputTimes(init);
      var out := Coalesce(init);
      forall i | 0 <= i < |out| && out[i].at.At? && e.at.At?
        ensures out[i].at.ms <= e.at.ms
      {
        assert out[i] in out;
        var j :| 0 <= j < |init| && init[j].at == out[i].at;
        assert entries[j].at == out[i].at;
      }
      AddSettled(out, e);
    }
  }

  lemma AddSettled(out: seq<Entry>, e: Entry)
    requires Settled(out) && TimeOrdered(out)
    requires forall i :: 0 <= i < |out| && out[i].at.At? && e.at.At? ==> out[i].at.ms <= e.at.ms
    ensures Settled(Add(out, e)) && TimeOrdered(Add(out, e))
  {
    if out != [] && Mergeable(out[|out| - 1], e) {
      if |out| > 1 {
        LaterIsNoCloser(out[|out| - 2], out[|out| - 1], e);
      }
    }
  }

  lemma {:induction false} SettledIsFixed(out: seq<Entry>)
    requires Settled(out)
    ensures Coalesce(out) == out
  {
    if out != [] {
      SettledIsFixed(out[..|out| - 1]);
    }
  }

  /** For time-ordered input a second pass changes nothing. */
  lemma CoalesceIdempotent(entries: seq<Entry>)
    requires TimeOrdered(entries)
    ensures Coalesce(Coalesce(entries)) == Coalesce(entries)
  {
    OutputSettled(entries);
    SettledIsFixed(Coalesce(entries));
  }

  lemma {:induction false} CoalesceLength(entries: seq<Entry>)
    ensures |Coalesce(entries)| <= |entries|
    ensures Coalesce(entries) == entries ==> Settled(entries)
  {
    if entries != [] {
      var init, e := entries[..|entries| - 1], entries[|entries| - 1];
      CoalesceLength(init);
      if Coalesce(entries) == entries {
        assert Coalesce(init) == init by {
          assert |Coalesce(init)| == |init|;
          assert Coalesce(entries)[..|init|] == Coalesce(init);
        }
      }
    }
  }

  /** For any input at all, a list is left as it is exactly when no two neighbours can merge. */
  lemma FixedExactlyWhenSettled(entries: seq<Entry>)
    ensures Coalesce(entries) == entries <==> Settled(entries)
  {
    CoalesceLength(entries);
    if Settled(entries) {
      SettledIsFixed(entries);
    }
  }

  // ----- when one pass is enough

  function AddEnd(ends: seq<nat>, n: nat, merges: bool): seq<nat> {
    (if merges && ends != [] then ends[..|ends| - 1] else ends) + [n]
  }

  predicate MergesAt(entries: seq<Entry>, n: int) {
    0 < n < |entries| && Mergeable(entries[n - 1], entries[n])
  }

  /** The places where an output entry ends, for input in any order. */
  function Ends(entries: seq<Entry>): seq<nat> {
    if entries == [] then []
    else AddEnd(Ends(entries[..|entries| - 1]), |entries| - 1, MergesAt(entries, |entries| - 1))
  }

  /** Alike in everything a merge looks at. */
  predicate Alike(a: Entry, b: Entry) {
    (SameKind(a, b) && a.at == b.at) || (a.Comment? && b.Comment?)
  }

  lemma AlikeMerges(a: Entry, b: Entry, c: Entry, d: Entry)
    requires Alike(a, b) && Alike(c, d)
    ensures Mergeable(a, c) <==> Mergeable(b, d)
  {
  }

  ghost predicate Matches(out: seq<Entry>, ends: seq<nat>, entries: seq<Entry>) {
    && |out| == |ends|
    && (forall k :: 0 <= k < |ends| ==> ends[k] < |entries| && Alike(out[k], entries[ends[k]]))
    && (entries != [] ==> ends != [] && ends[|ends| - 1] == |entries| - 1)
  }

  lemma MergesAlike(out: seq<Entry>, ends: seq<nat>, entries: seq<Entry>, e: Entry)
    requires Matches(out, ends, entries)
    ensures out != [] && Mergeable(out[|out| - 1], e) <==> MergesAt(entries + [e], |entries|)
  {
    var n, all := |entries|, entries + [e];
    if n > 0 {
      assert all[n - 1] == entries[n - 1] && all[n] == e;
      AlikeMerges(out[|out| - 1], entries[n - 1], e, e);
    }
  }

  lemma AddMatches(out: seq<Entry>, ends: seq<nat>, entries: seq<Entry>, e: Entry)
    requires Matches(out, ends, entries)
    ensures Matches(Add(out, e), AddEnd(ends, |entries|, MergesAt(entries + [e], |entries|)), entries + [e])
  {
    MergesAlike(out, ends, entries, e);
    var all, now := entries + [e], AddEnd(ends, |entries|, MergesAt(entries + [e], |entries|));
    forall k | 0 <= k < |now|
      ensures now[k] < |all| && Alike(Add(out, e)[k], all[now[k]])
    {
      if k < |now| - 1 {
        assert Add(out, e)[k] == out[k] && now[k] == ends[k];
      }
    }
  }

  /** Each output entry is, to a merge, the input entry it ends with. */
  lemma {:induction false} OutputEnds(entries: seq<Entry>)
    ensures Matches(Coalesce(entries), Ends(entries), entries)
  {
    if entries != [] {
      var init := entries[..|entries| - 1];
      OutputEnds(init);
      AddMatches(Coalesce(init), Ends(init), init, entries[|entries| - 1]);
      assert init + [entries[|entries| - 1]] == entries;
    }
  }

  predicate IsEnd(entries: seq<Entry>, i: int) {
    0 <= i < |entries| && !MergesAt(entries, i + 1)
  }

  ghost predicate Ascends(ends: seq<nat>) {
    forall k, l :: 0 <= k < l < |ends| ==> ends[k] < ends[l]
  }

  lemma InAddEnd(ends: seq<nat>, n: nat, merges: bool, i: int)
    requires Ascends(ends)
    ensures i in AddEnd(ends, n, merges) <==>
            i == n || (i in ends && !(merges && i == ends[|ends| - 1]))
  {
    if i in ends && merges && i != ends[|ends| - 1] {
      var k :| 0 <= k < |ends| && ends[k] == i;
      assert AddEnd(ends, n, merges)[k] == i;
    }
    if i in AddEnd(ends, n, merges) && i != n {
      var k :| 0 <= k < |AddEnd(ends, n, merges)| && AddEnd(ends, n, merges)[k] == i;
      assert ends[k] == i;
    }
  }

  lemma {:induction false} EndsAscend(entries: seq<Entry>)
    ensures Ascends(Ends(entries)) && forall k :: 0 <= k < |Ends(entries)| ==> Ends(entries)[k] < |entries|
  {
    if entries != [] {
      EndsAscend(entries[..|entries| - 1]);
    }
  }

  lemma IsEndSnoc(init: seq<Entry>, e: Entry, i: int)
    ensures IsEnd(init + [e], i) <==>
            i == |init| || (IsEnd(init, i) && !(MergesAt(init + [e], |init|) && i == |init| - 1))
  {
    if 0 <= i < |init| - 1 {
      assert (init + [e])[i] == init[i] && (init + [e])[i + 1] == init[i + 1];
    }
  }

  /** The ends are exactly the entries that do not merge with their successor. */
  lemma {:induction false} EndsExactly(entries: seq<Entry>, i: int)
    ensures i in Ends(entries) <==> IsEnd(entries, i)
  {
    if entries != [] {
      var n, init := |entries| - 1, entries[..|entries| - 1];
      EndsExactly(init, i);
      EndsAscend(init);
      LastEnd(init);
      InAddEnd(Ends(init), n, MergesAt(entries, n), i);
      assert entries == init + [entries[n]];
      IsEndSnoc(init, entries[n], i);
    }
  }

  lemma LastEnd(entries: seq<Entry>)
    ensures Ends(entries) == [] <==> entries == []
    ensures entries != [] ==> Ends(entries)[|Ends(entries)| - 1] == |entries| - 1
  {
  }

  /** A longest stretch of entries each of which merges with its successor. */
  ghost predicate MergeRun(entries: seq<Entry>, i: int, j: int) {
    && 0 < i <= j < |entries|
    && !Mergeable(entries[i - 1], entries[i])
    && (forall k :: i <= k < j ==> Mergeable(entries[k], entries[k + 1]))
    && (j + 1 < |entries| ==> !Mergeable(entries[j], entries[j + 1]))
  }

  /** No such stretch ends with an entry that the entry before the stretch could have taken. */
  ghost predicate RunsStayApart(entries: seq<Entry>) {
    forall i, j :: MergeRun(entries, i, j) ==> !Mergeable(entries[i - 1], entries[j])
  }

  lemma NeighbourEndsAreRun(entries: seq<Entry>, k: nat)
    requires 0 < k < |Ends(entries)|
    ensures var a, b := Ends(entries)[k - 1], Ends(entries)[k]; MergeRun(entries, a + 1, b)
  {
    var ends := Ends(entries);
    var a, b := ends[k - 1], ends[k];
    EndsAscend(entries);
    EndsExactly(entries, a);
    EndsExactly(entries, b);
    assert forall l :: 0 <= l < |ends| ==> ends[l] <= a || b <= ends[l] by {
      forall l | 0 <= l < |ends| ensures ends[l] <= a || b <= ends[l] {
        assert l <= k - 1 || k <= l;
      }
    }
    forall x | a + 1 <= x < b
      ensures Mergeable(entries[x], entries[x + 1])
    {
      EndsExactly(entries, x);
      assert x !in ends;
    }
  }

  lemma RunIsNeighbourEnds(entries: seq<Entry>, i: int, j: int) returns (k: nat)
    requires MergeRun(entries, i, j)
    ensures 0 < k < |Ends(entries)| && Ends(entries)[k - 1] == i - 1 && Ends(entries)[k] == j
  {
    var ends := Ends(entries);
    EndsAscend(entries);
    EndsExactly(entries, i - 1);
    EndsExactly(entries, j);
    k :| 0 <= k < |ends| && ends[k] == j;
    var l :| 0 <= l < |ends| && ends[l] == i - 1;
    EndsExactly(entries, ends[l + 1]);
    assert ends[l + 1] in ends;
  }

  /** For input in any order, a second pass changes nothing exactly when, in the input, no run of mergeable entries ends
      with one that the entry before the run could have taken. */
  lemma IdempotentExactly(entries: seq<Entry>)
    ensures Coalesce(Coalesce(entries)) == Coalesce(entries) <==> RunsStayApart(entries)
  {
    var out, ends := Coalesce(entries), Ends(entries);
    FixedExactlyWhenSettled(out);
    OutputEnds(entries);
    if RunsStayApart(entries) {
      forall k | 0 < k < |out|
        ensures !Mergeable(out[k - 1], out[k])
      {
        NeighbourEndsAreRun(entries, k);
        AlikeMerges(out[k - 1], entries[ends[k - 1]], out[k], entries[ends[k]]);
      }
    }
    if Settled(out) {
      forall i, j | MergeRun(entries, i, j)
        ensures !Mergeable(entries[i - 1], entries[j])
      {
        var k := RunIsNeighbourEnds(entries, i, j);
        AlikeMerges(out[k - 1], entries[i - 1], out[k], entries[j]);
      }
    }
  }

  function Stamped(e: Entry, ms: int): Entry
    requires e.Activity?
  {
    e.(at := At(ms))
  }

  /** Out of order, one pass may not be enough: the last of three entries of one kind replaces the middle one by a
      time that the first can reach. */
  lemma UnorderedNeedsASecondPass(e: Entry)
    requires e.Activity? && !NeverCoalesces(e.action) && !NoTimeLimit(e.action)
    ensures var entries := [Stamped(e, 0), Stamped(e, 200000), Stamped(e, 100000)];
            Coalesce(Coalesce(entries)) != Coalesce(entries)
  {
    var a, b, c := Stamped(e, 0), Stamped(e, 200000), Stamped(e, 100000);
    assert [a][..0] == [] && Coalesce([a]) == [a];
    assert [a, b][..1] == [a] && Coalesce([a, b]) == [a, b];
    assert [a, b, c][..2] == [a, b] && [a, b][..1] == [a];
    var out := [a, Merge(b, c)];
    assert Coalesce([a, b, c]) == out;
    assert Mergeable(out[0], out[1]);
    FixedExactlyWhenSettled(out);
  }

  // ----- the output described without the loop

  /** The rule as it is documented: two activities of one action by one actor, never a squad evaluation, at most two
      minutes apart unless a task has ended. */
  predicate Joins(a: Entry, b: Entry) {
    && a.Activity? && b.Activity?
    && a.action == b.action && a.actorType == b.actorType && a.actorId == b.actorId
    && a.action != Some("squad_leader_evaluated")
    && (a.action == Some("task_completed") || a.action == Some("task_failed")
        || (a.at.At? && b.at.At? && a.at.ms <= b.at.ms + 120000 && b.at.ms <= a.at.ms + 120000))
  }

  /** Neighbours in the block join, so all of it is of one action by one actor. */
  ghost predicate IsBlock(block: seq<Entry>) {
    block != [] && forall i :: 0 <= i < |block| - 1 ==> Joins(block[i], block[i + 1])
  }

  /** A single entry is shown as it is, a longer block as its last entry with one more count for each entry. */
  ghost predicate Shows(block: seq<Entry>, e: Entry)
    requires block != []
  {
    var last := block[|block| - 1];
    if |block| == 1 then e == last
    else last.Activity? && block[0].Activity? && e == last.(count := Some(block[0].count.GetOr(1) + |block| - 1))
  }

  function Joined(blocks: seq<seq<Entry>>): seq<Entry> {
    if blocks == [] then [] else Joined(blocks[..|blocks| - 1]) + blocks[|blocks| - 1]
  }

  ghost predicate EachShown(blocks: seq<seq<Entry>>, out: seq<Entry>) {
    |blocks| == |out| && forall k :: 0 <= k < |blocks| ==> IsBlock(blocks[k]) && Shows(blocks[k], out[k])
  }

  /** The first block could not have taken the first entry of the second. */
  ghost predicate Apart(a: seq<Entry>, b: seq<Entry>) {
    a != [] && b != [] && !Joins(a[|a| - 1], b[0])
  }

  ghost predicate AllApart(blocks: seq<seq<Entry>>) {
    forall k :: 0 < k < |blocks| ==> Apart(blocks[k - 1], blocks[k])
  }

  /** The entries in consecutive blocks, as long as they can be, and one output entry for each. */
  ghost predicate Summarizes(entries: seq<Entry>, blocks: seq<seq<Entry>>, out: seq<Entry>) {
    Joined(blocks) == entries && EachShown(blocks, out) && AllApart(blocks)
  }

  lemma JoinedSnoc(blocks: seq<seq<Entry>>, block: seq<Entry>)
    ensures Joined(blocks + [block]) == Joined(blocks) + block
  {
    assert (blocks + [block])[..|blocks|] == blocks;
  }

  lemma ShownSnoc(blocks: seq<seq<Entry>>, block: seq<Entry>, out: seq<Entry>, shown: Entry)
    ensures EachShown(blocks + [block], out + [shown]) <==>
            EachShown(blocks, out) && IsBlock(block) && Shows(block, shown)
  {
    var b, o := blocks + [block], out + [shown];
    if |blocks| == |out| {
      assert b[|blocks|] == block && o[|out|] == shown;
      assert forall k :: 0 <= k < |blocks| ==> b[k] == blocks[k] && o[k] == out[k];
    }
  }

  lemma ApartSnoc(blocks: seq<seq<Entry>>, block: seq<Entry>)
    ensures AllApart(blocks + [block]) <==>
            AllApart(blocks) && (blocks != [] ==> Apart(blocks[|blocks| - 1], block))
  {
    var b := blocks + [block];
    assert b[|blocks|] == block && forall k :: 0 <= k < |blocks| ==> b[k] == blocks[k];
  }

  lemma SummarySnoc(entries: seq<Entry>, blocks: seq<seq<Entry>>, block: seq<Entry>, out: seq<Entry>, shown: Entry)
    ensures Summarizes(entries + block, blocks + [block], out + [shown]) <==>
            Summarizes(entries, blocks, out) && IsBlock(block) && Shows(block, shown)
            && (blocks != [] ==> Apart(blocks[|blocks| - 1], block))
  {
    JoinedSnoc(blocks, block);
    ShownSnoc(blocks, block, out, shown);
    ApartSnoc(blocks, block);
    if Joined(blocks) + block == entries + block {
      assert Joined(blocks) == (Joined(blocks) + block)[..|Joined(blocks)|];
      assert entries == (entries + block)[..|entries|];
    }
  }

  /** What a block shows merges with an entry exactly when its last entry joins with it. */
  lemma ShownMerges(block: seq<Entry>, shown: Entry, e: Entry)
    requires block != [] && Shows(block, shown)
    ensures Mergeable(shown, e) <==> Joins(block[|block| - 1], e)
  {
  }

  lemma BlockSnoc(block: seq<Entry>, e: Entry)
    requires block != []
    ensures IsBlock(block + [e]) <==> IsBlock(block) && Joins(block[|block| - 1], e)
  {
    var longer := block + [e];
    assert longer[|block|] == e && forall i :: 0 <= i < |block| ==> longer[i] == block[i];
    if IsBlock(longer) {
      assert Joins(longer[|block| - 1], longer[|block| - 1 + 1]);
      forall i | 0 <= i < |block| - 1 ensures Joins(block[i], block[i + 1]) {
        assert Joins(longer[i], longer[i + 1]);
      }
    }
  }

  lemma BlockActivities(block: seq<Entry>)
    requires IsBlock(block) && |block| > 1
    ensures block[0].Activity? && block[|block| - 1].Activity?
  {
    assert Joins(block[0], block[0 + 1]);
    assert Joins(block[|block| - 2], block[|block| - 2 + 1]);
  }

  lemma ShowsSnoc(block: seq<Entry>, shown: Entry, e: Entry)
    requires IsBlock(block) && Shows(block, shown) && Joins(block[|block| - 1], e)
    ensures Shows(block + [e], Merge(shown, e))
  {
    BlockSnoc(block, e);
    BlockActivities(block + [e]);
  }

  lemma AddToLast(entries: seq<Entry>, init: seq<seq<Entry>>, last: seq<Entry>, front: seq<Entry>, shown: Entry,
                  e: Entry)
    returns (next: seq<seq<Entry>>)
    requires Summarizes(entries, init + [last], front + [shown])
    requires last != [] && Shows(last, shown)
    ensures Summarizes(entries + [e], next, Add(front + [shown], e))
  {
    ShownMerges(last, shown, e);
    AddLast(front, shown, e);
    if Joins(last[|last| - 1], e) {
      next := GrowLast(entries, init, last, front, shown, e);
    } else {
      next := init + [last] + [[e]];
      SummarySnoc(entries, init + [last], [e], front + [shown], e);
      assert (init + [last])[|init|] == last;
    }
  }

  lemma AddSummarizes(entries: seq<Entry>, blocks: seq<seq<Entry>>, out: seq<Entry>, e: Entry)
    returns (next: seq<seq<Entry>>)
    requires Summarizes(entries, blocks, out)
    ensures Summarizes(entries + [e], next, Add(out, e))
  {
    if blocks == [] {
      next := [[e]];
      SummarySnoc(entries, [], [e], [], e);
      assert [] + [[e]] == [[e]] && [] + [e] == [e];
    } else {
      var n := |blocks| - 1;
      assert blocks == blocks[..n] + [blocks[n]] && out == out[..n] + [out[n]];
      next := AddToLast(entries, blocks[..n], blocks[n], out[..n], out[n], e);
    }
  }

  lemma GrowLast(entries: seq<Entry>, init: seq<seq<Entry>>, last: seq<Entry>, front: seq<Entry>, shown: Entry,
                 e: Entry)
    returns (next: seq<seq<Entry>>)
    requires Summarizes(entries, init + [last], front + [shown]) && last != [] && Joins(last[|last| - 1], e)
    ensures Summarizes(entries + [e], next, front + [Merge(shown, e)])
  {
    next := init + [last + [e]];
    var earlier := Joined(init);
    JoinedSnoc(init, last);
    SummarySnoc(earlier, init, last, front, shown);
    BlockSnoc(last, e);
    ShowsSnoc(last, shown, e);
    assert (last + [e])[0] == last[0];
    SummarySnoc(earlier, init, last + [e], front, Merge(shown, e));
    ConcatAssociates(earlier, last, [e]);
  }

  lemma {:induction false} CoalesceSummarizes(entries: seq<Entry>) returns (blocks: seq<seq<Entry>>)
    ensures Summarizes(entries, blocks, Coalesce(entries))
  {
    if entries == [] {
      blocks := [];
    } else {
      var init, e := entries[..|entries| - 1], entries[|entries| - 1];
      var earlier := CoalesceSummarizes(init);
      blocks := AddSummarizes(init, earlier, Coalesce(init), e);
      assert entries == init + [e];
    }
  }

  lemma CoalesceSnoc(entries: seq<Entry>, e: Entry)
    ensures Coalesce(entries + [e]) == Add(Coalesce(entries), e)
  {
    assert (entries + [e])[..|entries|] == entries;
  }

  /** What the block showed before its last entry came. */
  function Shown(block: seq<Entry>): Entry
    requires block != [] && (|block| > 1 ==> block[0].Activity? && block[|block| - 1].Activity?)
  {
    if |block| == 1 then block[0]
    else block[|block| - 1].(count := Some(block[0].count.GetOr(1) + |block| - 1))
  }

  lemma ShowsOne(block: seq<Entry>, a: Entry, b: Entry)
    requires block != [] && Shows(block, a) && Shows(block, b)
    ensures a == b
  {
  }

  lemma AddLast(front: seq<Entry>, was: Entry, e: Entry)
    ensures Add(front + [was], e) == if Mergeable(was, e) then front + [Merge(was, e)] else front + [was] + [e]
  {
    assert (front + [was])[..|front|] == front;
  }

  lemma LastTaken(entries: seq<Entry>, last: seq<Entry>, e: Entry, front: seq<Entry>, was: Entry, shown: Entry)
    requires last != [] && IsBlock(last + [e]) && Shows(last + [e], shown) && Shows(last, was)
    requires Coalesce(entries + last) == front + [was]
    ensures Coalesce(entries + last + [e]) == front + [shown]
  {
    BlockSnoc(last, e);
    ShownMerges(last, was, e);
    ShowsSnoc(last, was, e);
    ShowsOne(last + [e], Merge(was, e), shown);
    CoalesceSnoc(entries + last, e);
    AddLast(front, was, e);
  }

  lemma StartsNew(entries: seq<Entry>, init: seq<seq<Entry>>, e: Entry, front: seq<Entry>, shown: Entry)
    requires Summarizes(entries + [e], init + [[e]], front + [shown]) && Coalesce(entries) == front
    ensures Coalesce(entries + [e]) == front + [shown]
  {
    SummarySnoc(entries, init, [e], front, shown);
    CoalesceSnoc(entries, e);
    if init != [] {
      var n := |init| - 1;
      ShownMerges(init[n], front[n], e);
    }
  }

  lemma {:induction false} SummaryIsUnique(blocks: seq<seq<Entry>>, out: seq<Entry>)
    requires EachShown(blocks, out) && AllApart(blocks)
    ensures Coalesce(Joined(blocks)) == out
    decreases |Joined(blocks)|, |blocks|
  {
    if blocks != [] {
      var n := |blocks| - 1;
      var init, block, front, shown := blocks[..n], blocks[n], out[..n], out[n];
      assert blocks == init + [block] && out == front + [shown] && IsBlock(block);
      UniqueSnoc(init, block, front, shown);
    }
  }

  lemma {:induction false} UniqueSnoc(init: seq<seq<Entry>>, block: seq<Entry>, front: seq<Entry>, shown: Entry)
    requires EachShown(init + [block], front + [shown]) && AllApart(init + [block])
    ensures Coalesce(Joined(init + [block])) == front + [shown]
    decreases |Joined(init)| + |block|, |init|
  {
    var entries := Joined(init);
    JoinedSnoc(init, block);
    SummarySnoc(entries, init, block, front, shown);
    var last, e := block[..|block| - 1], block[|block| - 1];
    assert block == last + [e];
    if last == [] {
      if init == [] {
        assert front == [];
      } else {
        var n := |init| - 1;
        assert init == init[..n] + [init[n]] && front == front[..n] + [front[n]];
        JoinedSnoc(init[..n], init[n]);
        UniqueSnoc(init[..n], init[n], front[..n], front[n]);
      }
      assert block == [e];
      StartsNew(entries, init, e, front, shown);
    } else {
      BlockSnoc(last, e);
      if |last| > 1 {
        BlockActivities(last);
      }
      assert Shows(last, Shown(last)) && last[0] == block[0];
      SummarySnoc(entries, init, last, front, Shown(last));
      UniqueSnoc(init, last, front, Shown(last));
      JoinedSnoc(init, last);
      LastTaken(entries, last, e, front, Shown(last), shown);
      ConcatAssociates(entries, last, [e]);
    }
  }

  /** For input in any order the output is the one list that summarizes it: consecutive blocks of activities of one
      action by one actor with no gap above the limit, as long as they can be, each shown as its newest entry with the
      number of entries it stands for. */
  lemma CoalesceExactly(entries: seq<Entry>, out: seq<Entry>)
    ensures out == Coalesce(entries) <==> exists blocks :: Summarizes(entries, blocks, out)
  {
    if out == Coalesce(entries) {
      var blocks := CoalesceSummarizes(entries);
    } else {
      forall blocks | Summarizes(entries, blocks, out) ensures false {
        SummaryIsUnique(blocks, out);
      }
    }
  }

  /** All of a block is of one action by one actor, and nothing in a longer one is a squad evaluation. */
  lemma {:induction false} BlockIsAlike(block: seq<Entry>, i: nat)
    requires IsBlock(block) && |block| > 1 && i < |block|
    ensures block[i].Activity? && block[0].Activity? && block[i].action == block[0].action
    ensures block[i].actorType == block[0].actorType && block[i].actorId == block[0].actorId
    ensures block[i].action != Some("squad_leader_evaluated")
  {
    assert Joins(block[0], block[0 + 1]);
    if i > 0 {
      BlockIsAlike(block, i - 1);
      assert Joins(block[i - 1], block[i - 1 + 1]);
    }
  }

  /** On time-ordered input no two neighbours of the output could still be shown as one. */
  lemma OutputsDoNotJoin(entries: seq<Entry>, i: nat)
    requires TimeOrdered(entries) && 0 < i < |Coalesce(entries)|
    ensures !Joins(Coalesce(entries)[i - 1], Coalesce(entries)[i])
  {
    OutputSettled(entries);
  }
}
