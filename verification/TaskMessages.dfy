/** Merging task messages that arrive live and by backfill, in any order. */
module TaskMessages {
  /** `body` stands for everything but the sequence number. */
  datatype Message = Message(seqNo: int, body: string)

  function Seqs(ms: seq<Message>): set<int> {
    set i | 0 <= i < |ms| :: ms[i].seqNo
  }

  /** The incoming messages whose numbers are not known yet. */
  function Fresh(incoming: seq<Message>, known: set<int>): seq<Message> {
    if incoming == [] then []
    else
      var rest := Fresh(incoming[..|incoming| - 1], known);
      if incoming[|incoming| - 1].seqNo in known then rest else rest + [incoming[|incoming| - 1]]
  }

  function Insert(s: seq<Message>, m: Message): seq<Message> {
    if s == [] then [m]
    else if s[|s| - 1].seqNo <= m.seqNo then s + [m]
    else Insert(s[..|s| - 1], m) + [s[|s| - 1]]
  }

  /** A stable sort by sequence number. */
  function Sort(s: seq<Message>): seq<Message> {
    if s == [] then [] else Insert(Sort(s[..|s| - 1]), s[|s| - 1])
  }

  /** The known messages and the new ones, sorted by number. */
  function Merge(existing: seq<Message>, incoming: seq<Message>): seq<Message> {
    var added := Fresh(incoming, Seqs(existing));
    if |incoming| == 0 || |added| == 0 then existing else Sort(existing + added)
  }

  ghost predicate Ascending(s: seq<Message>) {
    forall i, j :: 0 <= i < j < |s| ==> s[i].seqNo <= s[j].seqNo
  }

  ghost predicate StrictlyAscending(s: seq<Message>) {
    forall i, j :: 0 <= i < j < |s| ==> s[i].seqNo < s[j].seqNo
  }

  ghost predicate NoRepeats(s: seq<Message>) {
    forall i, j :: 0 <= i < j < |s| ==> s[i].seqNo != s[j].seqNo
  }

  lemma {:induction false} InsertMembers(s: seq<Message>, m: Message)
    ensures |Insert(s, m)| == |s| + 1
    ensures forall y :: y in Insert(s, m) <==> y in s || y == m
    ensures multiset(Insert(s, m)) == multiset(s) + multiset{m}
  {
    if s != [] && s[|s| - 1].seqNo > m.seqNo {
      var init, last := s[..|s| - 1], s[|s| - 1];
      assert s == init + [last];
      InsertMembers(init, m);
    }
  }

  lemma {:induction false} InsertSorts(s: seq<Message>, m: Message)
    requires Ascending(s)
    ensures Ascending(Insert(s, m))
  {
    if s != [] && s[|s| - 1].seqNo > m.seqNo {
      var init, last := s[..|s| - 1], s[|s| - 1];
      InsertSorts(init, m);
      InsertMembers(init, m);
      forall i | 0 <= i < |Insert(init, m)| ensures Insert(init, m)[i].seqNo <= last.seqNo {
        assert Insert(init, m)[i] in Insert(init, m);
        if Insert(init, m)[i] in init {
          var j :| 0 <= j < |init| && init[j] == Insert(init, m)[i];
          assert s[j] == init[j];
        }
      }
    }
  }

  lemma {:induction false} SortSorts(s: seq<Message>)
    ensures Ascending(Sort(s)) && |Sort(s)| == |s|
    ensures forall y :: y in Sort(s) <==> y in s
    ensures multiset(Sort(s)) == multiset(s)
  {
    if s != [] {
      var init, last := s[..|s| - 1], s[|s| - 1];
      assert s == init + [last];
      SortSorts(init);
      InsertSorts(Sort(init), last);
      InsertMembers(Sort(init), last);
    }
  }

  lemma {:induction false} FreshMembers(incoming: seq<Message>, known: set<int>)
    ensures forall m :: m in Fresh(incoming, known) <==> m in incoming && m.seqNo !in known
  {
    if incoming != [] {
      FreshMembers(incoming[..|incoming| - 1], known);
    }
  }

  lemma SeqsMembers(s: seq<Message>, n: int)
    ensures n in Seqs(s) <==> exists m :: m in s && m.seqNo == n
  {
    if n in Seqs(s) {
      var i :| 0 <= i < |s| && s[i].seqNo == n;
      assert s[i] in s;
    }
  }

  /** What the merged list holds: every existing entry, and the incoming ones with new numbers. */
  lemma MergeMembers(existing: seq<Message>, incoming: seq<Message>)
    ensures forall m :: m in Merge(existing, incoming) <==>
              m in existing || (m in incoming && m.seqNo !in Seqs(existing))
    ensures Seqs(Merge(existing, incoming)) == Seqs(existing) + Seqs(incoming)
  {
    var added := Fresh(incoming, Seqs(existing));
    FreshMembers(incoming, Seqs(existing));
    SortSorts(existing + added);
    assert forall m :: m in existing + added <==> m in existing || m in added;
    if added == [] {
      forall m | m in incoming ensures m.seqNo in Seqs(existing) {
        assert m !in added;
      }
    }
    forall n
      ensures n in Seqs(Merge(existing, incoming)) <==> n in Seqs(existing) || n in Seqs(incoming)
    {
      SeqsMembers(Merge(existing, incoming), n);
      SeqsMembers(existing, n);
      SeqsMembers(incoming, n);
    }
  }

  // ----- strictness

  lemma {:induction false} CountOfRepeat(s: seq<Message>, i: nat, j: nat)
    requires i < j < |s|
    ensures s[i] == s[j] ==> multiset(s)[s[i]] >= 2
  {
    if s[i] == s[j] {
      assert s == s[..j] + s[j..];
      assert s[..j][i] in s[..j] && s[j..][0] in s[j..];
    }
  }

  /** Two positions of one number show up as two positions in any rearrangement. */
  lemma RearrangedRepeats(s: seq<Message>, t: seq<Message>)
    requires multiset(s) == multiset(t) && NoRepeats(t)
    ensures NoRepeats(s)
  {
    forall i, j | 0 <= i < j < |s|
      ensures s[i].seqNo != s[j].seqNo
    {
      if s[i].seqNo == s[j].seqNo {
        assert s[i] in multiset(t) && s[j] in multiset(t);
        var a :| 0 <= a < |t| && t[a] == s[i];
        var b :| 0 <= b < |t| && t[b] == s[j];
        if a == b {
          CountOfRepeat(s, i, j);
          OneEach(t, a);
        }
      }
    }
  }

  lemma OneEach(t: seq<Message>, a: nat)
    requires NoRepeats(t) && a < |t|
    ensures multiset(t)[t[a]] == 1
  {
    var l, r := t[..a], t[a + 1..];
    assert t == l + [t[a]] + r;
    assert t[a] !in l && t[a] !in r;
  }

  lemma StrictExactly(s: seq<Message>)
    requires Ascending(s)
    ensures StrictlyAscending(s) <==> NoRepeats(s)
  {
  }

  /** From a strictly sorted list, the result is strictly sorted exactly when the new part of the batch repeats no
      number: repetitions inside one batch are not removed. */
  lemma MergeIsStrictExactly(existing: seq<Message>, incoming: seq<Message>)
    requires StrictlyAscending(existing)
    ensures StrictlyAscending(Merge(existing, incoming)) <==> NoRepeats(Fresh(incoming, Seqs(existing)))
  {
    var added := Fresh(incoming, Seqs(existing));
    FreshMembers(incoming, Seqs(existing));
    if added != [] {
      var all := existing + added;
      SortSorts(all);
      StrictExactly(Sort(all));
      AppendedRepeats(existing, added);
      if NoRepeats(added) {
        RearrangedRepeats(Sort(all), all);
      }
      if NoRepeats(Sort(all)) {
        RearrangedRepeats(all, Sort(all));
      }
    }
  }

  /** A batch with one new number twice: both are kept. */
  lemma RepeatedNumberStays(a: Message, b: Message)
    requires a.seqNo == b.seqNo
    ensures !StrictlyAscending(Merge([], [a, b]))
  {
    BothAreFresh(a, b);
    MergeIsStrictExactly([], [a, b]);
  }

  lemma BothAreFresh(a: Message, b: Message)
    ensures Fresh([a, b], Seqs([])) == [a, b]
  {
    var none: seq<Message> := [];
    assert Seqs(none) == {};
    assert [a, b][..1] == [a] && [a][..0] == [];
    assert Fresh([a], {}) == [a];
  }

  lemma AppendedRepeats(existing: seq<Message>, added: seq<Message>)
    requires NoRepeats(existing) && forall m :: m in added ==> m.seqNo !in Seqs(existing)
    ensures NoRepeats(existing + added) <==> NoRepeats(added)
  {
    var all := existing + added;
    assert forall j :: 0 <= j < |added| ==> all[|existing| + j] == added[j] && added[j] in added;
    assert forall i :: 0 <= i < |existing| ==> existing[i].seqNo in Seqs(existing);
  }

  lemma {:induction false} FreshKeepsNoRepeats(incoming: seq<Message>, known: set<int>)
    requires NoRepeats(incoming)
    ensures NoRepeats(Fresh(incoming, known))
  {
    if incoming != [] {
      var init, last := incoming[..|incoming| - 1], incoming[|incoming| - 1];
      FreshKeepsNoRepeats(init, known);
      FreshMembers(init, known);
      var f := Fresh(init, known);
      forall i | 0 <= i < |f| ensures f[i].seqNo != last.seqNo {
        assert f[i] in f;
        var j :| 0 <= j < |init| && init[j] == f[i];
        assert incoming[j] == f[i];
      }
    }
  }

  // ----- confluence

  /** Every batch repeats no number. */
  ghost predicate CleanBatches(batches: seq<seq<Message>>) {
    forall b :: b in batches ==> NoRepeats(b)
  }

  function MergeAll(start: seq<Message>, batches: seq<seq<Message>>): seq<Message> {
    if batches == [] then start else Merge(MergeAll(start, batches[..|batches| - 1]), batches[|batches| - 1])
  }

  /** Some batch carries the number. */
  ghost predicate Delivered(batches: seq<seq<Message>>, n: int) {
    exists b :: b in batches && n in Seqs(b)
  }

  /** The cache after any deliveries: strictly sorted, holding what it held, and exactly the numbers delivered. */
  lemma {:induction false} DeliveriesKeepShape(start: seq<Message>, batches: seq<seq<Message>>)
    requires StrictlyAscending(start) && CleanBatches(batches)
    ensures StrictlyAscending(MergeAll(start, batches))
    ensures forall m :: m in start ==> m in MergeAll(start, batches)
    ensures forall n :: n in Seqs(MergeAll(start, batches)) <==> n in Seqs(start) || Delivered(batches, n)
    ensures forall m :: m in MergeAll(start, batches) ==> m in start || exists b :: b in batches && m in b
  {
    if batches != [] {
      var init, last := batches[..|batches| - 1], batches[|batches| - 1];
      assert last in batches && forall b :: b in batches <==> b in init || b == last;
      DeliveriesKeepShape(start, init);
      var cache := MergeAll(start, init);
      MergeMembers(cache, last);
      FreshKeepsNoRepeats(last, Seqs(cache));
      MergeIsStrictExactly(cache, last);
    }
  }

  ghost predicate SameElements(s: seq<Message>, t: seq<Message>) {
    forall m :: m in s <==> m in t
  }

  lemma SameLast(s: seq<Message>, t: seq<Message>)
    requires StrictlyAscending(s) && StrictlyAscending(t) && SameElements(s, t) && s != []
    ensures t != [] && t[|t| - 1] == s[|s| - 1]
  {
    var last := s[|s| - 1];
    assert last in t;
    var k :| 0 <= k < |t| && t[k] == last;
    assert t[|t| - 1] in t;
    var j :| 0 <= j < |s| && s[j] == t[|t| - 1];
  }

  lemma InitElements(s: seq<Message>, m: Message)
    requires StrictlyAscending(s) && s != []
    ensures m in s[..|s| - 1] <==> m in s && m != s[|s| - 1]
  {
    if m in s[..|s| - 1] {
      var j :| 0 <= j < |s| - 1 && s[..|s| - 1][j] == m;
      assert s[j] == m;
    }
  }

  /** A strictly sorted list is determined by its elements. */
  lemma {:induction false} SortedByElements(s: seq<Message>, t: seq<Message>)
    requires StrictlyAscending(s) && StrictlyAscending(t) && SameElements(s, t)
    ensures s == t
    decreases |s| + |t|, if s == [] then 1 else 0
  {
    if s != [] {
      SameLast(s, t);
      var si, ti := s[..|s| - 1], t[..|t| - 1];
      forall m ensures m in si <==> m in ti {
        InitElements(s, m);
        InitElements(t, m);
      }
      SortedByElements(si, ti);
    } else if t != [] {
      SortedByElements(t, s);
    }
  }

  /** The payload of a number never changes. */
  ghost predicate SameSource(s: seq<Message>, payload: int -> string) {
    forall m :: m in s ==> m.body == payload(m.seqNo)
  }

  /** Any order and any grouping of live events and backfills ends in the same list. */
  lemma DeliveriesCommute(start: seq<Message>, one: seq<seq<Message>>, other: seq<seq<Message>>, payload: int -> string)
    requires StrictlyAscending(start) && CleanBatches(one) && CleanBatches(other)
    requires SameSource(start, payload)
    requires forall b :: b in one || b in other ==> SameSource(b, payload)
    requires forall n :: Delivered(one, n) <==> Delivered(other, n)
    ensures MergeAll(start, one) == MergeAll(start, other)
  {
    DeliveriesKeepShape(start, one);
    DeliveriesKeepShape(start, other);
    var l, r := MergeAll(start, one), MergeAll(start, other);
    assert SameSource(l, payload) && SameSource(r, payload);
    forall m ensures m in l <==> m in r {
      SeqsMembers(l, m.seqNo);
      SeqsMembers(r, m.seqNo);
      assert m.seqNo in Seqs(l) <==> m.seqNo in Seqs(r);
    }
    SortedByElements(l, r);
  }
}
