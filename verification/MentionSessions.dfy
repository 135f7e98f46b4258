/** Whole editing sessions of the mention input: which edits keep text and markers in step, and what is sent. */
module MentionSessions {
  import opened Basics
  import opened MentionSerialize
  import opened MentionDocuments
  import opened MentionInput

  // ----- plain gaps with one chip between each two

  function ChipText(m: Marker): string {
    [SENTINEL, '@'] + m.name
  }

  /** The text up to a gap, and from a gap on. */
  function Upto(gaps: seq<string>, ms: seq<Marker>, k: nat): string
    requires k <= |ms| < |gaps|
  {
    if k == 0 then "" else Upto(gaps, ms, k - 1) + (gaps[k - 1] + ChipText(ms[k - 1]))
  }

  function From(gaps: seq<string>, ms: seq<Marker>, k: nat): string
    requires k <= |ms| < |gaps|
    decreases |ms| - k
  {
    if k == |ms| then gaps[k] else gaps[k] + (ChipText(ms[k]) + From(gaps, ms, k + 1))
  }

  function Weave(gaps: seq<string>, ms: seq<Marker>): string
    requires |ms| < |gaps|
  {
    From(gaps, ms, 0)
  }

  /** The same with every chip replaced by its link. */
  function LinksFrom(gaps: seq<string>, ms: seq<Marker>, k: nat): string
    requires k <= |ms| < |gaps|
    decreases |ms| - k
  {
    if k == |ms| then gaps[k] else gaps[k] + (Link(ms[k]) + LinksFrom(gaps, ms, k + 1))
  }

  /** A plain stretch of text; after a chip it begins with white space, or ends the text. */
  ghost predicate GapOk(gap: string, first: bool, last: bool) {
    && SENTINEL !in gap
    && (first || (last && gap == "") || (gap != "" && IsSpace(gap[0])))
  }

  ghost predicate Woven(gaps: seq<string>, ms: seq<Marker>) {
    && |gaps| == |ms| + 1
    && forall k :: 0 <= k < |gaps| ==> GapOk(gaps[k], k == 0, k == |ms|)
  }

  ghost predicate InForm(s: Input, gaps: seq<string>) {
    Woven(gaps, s.markers) && s.text == Weave(gaps, s.markers)
  }

  /** Where a gap begins in the text. */
  function GapStart(gaps: seq<string>, ms: seq<Marker>, k: nat): nat
    requires k <= |ms| < |gaps|
  {
    |Upto(gaps, ms, k)|
  }

  lemma {:induction false} WeaveSplits(gaps: seq<string>, ms: seq<Marker>, k: nat)
    requires k <= |ms| < |gaps|
    ensures Weave(gaps, ms) == Upto(gaps, ms, k) + From(gaps, ms, k)
  {
    if k > 0 {
      WeaveSplits(gaps, ms, k - 1);
      var u, g, c, r := Upto(gaps, ms, k - 1), gaps[k - 1], ChipText(ms[k - 1]), From(gaps, ms, k);
      assert u + (g + (c + r)) == (u + (g + c)) + r;
    }
  }

  /** Only the gaps before, or after, matter. */
  lemma {:induction false} UptoSame(a: seq<string>, x: seq<Marker>, b: seq<string>, y: seq<Marker>, k: nat)
    requires k <= |x| < |a| && k <= |y| < |b|
    requires forall i :: 0 <= i < k ==> a[i] == b[i] && x[i] == y[i]
    ensures Upto(a, x, k) == Upto(b, y, k)
  {
    if k > 0 {
      UptoSame(a, x, b, y, k - 1);
    }
  }

  lemma {:induction false} FromSame(a: seq<string>, b: seq<string>, ms: seq<Marker>, k: nat)
    requires k <= |ms| < |a| == |b|
    requires forall i :: k <= i < |a| ==> a[i] == b[i]
    ensures From(a, ms, k) == From(b, ms, k)
    decreases |ms| - k
  {
    if k < |ms| {
      FromSame(a, b, ms, k + 1);
    }
  }

  // ----- replacing a stretch of text

  function Cut(t: string, i: nat, j: nat, y: string): string
    requires i <= j <= |t|
  {
    t[..i] + y + t[j..]
  }

  lemma CutInside(front: string, gap: string, rest: string, i: nat, j: nat, y: string)
    requires i <= j <= |gap|
    ensures Cut(front + (gap + rest), |front| + i, |front| + j, y) == front + (Cut(gap, i, j, y) + rest)
  {
    var t := front + (gap + rest);
    assert t[..|front| + i] == front + gap[..i];
    assert t[|front| + j..] == gap[j..] + rest;
  }

  function After(gaps: seq<string>, ms: seq<Marker>, k: nat): string
    requires k <= |ms| < |gaps|
  {
    if k == |ms| then "" else ChipText(ms[k]) + From(gaps, ms, k + 1)
  }

  lemma WeaveAround(gaps: seq<string>, ms: seq<Marker>, k: nat)
    requires k <= |ms| < |gaps|
    ensures Weave(gaps, ms) == Upto(gaps, ms, k) + (gaps[k] + After(gaps, ms, k))
    ensures GapStart(gaps, ms, k) + |gaps[k]| <= |Weave(gaps, ms)|
  {
    WeaveSplits(gaps, ms, k);
    if k == |ms| {
      assert gaps[k] + "" == gaps[k];
    }
  }

  /** Replacing a gap changes nothing around it. */
  lemma GapReplaced(gaps: seq<string>, ms: seq<Marker>, k: nat, gap: string)
    requires k <= |ms| < |gaps|
    ensures Weave(gaps[k := gap], ms) == Upto(gaps, ms, k) + (gap + After(gaps, ms, k))
  {
    var now := gaps[k := gap];
    WeaveAround(now, ms, k);
    UptoSame(gaps, ms, now, ms, k);
    if k < |ms| {
      FromSame(gaps, now, ms, k + 1);
    }
  }

  lemma CutInGap(gaps: seq<string>, ms: seq<Marker>, k: nat, i: nat, j: nat, y: string)
    requires k <= |ms| < |gaps|
    requires GapStart(gaps, ms, k) <= i <= j <= GapStart(gaps, ms, k) + |gaps[k]| <= |Weave(gaps, ms)|
    ensures var o := GapStart(gaps, ms, k);
            Weave(gaps[k := Cut(gaps[k], i - o, j - o, y)], ms) == Cut(Weave(gaps, ms), i, j, y)
  {
    var o := GapStart(gaps, ms, k);
    WeaveAround(gaps, ms, k);
    GapReplaced(gaps, ms, k, Cut(gaps[k], i - o, j - o, y));
    CutInside(Upto(gaps, ms, k), gaps[k], After(gaps, ms, k), i - o, j - o, y);
  }

  /** The stretch lies in one gap, touching no mention, and what the gap becomes is still plain text that does not run
      on from the mention before it. */
  ghost predicate CutsGap(gaps: seq<string>, ms: seq<Marker>, k: nat, i: int, j: int, y: string)
    requires |gaps| == |ms| + 1
  {
    && k <= |ms|
    && GapStart(gaps, ms, k) <= i <= j <= GapStart(gaps, ms, k) + |gaps[k]|
    && GapOk(Cut(gaps[k], i - GapStart(gaps, ms, k), j - GapStart(gaps, ms, k), y), k == 0, k == |ms|)
  }

  /** When that is: any sentinel-free text may replace a stretch of a gap, save that right after a mention the new text
      must begin with white space or leave nothing behind it. */
  lemma CutsGapExactly(gaps: seq<string>, ms: seq<Marker>, k: nat, i: int, j: int, y: string)
    requires Woven(gaps, ms) && k <= |ms|
    requires GapStart(gaps, ms, k) <= i <= j <= GapStart(gaps, ms, k) + |gaps[k]|
    ensures CutsGap(gaps, ms, k, i, j, y) <==>
            && SENTINEL !in y
            && (k > 0 && i == GapStart(gaps, ms, k) ==>
                  var next := y + gaps[k][j - GapStart(gaps, ms, k)..];
                  if next == "" then k == |ms| else IsSpace(next[0]))
  {
    var o := GapStart(gaps, ms, k);
    var gap, now := gaps[k], Cut(gaps[k], i - o, j - o, y);
    assert GapOk(gap, k == 0, k == |ms|);
    assert SENTINEL in now <==> SENTINEL in y by {
      assert forall c :: c in now ==> c in gap || c in y;
      if SENTINEL in y {
        var n :| 0 <= n < |y| && y[n] == SENTINEL;
        assert now[i - o + n] == SENTINEL;
      }
    }
    if i == o {
      assert now == y + gap[j - o..];
    } else {
      assert now != "" && now[0] == gap[0];
    }
  }

  // ----- careful edits

  /** The stretch from i to j of the text is replaced by y, and no mention is touched. */
  ghost predicate PlainEdit(s: Input, i: int, j: int, y: string) {
    0 <= i <= j <= |s.text| && exists gaps, k :: InForm(s, gaps) && CutsGap(gaps, s.markers, k, i, j, y)
  }

  /** The token begins after the last mention. */
  ghost predicate AfterMentions(s: Input, at: int) {
    exists gaps :: InForm(s, gaps) && GapStart(gaps, s.markers, |s.markers|) <= at
  }

  function Snapshot(s: Input): Input {
    s.(mentioning := None)
  }

  function Before(s: Input): string {
    s.text[..Clamp(s.text, s.start)]
  }

  /** Edits outside the mentions, picks after the last one, and going back to a snapshot of the session. */
  ghost predicate Careful(s: Input, saved: set<Input>, e: Edit) {
    match e
    case ChangeText(next) =>
      exists i: nat, j: nat, y: string :: PlainEdit(s, i, j, y) && next == Cut(s.text, i, j, y)
    case ChangeSelection(_, _) => true
    case PressAt => PlainEdit(s, Clamp(s.text, s.start), Clamp(s.text, s.end), Padded(Before(s)))
    case Pick(_) => s.mentioning.Some? ==> AfterMentions(s, s.mentioning.value.start)
    case InsertAtCursor(insert, _) => PlainEdit(s, Clamp(s.text, s.start), Clamp(s.text, s.end), insert)
    case InsertAtLineStart(prefix) => PlainEdit(s, LineStart(Before(s)), LineStart(Before(s)), prefix)
    case Restore(snapshot) => snapshot in saved
    case Reset => true
  }

  ghost predicate Linkable(s: Input) {
    exists gaps :: InForm(s, gaps)
  }

  lemma PlainEditKeepsForm(s: Input, i: nat, j: nat, y: string, t: Input)
    requires PlainEdit(s, i, j, y) && t.text == Cut(s.text, i, j, y) && t.markers == s.markers
    ensures Linkable(t)
  {
    var gaps, k :| InForm(s, gaps) && CutsGap(gaps, s.markers, k, i, j, y);
    var o := GapStart(gaps, s.markers, k);
    WeaveAround(gaps, s.markers, k);
    CutInGap(gaps, s.markers, k, i, j, y);
    assert InForm(t, gaps[k := Cut(gaps[k], i - o, j - o, y)]);
  }

  // ----- picking after the last mention

  /** The last gap split where a mention replaces `@` and the query in it. */
  function Picked(gaps: seq<string>, before: string, after: string): seq<string>
    requires gaps != []
  {
    gaps[..|gaps| - 1] + [before, " " + after]
  }

  lemma PickedWeave(gaps: seq<string>, ms: seq<Marker>, before: string, after: string, m: Marker)
    requires |gaps| == |ms| + 1
    ensures Weave(Picked(gaps, before, after), ms + [m])
         == (Upto(gaps, ms, |ms|) + before) + (ChipText(m) + (" " + after))
  {
    var n, now := |ms|, Picked(gaps, before, after);
    UptoSame(gaps, ms, now, ms + [m], n);
    WeaveSplits(now, ms + [m], n);
    assert From(now, ms + [m], n + 1) == now[n + 1] == " " + after;
    assert From(now, ms + [m], n) == before + (ChipText(m) + (" " + after));
    ConcatAssociates(Upto(gaps, ms, n), before, ChipText(m) + (" " + after));
  }

  lemma PickedWoven(gaps: seq<string>, ms: seq<Marker>, before: string, mid: string, after: string, m: Marker)
    requires Woven(gaps, ms) && gaps[|ms|] == before + mid + after
    requires |ms| > 0 ==> before != ""
    ensures Woven(Picked(gaps, before, after), ms + [m])
  {
    var n, gap, now := |ms|, gaps[|ms|], Picked(gaps, before, after);
    assert GapOk(gap, n == 0, true);
    assert forall c :: c in before || c in after ==> c in gap;
    forall k | 0 <= k < |now|
      ensures GapOk(now[k], k == 0, k == n + 1)
    {
      if k < n {
        assert GapOk(gaps[k], k == 0, k == n);
      } else if k == n {
        assert before != "" ==> before[0] == gap[0];
      }
    }
  }

  /** A token in the last gap, and not right after the mention before it, cuts that gap in three. */
  lemma TokenCutsGap(text: string, front: string, gap: string, token: Token, first: bool)
    returns (before: string, mid: string, after: string)
    requires text == front + gap && |front| <= token.start && GapOk(gap, first, true)
    requires TokenRun(text, token.start, token.start + 1 + |token.query|)
    ensures gap == before + mid + after && (!first ==> before != "")
    ensures text[..token.start] == front + before && text[token.start + 1 + |token.query|..] == after
  {
    var k := token.start - |front|;
    before, mid, after := gap[..k], gap[k..k + 1 + |token.query|], gap[k + 1 + |token.query|..];
    assert text[token.start] == gap[k];
  }

  lemma PickedText(s: Input, m: Marker, upTo: string, after: string)
    requires s.mentioning.Some? && TokenInText(s)
    requires var token := s.mentioning.value;
             s.text[..token.start] == upTo && s.text[token.start + 1 + |token.query|..] == after
    ensures Apply(s, Pick(m)).text == upTo + (ChipText(m) + (" " + after))
    ensures Apply(s, Pick(m)).markers == s.markers + [m]
  {
    assert upTo + (ChipText(m) + " ") + after == upTo + (ChipText(m) + (" " + after));
  }

  lemma PickKeepsForm(s: Input, m: Marker)
    requires TokenInText(s) && s.mentioning.Some? && AfterMentions(s, s.mentioning.value.start)
    ensures Linkable(Apply(s, Pick(m)))
  {
    var ms, n := s.markers, |s.markers|;
    var gaps :| InForm(s, gaps) && GapStart(gaps, ms, n) <= s.mentioning.value.start;
    WeaveSplits(gaps, ms, n);
    assert GapOk(gaps[n], n == 0, true);
    var before, mid, after := TokenCutsGap(s.text, Upto(gaps, ms, n), gaps[n], s.mentioning.value, n == 0);
    PickedWoven(gaps, ms, before, mid, after, m);
    PickedWeave(gaps, ms, before, after, m);
    PickedText(s, m, Upto(gaps, ms, n) + before, after);
    assert InForm(Apply(s, Pick(m)), Picked(gaps, before, after));
  }

  // ----- the toolbar, by position

  /** A position that is not strictly inside a mention lies in a gap. */
  lemma {:induction false} PositionInGap(gaps: seq<string>, ms: seq<Marker>, at: nat, n: nat) returns (k: nat)
    requires n <= |ms| < |gaps|
    requires at <= GapStart(gaps, ms, n) + |gaps[n]|
    requires forall k :: 0 <= k < |ms| ==> at <= GapStart(gaps, ms, k) + |gaps[k]| || GapStart(gaps, ms, k + 1) <= at
    ensures k <= n && GapStart(gaps, ms, k) <= at <= GapStart(gaps, ms, k) + |gaps[k]|
  {
    if GapStart(gaps, ms, n) <= at {
      k := n;
    } else {
      k := PositionInGap(gaps, ms, at, n - 1);
    }
  }

  /** What stands just before a gap is the end of the mention before it. */
  lemma BeforeGap(gaps: seq<string>, ms: seq<Marker>, k: nat)
    requires 0 < k <= |ms| < |gaps|
    ensures 0 < GapStart(gaps, ms, k) <= |Weave(gaps, ms)|
    ensures Weave(gaps, ms)[GapStart(gaps, ms, k) - 1] == ChipText(ms[k - 1])[|ChipText(ms[k - 1])| - 1]
  {
    WeaveSplits(gaps, ms, k);
  }

  lemma InsideChip(gaps: seq<string>, ms: seq<Marker>, k: nat, at: nat)
    requires k < |ms| < |gaps| && GapStart(gaps, ms, k) + |gaps[k]| < at <= GapStart(gaps, ms, k + 1)
    ensures at <= |Weave(gaps, ms)|
    ensures Weave(gaps, ms)[at - 1] in ChipText(ms[k])
  {
    WeaveSplits(gaps, ms, k + 1);
    var u, g, c := Upto(gaps, ms, k), gaps[k], ChipText(ms[k]);
    assert (u + (g + c))[at - 1] == c[at - 1 - |u| - |g|];
  }

  lemma {:induction false} LineStartAfterBreak(before: string)
    ensures LineStart(before) <= |before|
    ensures LineStart(before) > 0 ==> before[LineStart(before) - 1] == '\n'
  {
    if before != "" && before[|before| - 1] != '\n' {
      LineStartAfterBreak(before[..|before| - 1]);
    }
  }

  ghost predicate OneLine(ms: seq<Marker>) {
    forall k :: 0 <= k < |ms| ==> '\n' !in ms[k].name
  }

  /** A list or quote prefix is always careful, whatever mentions the line holds, if no name holds a line break. */
  lemma LineStartIsCareful(s: Input, saved: set<Input>, prefix: string)
    requires Linkable(s) && OneLine(s.markers) && SENTINEL !in prefix
    ensures Careful(s, saved, InsertAtLineStart(prefix))
  {
    var gaps :| InForm(s, gaps);
    var ms, at := s.markers, LineStart(Before(s));
    LineStartAfterBreak(Before(s));
    assert forall k :: 0 <= k < |ms| ==> '\n' !in ChipText(ms[k]);
    forall k | 0 <= k < |ms|
      ensures at <= GapStart(gaps, ms, k) + |gaps[k]| || GapStart(gaps, ms, k + 1) < at
    {
      if GapStart(gaps, ms, k) + |gaps[k]| < at <= GapStart(gaps, ms, k + 1) {
        InsideChip(gaps, ms, k, at);
      }
    }
    WeaveAround(gaps, ms, |ms|);
    var k := PositionInGap(gaps, ms, at, |ms|);
    if k > 0 {
      assert GapStart(gaps, ms, k - 1) + |gaps[k - 1]| < GapStart(gaps, ms, k);
    }
    CutsGapExactly(gaps, ms, k, at, at, prefix);
    assert PlainEdit(s, at, at, prefix);
  }

  ghost predicate SelectionInGap(s: Input, gaps: seq<string>, k: nat)
    requires |s.markers| < |gaps|
  {
    && k <= |s.markers|
    && GapStart(gaps, s.markers, k) <= Clamp(s.text, s.start) <= Clamp(s.text, s.end)
       <= GapStart(gaps, s.markers, k) + |gaps[k]|
  }

  /** The `@` button is always careful with the selection in plain text, even right after a one-word mention. */
  lemma AtButtonIsCareful(s: Input, saved: set<Input>, gaps: seq<string>, k: nat)
    requires InForm(s, gaps) && SingleWords(s.markers) && SelectionInGap(s, gaps, k)
    ensures Careful(s, saved, PressAt)
  {
    var ms, i, j, y := s.markers, Clamp(s.text, s.start), Clamp(s.text, s.end), Padded(Before(s));
    if k > 0 && i == GapStart(gaps, ms, k) {
      BeforeGap(gaps, ms, k);
      assert ms[k - 1] in ms;
      assert Before(s)[|Before(s)| - 1] == s.text[i - 1];
      assert !IsSpace(s.text[i - 1]);
      assert y[0] == ' ';
    }
    assert SENTINEL !in y;
    CutsGapExactly(gaps, ms, k, i, j, y);
    assert PlainEdit(s, i, j, y);
  }

  /** Toolbar text goes in with the selection in plain text, save right after a mention if it would run on from it. */
  lemma InsertIsCareful(s: Input, saved: set<Input>, gaps: seq<string>, k: nat, insert: string, offset: int)
    requires InForm(s, gaps) && SelectionInGap(s, gaps, k) && SENTINEL !in insert
    requires k == 0 || Clamp(s.text, s.start) > GapStart(gaps, s.markers, k) || (insert != "" && IsSpace(insert[0]))
    ensures Careful(s, saved, InsertAtCursor(insert, offset))
  {
    var i, j := Clamp(s.text, s.start), Clamp(s.text, s.end);
    CutsGapExactly(gaps, s.markers, k, i, j, insert);
    assert PlainEdit(s, i, j, insert);
  }

  // ----- runs

  lemma EditKeepsForm(s: Input, saved: set<Input>, e: Edit)
    requires Linkable(s) && TokenInText(s) && Careful(s, saved, e)
    requires forall h :: h in saved ==> Linkable(h)
    ensures Linkable(Apply(s, e))
  {
    var t := Apply(s, e);
    if e.ChangeText? {
      var i: nat, j: nat, y: string :| PlainEdit(s, i, j, y) && e.next == Cut(s.text, i, j, y);
      PlainEditKeepsForm(s, i, j, y, t);
    } else if e.ChangeSelection? {
      SameText(s, t);
    } else if e.PressAt? {
      PlainEditKeepsForm(s, Clamp(s.text, s.start), Clamp(s.text, s.end), Padded(Before(s)), t);
    } else if e.Pick? {
      if s.mentioning.Some? {
        PickKeepsForm(s, e.mention);
      }
    } else if e.InsertAtCursor? {
      PlainEditKeepsForm(s, Clamp(s.text, s.start), Clamp(s.text, s.end), e.insert, t);
    } else if e.InsertAtLineStart? {
      PlainEditKeepsForm(s, LineStart(Before(s)), LineStart(Before(s)), e.prefix, t);
    } else if e.Restore? {
      SameText(e.snapshot, t);
    } else {
      EmptyIsLinkable();
    }
  }

  lemma SameText(s: Input, t: Input)
    requires Linkable(s) && t.text == s.text && t.markers == s.markers
    ensures Linkable(t)
  {
    var gaps :| InForm(s, gaps);
    assert InForm(t, gaps);
  }

  lemma EmptyIsLinkable()
    ensures Linkable(EMPTY)
  {
    assert InForm(EMPTY, [""]);
  }

  /** Every state passed on the way can be saved and gone back to. */
  ghost predicate CarefulRun(s: Input, saved: set<Input>, edits: seq<Edit>)
    decreases |edits|
  {
    edits == []
    || (Careful(s, saved + {Snapshot(s)}, edits[0])
        && CarefulRun(Apply(s, edits[0]), saved + {Snapshot(s)}, edits[1..]))
  }

  ghost function ApplyAll(s: Input, edits: seq<Edit>): Input
    decreases |edits|
  {
    if edits == [] then s else ApplyAll(Apply(s, edits[0]), edits[1..])
  }

  lemma {:induction false} RunKeepsForm(s: Input, saved: set<Input>, edits: seq<Edit>)
    requires Linkable(s) && TokenInText(s) && CarefulRun(s, saved, edits)
    requires forall h :: h in saved ==> Linkable(h)
    ensures Linkable(ApplyAll(s, edits))
    decreases |edits|
  {
    if edits != [] {
      SameText(s, Snapshot(s));
      EditKeepsForm(s, saved + {Snapshot(s)}, edits[0]);
      TokenStaysInText(s, edits[0]);
      RunKeepsForm(Apply(s, edits[0]), saved + {Snapshot(s)}, edits[1..]);
    }
  }

  // ----- what is sent

  /** The same text as a document. */
  function DocFrom(gaps: seq<string>, ms: seq<Marker>, k: nat): seq<Piece>
    requires k <= |ms| < |gaps|
    decreases |ms| - k
  {
    if k == |ms| then [Plain(gaps[k])] else [Plain(gaps[k])] + ([Chip(ms[k])] + DocFrom(gaps, ms, k + 1))
  }

  lemma {:induction false} WovenDocument(gaps: seq<string>, ms: seq<Marker>, k: nat)
    requires Woven(gaps, ms) && k <= |ms|
    ensures var doc := DocFrom(gaps, ms, k);
            && Spaced(doc) && Render(doc) == From(gaps, ms, k) && Chips(doc) == ms[k..]
            && Linked(doc, ms[k..]) == LinksFrom(gaps, ms, k)
    decreases |ms| - k
  {
    assert GapOk(gaps[k], k == 0, k == |ms|);
    if k == |ms| {
      PieceFirst(Plain(gaps[k]), []);
      assert [Plain(gaps[k])] + [] == [Plain(gaps[k])];
    } else {
      WovenDocument(gaps, ms, k + 1);
      var rest := DocFrom(gaps, ms, k + 1);
      assert GapOk(gaps[k + 1], false, k + 1 == |ms|);
      PieceFirst(Chip(ms[k]), rest);
      PieceFirst(Plain(gaps[k]), [Chip(ms[k])] + rest);
      assert ms[k..][1..] == ms[k + 1..] && ms[k..] == [ms[k]] + ms[k + 1..];
    }
  }

  /** Every mention linked in its place, if all names are one word; the plain text without sentinels otherwise. */
  ghost function Outgoing(s: Input, gaps: seq<string>): string
    requires InForm(s, gaps)
  {
    if SingleWords(s.markers) then LinksFrom(gaps, s.markers, 0) else Strip(s.text)
  }

  lemma FormSends(s: Input, gaps: seq<string>)
    requires InForm(s, gaps)
    ensures Serialize(s.text, s.markers) == Outgoing(s, gaps)
  {
    WovenDocument(gaps, s.markers, 0);
    assert s.markers[0..] == s.markers;
    RoundTrip(DocFrom(gaps, s.markers, 0));
  }

  /** What a careful session sends. */
  lemma CarefulSessionLinksExactly(edits: seq<Edit>)
    requires CarefulRun(EMPTY, {}, edits)
    ensures exists gaps :: InForm(ApplyAll(EMPTY, edits), gaps)
              && Serialize(ApplyAll(EMPTY, edits).text, ApplyAll(EMPTY, edits).markers)
                 == Outgoing(ApplyAll(EMPTY, edits), gaps)
  {
    EmptyIsLinkable();
    RunKeepsForm(EMPTY, {}, edits);
    var gaps :| InForm(ApplyAll(EMPTY, edits), gaps);
    FormSends(ApplyAll(EMPTY, edits), gaps);
  }
}
