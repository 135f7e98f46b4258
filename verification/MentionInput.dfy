/** The text input with mentions: cursor token detection, and the state behind the edit handlers. */
module MentionInput {
  import opened Basics
  import opened MentionSerialize

  // ----- the in-progress token

  datatype Token = Token(start: nat, query: string)

  /** `@` at `start`, at the beginning or after white space, with no white space and no other `@` up to the cursor. */
  ghost predicate TokenRun(text: string, start: int, cursor: int) {
    && 0 <= start < cursor <= |text|
    && text[start] == '@'
    && (start > 0 ==> IsSpace(text[start - 1]))
    && forall k :: start < k < cursor ==> text[k] != '@' && !IsSpace(text[k])
  }

  method TokenAtCursor(text: string, cursor: int) returns (t: Option<Token>)
    ensures t.Some? ==> TokenRun(text, t.value.start, cursor) && t.value.query == text[t.value.start + 1..cursor]
    ensures t.None? ==> forall start :: !TokenRun(text, start, cursor)
  {
    if cursor < 1 || cursor > |text| {
      return None;
    }
    var i := cursor - 1;
    while i >= 0
      invariant -1 <= i < cursor
      invariant forall k :: i < k < cursor ==> text[k] != '@' && !IsSpace(text[k])
    {
      if text[i] == '@' {
        break;
      }
      if IsSpace(text[i]) {
        assert forall start :: TokenRun(text, start, cursor) ==> start <= i;
        return None;
      }
      i := i - 1;
    }
    if i < 0 {
      return None;
    }
    assert forall start :: TokenRun(text, start, cursor) ==> start == i;
    if i > 0 && text[i - 1] == SENTINEL {
      assert !IsSpace(SENTINEL);
      return None;
    }
    if i > 0 && !IsSpace(text[i - 1]) {
      return None;
    }
    t := Some(Token(i, text[i + 1..cursor]));
  }

  ghost function TokenAt(text: string, cursor: int): (t: Option<Token>)
    ensures t.Some? ==> TokenRun(text, t.value.start, cursor) && t.value.query == text[t.value.start + 1..cursor]
    ensures t.None? ==> forall start :: !TokenRun(text, start, cursor)
  {
    if start :| TokenRun(text, start, cursor) then Some(Token(start, text[start + 1..cursor])) else None
  }

  lemma TokenUnique(text: string, a: int, b: int, cursor: int)
    requires TokenRun(text, a, cursor) && TokenRun(text, b, cursor)
    ensures a == b
  {
  }

  // ----- edits on values

  function Clamp(t: string, n: int): nat {
    if n < 0 then (if |t| + n < 0 then 0 else |t| + n) else if n > |t| then |t| else n
  }

  /** A cut behind the end is at the end; a negative one counts from the end and stops at the start. */
  lemma ClampExactly(t: string, k: int)
    requires k >= 0
    ensures t[..Clamp(t, k)] == if k <= |t| then t[..k] else t
    ensures t[..Clamp(t, -k)] == if 0 < k <= |t| then t[..|t| - k] else ""
  {
  }

  function InsertMention(text: string, token: Token, m: Marker): (string, int) {
    var before := text[..Clamp(text, token.start)];
    var after := text[Clamp(text, token.start + 1 + |token.query|)..];
    var insert := [SENTINEL, '@'] + m.name + " ";
    (before + insert + after, |before| + |insert|)
  }

  datatype Input = Input(text: string, start: int, end: int, markers: seq<Marker>, mentioning: Option<Token>)

  const EMPTY := Input("", 0, 0, [], None)

  datatype Edit =
    | ChangeText(next: string)
    | ChangeSelection(start: int, end: int)
    | PressAt
    | Pick(mention: Marker)
    | InsertAtCursor(insert: string, offset: int)
    | InsertAtLineStart(prefix: string)
    | Restore(snapshot: Input)
    | Reset

  function Padded(before: string): string {
    (if before != "" && !IsSpace(before[|before| - 1]) then " " else "") + "@"
  }

  /** Where the line containing the end of `before` starts. */
  function LineStart(before: string): nat {
    if before == "" || before[|before| - 1] == '\n' then |before| else LineStart(before[..|before| - 1])
  }

  lemma LineStartBound(before: string)
    ensures LineStart(before) <= |before|
  {
  }

  ghost function Apply(s: Input, e: Edit): Input {
    var before, after := s.text[..Clamp(s.text, s.start)], s.text[Clamp(s.text, s.end)..];
    match e
    case ChangeText(next) => s.(text := next, mentioning := TokenAt(next, s.end))
    case ChangeSelection(start, end) => s.(start := start, end := end, mentioning := TokenAt(s.text, end))
    case PressAt =>
      var next := before + Padded(before) + after;
      var cursor := |before| + |Padded(before)|;
      Input(next, cursor, cursor, s.markers, TokenAt(next, cursor))
    case Pick(m) =>
      if s.mentioning.None? then s
      else
        var (text, cursor) := InsertMention(s.text, s.mentioning.value, m);
        Input(text, cursor, cursor, s.markers + [m], None)
    case InsertAtCursor(insert, offset) =>
      var cursor := |before| + |insert| - offset;
      Input(before + insert + after, cursor, cursor, s.markers, None)
    case InsertAtLineStart(prefix) =>
      LineStartBound(before);
      var at := LineStart(before);
      Input(s.text[..at] + prefix + s.text[at..], s.end + |prefix|, s.end + |prefix|, s.markers, None)
    case Restore(snap) => snap.(mentioning := None)
    case Reset => EMPTY
  }

  class MentionState {
    var text: string
    var start: int
    var end: int
    var markers: seq<Marker>
    var mentioning: Option<Token>

    ghost function State(): Input
      reads this
    {
      Input(text, start, end, markers, mentioning)
    }

    constructor ()
      ensures State() == EMPTY
    {
      text, start, end, markers, mentioning := "", 0, 0, [], None;
    }

    method RecomputeMentioning(nextText: string, cursor: int)
      modifies this`mentioning
      ensures mentioning == TokenAt(nextText, cursor)
    {
      mentioning := TokenAtCursor(nextText, cursor);
      ghost var t := TokenAt(nextText, cursor);
      if mentioning.Some? && t.Some? {
        TokenUnique(nextText, mentioning.value.start, t.value.start, cursor);
      }
    }

    method OnChangeText(next: string)
      modifies this
      ensures State() == Apply(old(State()), ChangeText(next))
    {
      text := next;
      RecomputeMentioning(next, end);
    }

    method OnSelectionChange(s: int, e: int)
      modifies this
      ensures State() == Apply(old(State()), ChangeSelection(s, e))
    {
      start, end := s, e;
      RecomputeMentioning(text, e);
    }

    method OnAtButtonPress()
      modifies this
      ensures State() == Apply(old(State()), PressAt)
    {
      var before, after := text[..Clamp(text, start)], text[Clamp(text, end)..];
      var inserted := Padded(before);
      text := before + inserted + after;
      start := |before| + |inserted|;
      end := start;
      RecomputeMentioning(text, start);
    }

    method OnSelectMention(m: Marker)
      modifies this
      ensures State() == Apply(old(State()), Pick(m))
    {
      if mentioning.None? {
        return;
      }
      var (newText, cursor) := InsertMention(text, mentioning.value, m);
      text, start, end := newText, cursor, cursor;
      markers := markers + [m];
      mentioning := None;
    }

    method InsertText(insert: string, cursorOffsetFromEnd: int)
      modifies this
      ensures State() == Apply(old(State()), InsertAtCursor(insert, cursorOffsetFromEnd))
    {
      var before, after := text[..Clamp(text, start)], text[Clamp(text, end)..];
      text := before + insert + after;
      start := |before| + |insert| - cursorOffsetFromEnd;
      end := start;
      mentioning := None;
    }

    method InsertPrefix(prefix: string)
      modifies this
      ensures State() == Apply(old(State()), InsertAtLineStart(prefix))
    {
      var before := text[..Clamp(text, start)];
      var at := |before|;
      assert before[..|before|] == before;
      while at > 0 && before[at - 1] != '\n'
        invariant 0 <= at <= |before|
        invariant LineStart(before) == LineStart(before[..at])
      {
        assert before[..at][..at - 1] == before[..at - 1];
        at := at - 1;
      }
      text := text[..at] + prefix + text[at..];
      start := end + |prefix|;
      end := start;
      mentioning := None;
    }

    method RestoreSnapshot(snap: Input)
      modifies this
      ensures State() == Apply(old(State()), Restore(snap))
    {
      text, start, end, markers := snap.text, snap.start, snap.end, snap.markers;
      mentioning := None;
    }

    method ResetAll()
      modifies this
      ensures State() == EMPTY
    {
      text, start, end, markers, mentioning := "", 0, 0, [], None;
    }

    method SerializeText() returns (r: string)
      ensures r == Serialize(text, markers)
    {
      r := SerializeMentions(text, markers);
    }
  }

  /** The active token is where it says it is. */
  ghost predicate TokenInText(s: Input) {
    s.mentioning.Some? ==>
      var t := s.mentioning.value;
      TokenRun(s.text, t.start, t.start + 1 + |t.query|) && t.query == s.text[t.start + 1..t.start + 1 + |t.query|]
  }

  lemma TokenStaysInText(s: Input, e: Edit)
    requires TokenInText(s)
    ensures TokenInText(Apply(s, e))
  {
    if e.ChangeText? {
      FoundInText(e.next, s.end);
    } else if e.ChangeSelection? {
      FoundInText(s.text, e.end);
    } else if e.PressAt? {
      FoundInText(Apply(s, e).text, Apply(s, e).end);
    }
  }

  lemma FoundInText(text: string, cursor: int)
    ensures TokenInText(Input(text, 0, 0, [], TokenAt(text, cursor)))
  {
  }

  // ----- where the cursor goes

  ghost predicate SelectionInText(s: Input) {
    0 <= s.start <= s.end <= |s.text|
  }

  ghost predicate CursorAt(s: Input, before: string, after: string) {
    s.start == s.end == |before| && s.text == before + after
  }

  /** The selection is replaced, and the cursor is as far from the end of the inserted text as was asked. */
  lemma InsertLands(s: Input, insert: string, offset: nat)
    requires SelectionInText(s) && offset <= |insert|
    ensures CursorAt(Apply(s, InsertAtCursor(insert, offset)),
                     s.text[..s.start] + insert[..|insert| - offset], insert[|insert| - offset..] + s.text[s.end..])
  {
    var cut := |insert| - offset;
    assert insert == insert[..cut] + insert[cut..];
  }

  /** The selection is replaced by an `@` in a place where a mention can start, and the list of suggestions opens. */
  lemma PressOpens(s: Input)
    requires SelectionInText(s)
    ensures var t := Apply(s, PressAt);
            && (CursorAt(t, s.text[..s.start] + "@", s.text[s.end..])
                || CursorAt(t, s.text[..s.start] + " @", s.text[s.end..]))
            && t.mentioning == Some(Token(t.end - 1, ""))
  {
    var t := Apply(s, PressAt);
    var before := s.text[..s.start];
    assert t.text[t.end - 1] == '@';
    assert TokenRun(t.text, t.end - 1, t.end);
    TokenUnique(t.text, t.mentioning.value.start, t.end - 1, t.end);
  }

  /** The `@` and the query are replaced by the marked name and a space, and the cursor follows. */
  lemma PickLands(s: Input, m: Marker)
    requires s.mentioning.Some? && TokenInText(s)
    ensures var token, t := s.mentioning.value, Apply(s, Pick(m));
            && CursorAt(t, s.text[..token.start] + [SENTINEL] + "@" + m.name + " ",
                        s.text[token.start + 1 + |token.query|..])
            && t.markers == s.markers + [m] && t.mentioning == None
  {
    assert [SENTINEL, '@'] == [SENTINEL] + "@";
  }

  /** A prefix goes in front of the line that holds the start of the selection; the cursor stays at the text that
      followed the selection. */
  lemma PrefixLands(s: Input, prefix: string)
    requires SelectionInText(s)
    ensures var t := Apply(s, InsertAtLineStart(prefix));
            exists at :: 0 <= at <= s.start && (at == 0 || s.text[at - 1] == '\n') && '\n' !in s.text[at..s.start]
              && t.text == s.text[..at] + prefix + s.text[at..] && t.start == t.end
              && t.text[t.end..] == s.text[s.end..]
  {
    var before := s.text[..s.start];
    var at := LineStart(before);
    LineStartExactly(before);
    assert s.text[at..s.start] == before[at..];
  }

  lemma {:induction false} LineStartExactly(before: string)
    ensures var at := LineStart(before);
            at <= |before| && (at == 0 || before[at - 1] == '\n') && '\n' !in before[at..]
  {
    if before != "" && before[|before| - 1] != '\n' {
      var init := before[..|before| - 1];
      LineStartExactly(init);
      assert before[LineStart(init)..] == init[LineStart(init)..] + [before[|before| - 1]];
    }
  }
}
