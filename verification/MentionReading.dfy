/** The server's reading of mentions, and what it reads in a message that the mention input sent. */
module MentionReading {
  import opened Basics
  import opened MentionSerialize
  import opened MentionDocuments
  import opened MentionInput
  import opened MentionSessions

  const ANCHOR := "](mention://"

  datatype Mention = Mention(kind: MentionType, id: string)

  /** `](mention://type/id)` and what follows it. */
  datatype Tail = Tail(mention: Mention, rest: string)

  function TypeOf(word: string): Option<MentionType> {
    if word == "member" then Some(Member)
    else if word == "agent" then Some(Agent)
    else if word == "squad" then Some(Squad)
    else if word == "issue" then Some(Issue)
    else if word == "all" then Some(All)
    else None
  }

  predicate IsHex(c: char) {
    '0' <= c <= '9' || 'a' <= c <= 'f' || 'A' <= c <= 'F' || c == '-'
  }

  predicate IsId(id: string) {
    id == "all" || (id != "" && forall i :: 0 <= i < |id| ==> IsHex(id[i]))
  }

  /** The text up to the first such character, or all of it. */
  function Until(t: string, c: char): (r: string)
    ensures |r| <= |t| && r == t[..|r|] && c !in r
    ensures |r| < |t| ==> t[|r|] == c
  {
    if t == "" || t[0] == c then "" else [t[0]] + Until(t[1..], c)
  }

  /** What is left after the given text, if it begins with it. */
  function After(prefix: string, t: string): (r: Option<string>)
    ensures r.Some? ==> t == prefix + r.value
  {
    if prefix == "" then Some(t)
    else if t == "" || t[0] != prefix[0] then None
    else After(prefix[1..], t[1..])
  }

  function ReadId(kind: MentionType, t: string): (r: Option<Tail>)
    ensures r.Some? ==> |r.value.rest| < |t|
  {
    var id := Until(t, ')');
    if |id| < |t| && IsId(id) then Some(Tail(Mention(kind, id), t[|id| + 1..])) else None
  }

  function ReadType(t: string): (r: Option<Tail>)
    ensures r.Some? ==> |r.value.rest| < |t|
  {
    var word := Until(t, '/');
    if |word| < |t| && TypeOf(word).Some? then ReadId(TypeOf(word).value, t[|word| + 1..]) else None
  }

  function ReadTail(t: string): (r: Option<Tail>)
    ensures r.Some? ==> |r.value.rest| < |t|
  {
    var inner := After(ANCHOR, t);
    if inner.Some? then ReadType(inner.value) else None
  }

  /** The first place from `i` on where a tail begins, with no line break before it. */
  function FindTail(t: string, i: nat): (r: Option<nat>)
    requires i <= |t|
    ensures r.Some? ==> i <= r.value <= |t| && ReadTail(t[r.value..]).Some?
    decreases |t| - i
  {
    if ReadTail(t[i..]).Some? then Some(i)
    else if i == |t| || t[i] == '\n' then None
    else FindTail(t, i + 1)
  }

  /** A mention that begins here: a bracket, an optional `@`, a label of at least one character as short as can be, and
      a tail. */
  function ReadHere(t: string): (r: Option<Tail>)
    ensures r.Some? ==> |r.value.rest| < |t|
  {
    if t == "" || t[0] != '[' then None
    else
      var marked := if |t| > 2 && t[1] == '@' && t[2] != '\n' then FindTail(t, 3) else None;
      var plain := if |t| > 1 && t[1] != '\n' then FindTail(t, 2) else None;
      if marked.Some? then ReadTail(t[marked.value..])
      else if plain.Some? then ReadTail(t[plain.value..])
      else None
  }

  /** Every match, leftmost first, without overlap. */
  function ReadAll(t: string): seq<Mention>
    decreases |t|
  {
    if t == "" then []
    else
      var here := ReadHere(t);
      if here.Some? then [here.value.mention] + ReadAll(here.value.rest) else ReadAll(t[1..])
  }

  // ----- tails

  predicate Bracket(c: char) {
    c == '[' || c == ']'
  }

  lemma AnchorHasOneBracket(i: nat)
    requires 0 < i < |ANCHOR|
    ensures !Bracket(ANCHOR[i])
  {
  }

  lemma TypeHasNoBracket(word: string, i: nat)
    requires TypeOf(word).Some? && i < |word|
    ensures !Bracket(word[i])
  {
  }

  lemma IdHasNoBracket(id: string, i: nat)
    requires IsId(id) && i < |id|
    ensures !Bracket(id[i])
  {
  }

  lemma IdHasOneBracket(kind: MentionType, t: string, i: nat)
    requires ReadId(kind, t).Some? && i < |t| - |ReadId(kind, t).value.rest|
    ensures !Bracket(t[i])
  {
    var id := Until(t, ')');
    if i < |id| {
      IdHasNoBracket(id, i);
      assert t[i] == id[i];
    }
  }

  lemma TypeHasOneBracket(t: string, i: nat)
    requires ReadType(t).Some? && i < |t| - |ReadType(t).value.rest|
    ensures !Bracket(t[i])
  {
    var word := Until(t, '/');
    if i < |word| {
      TypeHasNoBracket(word, i);
      assert t[i] == word[i];
    } else if i > |word| {
      IdHasOneBracket(TypeOf(word).value, t[|word| + 1..], i - |word| - 1);
    }
  }

  /** Only the first character of a tail is a bracket. */
  lemma TailHasOneBracket(t: string, i: nat)
    requires ReadTail(t).Some? && 0 < i < |t| - |ReadTail(t).value.rest|
    ensures !Bracket(t[i])
  {
    var inner := After(ANCHOR, t).value;
    if i < |ANCHOR| {
      AnchorHasOneBracket(i);
      assert t[i] == ANCHOR[i];
    } else {
      TypeHasOneBracket(inner, i - |ANCHOR|);
      assert t[i] == inner[i - |ANCHOR|];
    }
  }

  lemma {:induction false} UntilEnds(word: string, c: char, rest: string)
    requires c !in word
    ensures Until(word + [c] + rest, c) == word
  {
    var t := word + [c] + rest;
    if word != "" {
      assert t[1..] == word[1..] + [c] + rest;
      assert forall x :: x in word[1..] ==> x in word;
      assert t[0] == word[0] && word[0] in word;
      UntilEnds(word[1..], c, rest);
    } else {
      assert t[0] == c;
    }
  }

  lemma {:induction false} UntilLocal(a: string, b: string, c: char)
    requires |Until(a + b, c)| < |a|
    ensures Until(a, c) == Until(a + b, c)
  {
    if a != "" {
      assert (a + b)[1..] == a[1..] + b;
      if a[0] != c {
        UntilLocal(a[1..], b, c);
      }
    }
  }

  lemma IdLocal(kind: MentionType, a: string, b: string)
    requires ReadId(kind, a + b).Some? && |b| <= |ReadId(kind, a + b).value.rest|
    ensures ReadId(kind, a).Some?
  {
    UntilLocal(a, b, ')');
  }

  lemma TypeStep(t: string, word: string, rest: string)
    requires word == Until(t, '/') && |word| < |t| && rest == t[|word| + 1..]
    ensures ReadType(t) == if TypeOf(word).Some? then ReadId(TypeOf(word).value, rest) else None
  {
  }

  lemma TypeLocal(a: string, b: string)
    requires ReadType(a + b).Some? && |b| <= |ReadType(a + b).value.rest|
    ensures ReadType(a).Some?
  {
    var word := Until(a + b, '/');
    UntilLocal(a, b, '/');
    var part := a[|word| + 1..];
    assert (a + b)[|word| + 1..] == part + b;
    TypeStep(a + b, word, part + b);
    TypeStep(a, word, part);
    IdLocal(TypeOf(word).value, part, b);
  }

  lemma {:induction false} AfterPrefix(prefix: string, t: string)
    ensures After(prefix, prefix + t) == Some(t)
  {
    if prefix == "" {
      assert prefix + t == t;
    } else {
      assert (prefix + t)[1..] == prefix[1..] + t;
      AfterPrefix(prefix[1..], t);
    }
  }

  /** A tail does not depend on what follows it. */
  lemma TailLocal(a: string, b: string)
    requires ReadTail(a + b).Some? && |b| <= |ReadTail(a + b).value.rest|
    ensures ReadTail(a).Some?
  {
    var inner := After(ANCHOR, a + b).value;
    var part := a[|ANCHOR|..];
    assert a == ANCHOR + part by {
      assert a == (ANCHOR + inner)[..|a|];
    }
    assert inner == part + b by {
      assert inner == (a + b)[|ANCHOR|..];
    }
    AfterPrefix(ANCHOR, part);
    TypeLocal(part, b);
  }

  function TailText(kind: MentionType, id: string): string {
    ANCHOR + KindName(kind) + "/" + id + ")"
  }

  lemma KindHasNoSlash(kind: MentionType)
    ensures '/' !in KindName(kind) && TypeOf(KindName(kind)) == Some(kind)
  {
  }

  lemma IdIsRead(kind: MentionType, id: string, rest: string)
    requires IsId(id)
    ensures ReadId(kind, id + [')'] + rest) == Some(Tail(Mention(kind, id), rest))
  {
    IdHasNoParenthesis(id);
    UntilEnds(id, ')', rest);
    assert (id + [')'] + rest)[|id| + 1..] == rest;
  }

  lemma TypeIsRead(kind: MentionType, t: string)
    ensures ReadType(KindName(kind) + ['/'] + t) == ReadId(kind, t)
  {
    KindHasNoSlash(kind);
    UntilEnds(KindName(kind), '/', t);
    assert (KindName(kind) + ['/'] + t)[|KindName(kind)| + 1..] == t;
  }

  lemma FiveParts(a: string, b: string, c: string, d: string, e: string, rest: string)
    ensures a + b + c + d + e + rest == a + (b + c + (d + e + rest))
  {
  }

  lemma TailParts(kind: MentionType, id: string, rest: string)
    ensures TailText(kind, id) + rest == ANCHOR + (KindName(kind) + ['/'] + (id + [')'] + rest))
  {
    FiveParts(ANCHOR, KindName(kind), ['/'], id, [')'], rest);
  }

  lemma AnchorIsRead(t: string)
    ensures ReadTail(ANCHOR + t) == ReadType(t)
  {
    AfterPrefix(ANCHOR, t);
  }

  /** What a link ends with is read back. */
  lemma TailIsRead(kind: MentionType, id: string, rest: string)
    requires IsId(id)
    ensures ReadTail(TailText(kind, id) + rest) == Some(Tail(Mention(kind, id), rest))
  {
    var last := id + [')'] + rest;
    TailParts(kind, id, rest);
    AnchorIsRead(KindName(kind) + ['/'] + last);
    TypeIsRead(kind, last);
    IdIsRead(kind, id, rest);
  }

  lemma IdHasNoParenthesis(id: string)
    requires IsId(id)
    ensures ')' !in id
  {
  }

  // ----- text without tails

  /** No tail begins anywhere in it. */
  ghost predicate Quiet(t: string) {
    forall i :: 0 <= i <= |t| ==> ReadTail(t[i..]).None?
  }

  /** A tail does not begin in a quiet text and end after a bracket. */
  lemma NoTailAcross(q: string, x: string, i: nat)
    requires Quiet(q) && x != "" && Bracket(x[0]) && i < |q|
    ensures ReadTail((q + x)[i..]).None?
  {
    var t := (q + x)[i..];
    assert t == q[i..] + x;
    assert t[|q| - i] == x[0];
    if ReadTail(t).Some? {
      if |ReadTail(t).value.rest| < |x| {
        TailHasOneBracket(t, |q| - i);
      } else {
        TailLocal(q[i..], x);
      }
      assert false;
    }
  }

  lemma QuietConcat(q: string, x: string)
    requires Quiet(q) && Quiet(x) && x != "" && Bracket(x[0])
    ensures Quiet(q + x)
  {
    forall i | 0 <= i <= |q + x| ensures ReadTail((q + x)[i..]).None? {
      if i < |q| {
        NoTailAcross(q, x, i);
      } else {
        assert (q + x)[i..] == x[i - |q|..];
      }
    }
  }

  lemma QuietCons(c: char, q: string)
    requires Quiet(q) && c != ']'
    ensures Quiet([c] + q)
  {
    forall i | 0 <= i <= |[c] + q| ensures ReadTail(([c] + q)[i..]).None? {
      if i > 0 {
        assert ([c] + q)[i..] == q[i - 1..];
      } else {
        assert ([c] + q)[0..][0] == c && ANCHOR[0] == ']';
      }
    }
  }

  // ----- reading

  ghost predicate FirstTail(t: string, n: nat) {
    n <= |t| && ReadTail(t[n..]).Some? && forall i :: 0 <= i < n ==> ReadTail(t[i..]).None?
  }

  lemma LineBreakStep(t: string, i: nat, n: nat)
    requires i < n <= |t|
    ensures '\n' in t[i..n] <==> t[i] == '\n' || '\n' in t[i + 1..n]
  {
    assert t[i..n] == [t[i]] + t[i + 1..n];
  }

  lemma {:induction false} Finds(t: string, i: nat, n: nat)
    requires FirstTail(t, n) && i <= n
    ensures FindTail(t, i) == if '\n' in t[i..n] then None else Some(n)
    decreases n - i
  {
    if i < n {
      LineBreakStep(t, i, n);
      Finds(t, i + 1, n);
    }
  }

  /** A bracket at `k` whose label runs up to the tail. */
  ghost predicate Opens(t: string, k: nat, n: nat) {
    && k + 2 <= n <= |t| && t[k] == '[' && '\n' !in t[k + 1..n]
    && (t[k + 1] == '@' ==> k + 3 <= n)
  }

  lemma HereReadsFirst(t: string, n: nat)
    requires FirstTail(t, n) && n >= 3
    ensures ReadHere(t).Some? ==> ReadHere(t) == ReadTail(t[n..])
  {
    Finds(t, 3, n);
    Finds(t, 2, n);
  }

  lemma OpensIsRead(t: string, n: nat)
    requires FirstTail(t, n) && Opens(t, 0, n)
    ensures ReadHere(t) == ReadTail(t[n..])
  {
    LineBreakStep(t, 1, n);
    Finds(t, 2, n);
    if n >= 3 {
      LineBreakStep(t, 2, n);
      Finds(t, 3, n);
    }
  }

  lemma FirstTailNext(t: string, n: nat)
    requires FirstTail(t, n) && n > 0
    ensures FirstTail(t[1..], n - 1) && t[1..][n - 1..] == t[n..]
  {
    forall i | 0 <= i < n - 1 ensures ReadTail(t[1..][i..]).None? {
      assert t[1..][i..] == t[i + 1..];
    }
    assert t[1..][n - 1..] == t[n..];
  }

  /** Whatever brackets come before it, the first mention is read. */
  lemma {:induction false} FirstIsRead(t: string, k: nat, n: nat)
    requires FirstTail(t, n) && Opens(t, k, n)
    ensures ReadAll(t) == [ReadTail(t[n..]).value.mention] + ReadAll(ReadTail(t[n..]).value.rest)
    decreases k
  {
    if k == 0 {
      OpensIsRead(t, n);
    } else {
      HereReadsFirst(t, n);
      if ReadHere(t).None? {
        FirstTailNext(t, n);
        assert t[1..][k..n - 1] == t[k + 1..n];
        FirstIsRead(t[1..], k - 1, n - 1);
      }
    }
  }

  lemma {:induction false} QuietReadsNothing(t: string)
    requires Quiet(t)
    ensures ReadAll(t) == []
    decreases |t|
  {
    if t != "" {
      forall i | 0 <= i <= |t[1..]| ensures ReadTail(t[1..][i..]).None? {
        assert t[1..][i..] == t[i + 1..];
      }
      QuietReadsNothing(t[1..]);
    }
  }

  // ----- what the server reads in a sent message

  function Label(m: Marker): string {
    if m.kind == Issue then m.name else "@" + m.name
  }

  /** A name on one line that does not itself contain a link's end, and an id as the server makes them. */
  ghost predicate Readable(m: Marker) {
    && m.name != "" && '\n' !in m.name && Quiet(m.name) && (m.kind == Issue ==> m.name != "@")
    && IsId(m.id)
  }

  lemma LinkParts(m: Marker)
    ensures Link(m) == "[" + Label(m) + TailText(m.kind, m.id)
  {
  }

  lemma LabelIsQuiet(m: Marker)
    requires Readable(m)
    ensures Quiet(Label(m)) && Quiet("[" + Label(m))
  {
    if m.kind != Issue {
      QuietCons('@', m.name);
    }
    QuietCons('[', Label(m));
  }

  lemma FirstTailAfter(p: string, tail: string)
    requires Quiet(p) && ReadTail(tail).Some? && tail != "" && Bracket(tail[0])
    ensures FirstTail(p + tail, |p|) && (p + tail)[|p|..] == tail
  {
    assert (p + tail)[|p|..] == tail;
    forall i | 0 <= i < |p| ensures ReadTail((p + tail)[i..]).None? {
      NoTailAcross(p, tail, i);
    }
  }

  lemma OpensAfter(q: string, shown: string, open: string, tail: string, t: string)
    requires shown != "" && '\n' !in shown && (shown[0] == '@' ==> |shown| > 1)
    requires open == "[" + shown && t == q + open + tail
    ensures Opens(t, |q|, |q| + |open|)
  {
    assert t[|q|..|q| + |open|] == open && t[|q|] == open[0];
    assert t[|q| + 1] == open[1] == shown[0];
    assert t[|q| + 1..|q| + |open|] == shown;
  }

  lemma BracketIsRead(q: string, shown: string, open: string, tail: string, t: string)
    requires Quiet(q) && Quiet(open) && ReadTail(tail).Some? && tail != "" && Bracket(tail[0])
    requires shown != "" && '\n' !in shown && (shown[0] == '@' ==> |shown| > 1)
    requires open == "[" + shown && t == q + open + tail
    ensures ReadAll(t) == [ReadTail(tail).value.mention] + ReadAll(ReadTail(tail).value.rest)
  {
    QuietConcat(q, open);
    FirstTailAfter(q + open, tail);
    OpensAfter(q, shown, open, tail, t);
    FirstIsRead(t, |q|, |q + open|);
  }

  /** After any quiet text, a link is read as its marker's type and id, and reading goes on after it. */
  lemma LinkIsRead(q: string, m: Marker, rest: string)
    requires Quiet(q) && Readable(m)
    ensures ReadAll(q + (Link(m) + rest)) == [Mention(m.kind, m.id)] + ReadAll(rest)
  {
    var tail := TailText(m.kind, m.id) + rest;
    LabelIsQuiet(m);
    TailIsRead(m.kind, m.id, rest);
    LinkText(q, m, rest);
    BracketIsRead(q, Label(m), "[" + Label(m), tail, q + (Link(m) + rest));
  }

  lemma LinkText(q: string, m: Marker, rest: string)
    ensures q + (Link(m) + rest) == q + ("[" + Label(m)) + (TailText(m.kind, m.id) + rest)
  {
    LinkParts(m);
    var open, tail := "[" + Label(m), TailText(m.kind, m.id);
    ConcatAssociates(open, tail, rest);
    ConcatAssociates(q, open, tail + rest);
  }

  /** A link at the start of a text also gives back its label: the name, marked with an `@` unless it is an issue. */
  lemma LabelIsRead(m: Marker, rest: string)
    requires Readable(m)
    ensures ReadHere(Link(m) + rest) == Some(Tail(Mention(m.kind, m.id), rest))
    ensures '[' == (Link(m) + rest)[0] && ReadTail((Link(m) + rest)[1 + |Label(m)|..]).Some?
    ensures (Link(m) + rest)[1..1 + |Label(m)|] == (if m.kind == Issue then "" else "@") + m.name
  {
    var tail := TailText(m.kind, m.id) + rest;
    LabelIsQuiet(m);
    TailIsRead(m.kind, m.id, rest);
    LinkText("", m, rest);
    assert "" + (Link(m) + rest) == Link(m) + rest && "" + ("[" + Label(m)) == "[" + Label(m);
    FirstTailAfter("[" + Label(m), tail);
    OpensAfter("", Label(m), "[" + Label(m), tail, "[" + Label(m) + tail);
    OpensIsRead("[" + Label(m) + tail, 1 + |Label(m)|);
  }

  function MentionsOf(ms: seq<Marker>): seq<Mention> {
    if ms == [] then [] else [Mention(ms[0].kind, ms[0].id)] + MentionsOf(ms[1..])
  }

  /** The text between mentions is quiet, and every mention is readable. */
  ghost predicate ReaderSafe(q: string, doc: seq<Piece>)
    decreases |doc|
  {
    if doc == [] then Quiet(q)
    else match doc[0]
      case Plain(t) => ReaderSafe(q + t, doc[1..])
      case Stray => ReaderSafe(q, doc[1..])
      case Chip(m) => Quiet(q) && Readable(m) && ReaderSafe("", doc[1..])
  }

  lemma {:induction false} LinkedIsRead(q: string, doc: seq<Piece>)
    requires ReaderSafe(q, doc)
    ensures ReadAll(q + Linked(doc, Chips(doc))) == MentionsOf(Chips(doc))
    decreases |doc|
  {
    if doc == [] {
      assert q + "" == q;
      QuietReadsNothing(q);
    } else {
      var rest := doc[1..];
      match doc[0] {
        case Plain(t) =>
          LinkedIsRead(q + t, rest);
          ConcatAssociates(q, t, Linked(rest, Chips(rest)));
          assert Chips(doc) == Chips(rest);
        case Stray =>
          LinkedIsRead(q, rest);
          assert Chips(doc) == Chips(rest);
        case Chip(m) =>
          LinkedIsRead("", rest);
          LinkIsRead(q, m, Linked(rest, Chips(rest)));
          assert "" + Linked(rest, Chips(rest)) == Linked(rest, Chips(rest));
          assert Chips(doc)[1..] == Chips(rest);
      }
    }
  }

  /** The round trip between client and server: in the message sent for a document of one-word mentions the server reads
      exactly its mentions, in order. */
  lemma ServerReadsChips(doc: seq<Piece>)
    requires Spaced(doc) && SingleWords(Chips(doc)) && ReaderSafe("", doc)
    ensures ReadAll(Serialize(Render(doc), Chips(doc))) == MentionsOf(Chips(doc))
  {
    RoundTrip(doc);
    LinkedIsRead("", doc);
    assert "" + Linked(doc, Chips(doc)) == Linked(doc, Chips(doc));
  }

  ghost predicate AllQuiet(gaps: seq<string>) {
    forall k :: 0 <= k < |gaps| ==> Quiet(gaps[k])
  }

  ghost predicate AllReadable(ms: seq<Marker>) {
    forall k :: 0 <= k < |ms| ==> Readable(ms[k])
  }

  lemma {:induction false} LinksAreRead(gaps: seq<string>, ms: seq<Marker>, k: nat)
    requires k <= |ms| < |gaps| && AllQuiet(gaps) && AllReadable(ms)
    ensures ReadAll(LinksFrom(gaps, ms, k)) == MentionsOf(ms[k..])
    decreases |ms| - k
  {
    if k == |ms| {
      QuietReadsNothing(gaps[k]);
    } else {
      LinksAreRead(gaps, ms, k + 1);
      LinkIsRead(gaps[k], ms[k], LinksFrom(gaps, ms, k + 1));
      assert ms[k..][0] == ms[k] && ms[k..][1..] == ms[k + 1..];
    }
  }

  /** So after any careful editing session whose mentions have one-word, readable names, and whose own text holds no
      link's end, the server reads exactly the picked mentions, in text order. */
  lemma ServerReadsSession(edits: seq<Edit>)
    requires CarefulRun(EMPTY, {}, edits)
    ensures var s := ApplyAll(EMPTY, edits);
            exists gaps :: InForm(s, gaps)
              && (SingleWords(s.markers) && AllQuiet(gaps) && AllReadable(s.markers)
                  ==> ReadAll(Serialize(s.text, s.markers)) == MentionsOf(s.markers))
  {
    var s := ApplyAll(EMPTY, edits);
    CarefulSessionLinksExactly(edits);
    var gaps :| InForm(s, gaps) && Serialize(s.text, s.markers) == Outgoing(s, gaps);
    if SingleWords(s.markers) && AllQuiet(gaps) && AllReadable(s.markers) {
      LinksAreRead(gaps, s.markers, 0);
      assert s.markers[0..] == s.markers;
    }
  }
}
