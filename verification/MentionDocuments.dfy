/** What serialization does, stated on documents: plain text, mention chips, and stray sentinels. */
module MentionDocuments {
  import opened Basics
  import opened MentionSerialize

  datatype Piece = Plain(text: string) | Stray | Chip(marker: Marker)

  function PieceText(p: Piece): string {
    match p
    case Plain(t) => t
    case Stray => [SENTINEL]
    case Chip(m) => [SENTINEL, '@'] + m.name
  }

  function Render(doc: seq<Piece>): string {
    if doc == [] then "" else PieceText(doc[0]) + Render(doc[1..])
  }

  predicate StartsSpaced(t: string) {
    t == "" || IsSpace(t[0])
  }

  /** Plain text holds no sentinel, a stray one is not followed by `@`, and a chip ends at white space or the end. */
  ghost predicate Spaced(doc: seq<Piece>) {
    doc == []
    || (Spaced(doc[1..])
        && match doc[0]
           case Plain(t) => SENTINEL !in t
           case Stray => Render(doc[1..]) == "" || Render(doc[1..])[0] != '@'
           case Chip(_) => StartsSpaced(Render(doc[1..])))
  }

  function Chips(doc: seq<Piece>): seq<Marker> {
    if doc == [] then [] else (if doc[0].Chip? then [doc[0].marker] else []) + Chips(doc[1..])
  }

  function Names(ms: seq<Marker>): (r: seq<string>)
    ensures |r| == |ms| && forall i :: 0 <= i < |r| ==> r[i] == ms[i].name
  {
    if ms == [] then [] else [ms[0].name] + Names(ms[1..])
  }

  ghost predicate SingleWords(ms: seq<Marker>) {
    forall m :: m in ms ==> NoSpace(m.name)
  }

  /** The document with its chips replaced by the links of the given markers, in order. */
  function Linked(doc: seq<Piece>, ms: seq<Marker>): string
    requires |ms| == |Chips(doc)|
  {
    if doc == [] then ""
    else match doc[0]
      case Plain(t) => t + Linked(doc[1..], ms)
      case Stray => Linked(doc[1..], ms)
      case Chip(_) => Link(ms[0]) + Linked(doc[1..], ms[1..])
  }

  // ----- the walk on a document

  lemma {:induction false} WordOfName(name: string, rest: string)
    requires NoSpace(name) && StartsSpaced(rest)
    ensures Word(name + rest) == name
  {
    if name == "" {
      assert name + rest == rest;
    } else {
      assert (name + rest)[1..] == name[1..] + rest;
      assert forall i :: 0 <= i < |name[1..]| ==> name[1..][i] == name[i + 1];
      WordOfName(name[1..], rest);
    }
  }

  lemma ScanPlainPiece(t: string, rest: string, ms: seq<Marker>)
    requires SENTINEL !in t
    ensures Scan(t + rest, ms) == Before(t, Scan(rest, ms))
  {
    assert (t + rest)[..|t|] == t && (t + rest)[|t|..] == rest;
    ScanSkips(t + rest, |t|, ms);
  }

  lemma ScanStrayPiece(rest: string, ms: seq<Marker>)
    requires rest == "" || rest[0] != '@'
    ensures Scan([SENTINEL] + rest, ms) == Scan(rest, ms)
  {
    assert ([SENTINEL] + rest)[1..] == rest;
  }

  lemma ScanChipPiece(name: string, rest: string, ms: seq<Marker>)
    ensures var word := Word(name + rest);
            Scan([SENTINEL, '@'] + name + rest, ms)
            == if ms == [] || ms[0].name != word then None
               else Before(Link(ms[0]), Scan((name + rest)[|word|..], ms[1..]))
  {
    var t := [SENTINEL, '@'] + name + rest;
    assert t[2..] == name + rest;
    assert t[2 + |Word(name + rest)|..] == (name + rest)[|Word(name + rest)|..];
  }

  lemma ScanChip(name: string, rest: string, ms: seq<Marker>)
    requires NoSpace(name) && StartsSpaced(rest)
    ensures Scan([SENTINEL, '@'] + name + rest, ms)
            == if ms == [] || ms[0].name != name then None else Before(Link(ms[0]), Scan(rest, ms[1..]))
  {
    WordOfName(name, rest);
    ScanChipPiece(name, rest, ms);
    assert (name + rest)[|name|..] == rest;
  }

  lemma TailWords(doc: seq<Piece>)
    requires doc != [] && SingleWords(Chips(doc))
    ensures SingleWords(Chips(doc[1..]))
    ensures doc[0].Chip? ==> NoSpace(doc[0].marker.name)
  {
    var head, tail := (if doc[0].Chip? then [doc[0].marker] else []), Chips(doc[1..]);
    forall m | m in tail ensures m in Chips(doc) {
      assert m in head + tail;
    }
    if doc[0].Chip? {
      assert Chips(doc)[0] == doc[0].marker;
    }
  }

  /** Whatever markers it is given, the walk over a document of one-word chips links each chip with the marker in
      its place exactly when the two lists bear the same names. */
  lemma {:induction false} ScanDocument(doc: seq<Piece>, ms: seq<Marker>)
    requires Spaced(doc) && SingleWords(Chips(doc))
    ensures Scan(Render(doc), ms)
            == if Names(ms) == Names(Chips(doc)) then Some(Linked(doc, ms)) else None
    decreases |doc|
  {
    if doc == [] {
      assert Names(ms) == [] <==> ms == [];
    } else {
      TailWords(doc);
      var rest, chips := Render(doc[1..]), Chips(doc[1..]);
      match doc[0] {
        case Plain(t) =>
          ScanDocument(doc[1..], ms);
          ScanPlainPiece(t, rest, ms);
          assert Chips(doc) == chips;
        case Stray =>
          ScanDocument(doc[1..], ms);
          ScanStrayPiece(rest, ms);
          assert Chips(doc) == chips;
        case Chip(m) =>
          ScanChip(m.name, rest, ms);
          NamesCons(m, chips, ms);
          if ms != [] && ms[0].name == m.name {
            ScanDocument(doc[1..], ms[1..]);
          }
      }
    }
  }

  lemma NamesCons(m: Marker, chips: seq<Marker>, ms: seq<Marker>)
    ensures Names(ms) == Names([m] + chips) <==> ms != [] && ms[0].name == m.name && Names(ms[1..]) == Names(chips)
  {
    assert ([m] + chips)[1..] == chips;
    if ms != [] {
      assert Names(ms) == [ms[0].name] + Names(ms[1..]);
      assert Names([m] + chips) == [m.name] + Names(chips);
      if Names(ms) == Names([m] + chips) {
        assert Names(ms)[1..] == Names(ms[1..]) && Names([m] + chips)[1..] == Names(chips);
      }
    }
  }

  /** A chip whose name has a space stops the walk, even with its own markers. */
  lemma {:induction false} ScanStopsAtSpacedName(doc: seq<Piece>)
    requires Spaced(doc) && !SingleWords(Chips(doc))
    ensures Scan(Render(doc), Chips(doc)).None?
    decreases |doc|
  {
    var rest, chips := Render(doc[1..]), Chips(doc[1..]);
    var bad :| bad in Chips(doc) && !NoSpace(bad.name);
    match doc[0] {
      case Plain(t) =>
        assert Chips(doc) == chips;
        ScanStopsAtSpacedName(doc[1..]);
        ScanPlainPiece(t, rest, chips);
      case Stray =>
        assert Chips(doc) == chips;
        ScanStopsAtSpacedName(doc[1..]);
        ScanStrayPiece(rest, chips);
      case Chip(m) =>
        assert Chips(doc) == [m] + chips && Chips(doc)[1..] == chips;
        ScanChipPiece(m.name, rest, Chips(doc));
        if NoSpace(m.name) {
          assert bad in chips;
          ScanStopsAtSpacedName(doc[1..]);
          WordOfName(m.name, rest);
          assert (m.name + rest)[|m.name|..] == rest;
        }
    }
  }

  lemma {:induction false} NoSentinelMeansNoChips(doc: seq<Piece>)
    requires SENTINEL !in Render(doc)
    ensures Chips(doc) == [] && Linked(doc, []) == Render(doc)
    decreases |doc|
  {
    if doc != [] {
      var rest := Render(doc[1..]);
      assert forall c :: c in rest ==> c in Render(doc);
      NoSentinelMeansNoChips(doc[1..]);
    }
  }

  // ----- what is sent

  /** For every document of one-word chips and every marker list. */
  lemma SerializeDocument(doc: seq<Piece>, ms: seq<Marker>)
    requires Spaced(doc) && SingleWords(Chips(doc))
    ensures Serialize(Render(doc), ms)
            == if Names(ms) == Names(Chips(doc)) then Linked(doc, ms) else Strip(Render(doc))
  {
    ScanDocument(doc, ms);
    if SENTINEL !in Render(doc) {
      NoSentinelMeansNoChips(doc);
      assert Names(ms) == [] <==> ms == [];
    }
  }

  /** The round trip, with its exact condition: a document and its own markers come out fully linked if and only if
      no mentioned name contains white space; one name that does costs every link in the message. */
  lemma RoundTrip(doc: seq<Piece>)
    requires Spaced(doc)
    ensures Serialize(Render(doc), Chips(doc))
            == if SingleWords(Chips(doc)) then Linked(doc, Chips(doc)) else Strip(Render(doc))
  {
    if SingleWords(Chips(doc)) {
      SerializeDocument(doc, Chips(doc));
    } else {
      ScanStopsAtSpacedName(doc);
      if SENTINEL !in Render(doc) {
        NoSentinelMeansNoChips(doc);
      }
    }
  }

  lemma {:induction false} StripAfter(a: string, b: string)
    requires SENTINEL !in a
    ensures Strip(a + b) == a + Strip(b)
  {
    if a == "" {
      assert a + b == b;
    } else {
      var rest := a[1..];
      assert forall c :: c in rest ==> c in a;
      StripAfter(rest, b);
      assert (a + b)[1..] == rest + b && a[0] in a;
      ConcatAssociates([a[0]], rest, Strip(b));
      assert a == [a[0]] + rest;
    }
  }

  /** What falling back leaves of a piece. */
  lemma StripPlain(text: string, doc: seq<Piece>)
    requires SENTINEL !in text
    ensures Strip(Render([Plain(text)] + doc)) == text + Strip(Render(doc))
  {
    PieceFirst(Plain(text), doc);
    StripAfter(text, Render(doc));
  }

  lemma StripSentinel(rest: string)
    ensures Strip([SENTINEL] + rest) == Strip(rest)
  {
    assert ([SENTINEL] + rest)[1..] == rest;
  }

  lemma StripChip(m: Marker, doc: seq<Piece>)
    requires SENTINEL !in m.name
    ensures Strip(Render([Chip(m)] + doc)) == "@" + m.name + Strip(Render(doc))
  {
    var rest := Render(doc);
    PieceFirst(Chip(m), doc);
    assert PieceText(Chip(m)) + rest == [SENTINEL] + ("@" + m.name + rest);
    StripSentinel("@" + m.name + rest);
    StripAfter("@" + m.name, rest);
  }

  lemma OneChip(m: Marker)
    ensures Spaced([Chip(m)]) && Chips([Chip(m)]) == [m]
    ensures SENTINEL !in m.name ==> Strip(Render([Chip(m)])) == "@" + m.name
  {
    assert [Chip(m)] + [] == [Chip(m)] && [Chip(m)][1..] == [];
    if SENTINEL !in m.name {
      StripChip(m, []);
    }
  }

  /** Inputs on which the link is lost: one mention of anybody whose name has white space in it, such as "Ann Lee". */
  lemma SpacedNameFallsBack(m: Marker)
    requires SENTINEL !in m.name && !NoSpace(m.name)
    ensures Spaced([Chip(m)]) && Serialize(Render([Chip(m)]), [m]) == "@" + m.name
  {
    OneChip(m);
    assert m in [m];
    RoundTrip([Chip(m)]);
  }

  /** Every text whatsoever reads as such a document, its words after marked `@` taken as the names. */
  function Parse(t: string): seq<Piece>
    decreases |t|
  {
    if t == "" then []
    else if t[0] != SENTINEL then [Plain([t[0]])] + Parse(t[1..])
    else if |t| < 2 || t[1] != '@' then [Stray] + Parse(t[1..])
    else [Chip(Marker(Member, "", Word(t[2..])))] + Parse(t[2 + |Word(t[2..])|..])
  }

  lemma ChipAtStart(t: string, word: string, rest: string)
    requires |t| >= 2 && t[0] == SENTINEL && t[1] == '@'
    requires word == Word(t[2..]) && rest == t[2 + |word|..]
    ensures t == [SENTINEL, '@'] + word + rest && StartsSpaced(rest)
  {
    assert t[2..][|word|..] == rest;
    assert t[2..] == word + rest;
  }

  lemma {:induction false} ParseReads(t: string)
    ensures Render(Parse(t)) == t && Spaced(Parse(t)) && SingleWords(Chips(Parse(t)))
    decreases |t|
  {
    if t != "" {
      if t[0] != SENTINEL {
        ParseReads(t[1..]);
        PieceFirst(Plain([t[0]]), Parse(t[1..]));
      } else if |t| < 2 || t[1] != '@' {
        ParseReads(t[1..]);
        PieceFirst(Stray, Parse(t[1..]));
      } else {
        var word := Word(t[2..]);
        var rest := t[2 + |word|..];
        ParseReads(rest);
        ChipAtStart(t, word, rest);
        PieceFirst(Chip(Marker(Member, "", word)), Parse(rest));
      }
    }
  }

  lemma PieceFirst(p: Piece, doc: seq<Piece>)
    ensures ([p] + doc)[1..] == doc
    ensures Render([p] + doc) == PieceText(p) + Render(doc)
    ensures Chips([p] + doc) == (if p.Chip? then [p.marker] else []) + Chips(doc)
  {
    assert ([p] + doc)[1..] == doc;
  }

  /** For any text and any markers: the linked text when the marked words are the marker names in order, and
      otherwise the text itself without its sentinels. No other character is ever lost. */
  lemma SerializeAnything(text: string, ms: seq<Marker>)
    ensures Names(ms) == Names(Chips(Parse(text))) ==> Serialize(text, ms) == Linked(Parse(text), ms)
    ensures Names(ms) != Names(Chips(Parse(text))) ==> Serialize(text, ms) == Strip(text)
  {
    ParseReads(text);
    SerializeDocument(Parse(text), ms);
  }

  // ----- inserting a chip

  lemma {:induction false} RenderAppend(a: seq<Piece>, b: seq<Piece>)
    ensures Render(a + b) == Render(a) + Render(b)
    ensures Chips(a + b) == Chips(a) + Chips(b)
  {
    if a == [] {
      assert a + b == b;
    } else {
      RenderAppend(a[1..], b);
      var p, rest := a[0], a[1..];
      assert a == [p] + rest && a + b == [p] + (rest + b);
      PieceFirst(p, rest + b);
      PieceFirst(p, rest);
      ConcatAssociates(PieceText(p), Render(rest), Render(b));
      ConcatAssociates(if p.Chip? then [p.marker] else [], Chips(rest), Chips(b));
    }
  }

  /** To the piece before it, the one text looks like the other. */
  ghost predicate StartsAs(s: string, t: string) {
    && (StartsSpaced(s) ==> StartsSpaced(t))
    && (s == "" || s[0] != '@' ==> t == "" || t[0] != '@')
  }

  /** What the text after a piece looks like to it does not change with a later end that starts the same way. */
  lemma SameStart(a: seq<Piece>, b: seq<Piece>, c: seq<Piece>)
    requires StartsAs(Render(b), Render(c))
    ensures StartsAs(Render(a + b), Render(a + c))
  {
    RenderAppend(a, b);
    RenderAppend(a, c);
    if Render(a) == "" {
      assert Render(a + b) == Render(b) && Render(a + c) == Render(c);
    } else {
      assert Render(a + b)[0] == Render(a)[0] == Render(a + c)[0];
    }
  }

  lemma SpacedUncons(p: Piece, d: seq<Piece>)
    requires Spaced([p] + d)
    ensures Spaced(d)
  {
    assert ([p] + d)[1..] == d;
  }

  lemma SpacedCons(p: Piece, d: seq<Piece>, e: seq<Piece>)
    requires Spaced([p] + d) && Spaced(e) && StartsAs(Render(d), Render(e))
    ensures Spaced([p] + e)
  {
    assert ([p] + d)[1..] == d && ([p] + e)[1..] == e;
  }

  lemma SplitFirst(a: seq<Piece>, b: seq<Piece>)
    requires a != []
    ensures a + b == [a[0]] + (a[1..] + b)
  {
  }

  /** Swapping the end of a document for another that starts the same way for what comes before. */
  lemma {:induction false} SpacedAppend(a: seq<Piece>, b: seq<Piece>, c: seq<Piece>)
    requires Spaced(a + b) && Spaced(c) && StartsAs(Render(b), Render(c))
    ensures Spaced(a + c)
  {
    if a == [] {
      assert a + b == b && a + c == c;
    } else {
      var p, rest := a[0], a[1..];
      SplitFirst(a, b);
      SplitFirst(a, c);
      SpacedUncons(p, rest + b);
      SpacedAppend(rest, b, c);
      SameStart(rest, b, c);
      SpacedCons(p, rest + b, rest + c);
    }
  }

  lemma {:induction false} SpacedTail(a: seq<Piece>, b: seq<Piece>)
    requires Spaced(a + b)
    ensures Spaced(b)
  {
    if a == [] {
      assert a + b == b;
    } else {
      assert (a + b)[1..] == a[1..] + b;
      SpacedTail(a[1..], b);
    }
  }

  /** Where the user picks a mention inside a plain stretch of a document: the `@` and the query are replaced. */
  function WithChip(pre: seq<Piece>, before: string, m: Marker, after: string, post: seq<Piece>): seq<Piece> {
    pre + ([Plain(before), Chip(m), Plain(" " + after)] + post)
  }

  lemma WithChipSpaced(pre: seq<Piece>, before: string, query: string, after: string, post: seq<Piece>, m: Marker)
    requires Spaced(pre + ([Plain(before + "@" + query + after)] + post))
    ensures Spaced(WithChip(pre, before, m, after, post))
    ensures Chips(WithChip(pre, before, m, after, post)) == Chips(pre) + [m] + Chips(post)
  {
    var was := [Plain(before + "@" + query + after)] + post;
    var now := [Plain(before), Chip(m), Plain(" " + after)] + post;
    SpacedTail(pre, was);
    TypedPiece(before, query, after, post);
    ChipSpaced(before, m, after, post);
    FirstOfText(before, [SENTINEL, '@'] + m.name + (" " + after + Render(post)));
    RenderAppend(pre, now);
    SpacedAppend(pre, was, now);
    ConcatAssociates(Chips(pre), [m], Chips(post));
  }

  /** The plain stretch around the `@` being typed. */
  lemma TypedPiece(before: string, query: string, after: string, post: seq<Piece>)
    requires Spaced([Plain(before + "@" + query + after)] + post)
    ensures Spaced(post) && SENTINEL !in before && SENTINEL !in after
    ensures var text := Render([Plain(before + "@" + query + after)] + post);
            text != "" && text[0] == if before == "" then '@' else before[0]
  {
    var whole := before + "@" + query + after;
    var was := [Plain(whole)] + post;
    PieceFirst(Plain(whole), post);
    assert was[1..] == post && was[0] == Plain(whole) && SENTINEL !in whole;
    assert forall c :: c in before || c in after ==> c in whole;
    assert (whole + Render(post))[0] == whole[0];
  }

  lemma FirstOfText(before: string, rest: string)
    ensures before != "" ==> (before + rest)[0] == before[0]
  {
  }

  lemma ChipShape(before: string, m: Marker, after: string, post: seq<Piece>)
    ensures var now := [Plain(before), Chip(m), Plain(" " + after)] + post;
            && now == [Plain(before)] + ([Chip(m)] + ([Plain(" " + after)] + post))
            && Chips(now) == [m] + Chips(post)
            && Render(now) == before + ([SENTINEL, '@'] + m.name + (" " + after + Render(post)))
  {
    var e1 := [Plain(" " + after)] + post;
    var e2 := [Chip(m)] + e1;
    PieceFirst(Plain(" " + after), post);
    PieceFirst(Chip(m), e1);
    PieceFirst(Plain(before), e2);
    assert [Plain(before), Chip(m), Plain(" " + after)] + post == [Plain(before)] + e2;
  }

  lemma SpacedFirst(p: Piece, doc: seq<Piece>)
    requires Spaced(doc)
    requires match p
             case Plain(t) => SENTINEL !in t
             case Stray => false
             case Chip(_) => StartsSpaced(Render(doc))
    ensures Spaced([p] + doc)
  {
    assert ([p] + doc)[1..] == doc;
  }

  lemma ChipSpaced(before: string, m: Marker, after: string, post: seq<Piece>)
    requires SENTINEL !in before && SENTINEL !in after && Spaced(post)
    ensures var now := [Plain(before), Chip(m), Plain(" " + after)] + post;
            && Spaced(now) && Chips(now) == [m] + Chips(post)
            && Render(now) == before + ([SENTINEL, '@'] + m.name + (" " + after + Render(post)))
  {
    ChipShape(before, m, after, post);
    PieceFirst(Plain(" " + after), post);
    SpacedFirst(Plain(" " + after), post);
    var e1 := [Plain(" " + after)] + post;
    assert Render(e1)[0] == ' ';
    SpacedFirst(Chip(m), e1);
    SpacedFirst(Plain(before), [Chip(m)] + e1);
  }

  lemma {:induction false} RotationExactly<T(!new)>(s: seq<T>, m: T)
    ensures s + [m] == [m] + s <==> forall x :: x in s ==> x == m
  {
    if s != [] {
      var tail := s[1..];
      RotationExactly(tail, m);
      assert (s + [m])[1..] == tail + [m] && ([m] + s)[1..] == s && s == [s[0]] + tail;
      assert forall x :: x in s <==> x == s[0] || x in tail;
      if s + [m] == [m] + s {
        assert s[0] == (s + [m])[0] == m;
        assert tail + [m] == s == [m] + tail;
      }
      if forall x :: x in s ==> x == m {
        assert s[0] in s && tail + [m] == [m] + tail;
        assert s + [m] == [s[0]] + (tail + [m]);
      }
    }
  }

  lemma RotationInside<T(!new)>(p: seq<T>, q: seq<T>, m: T)
    ensures (p + q) + [m] == (p + [m]) + q <==> forall x :: x in q ==> x == m
  {
    RotationExactly(q, m);
    assert (p + q) + [m] == p + (q + [m]) && (p + [m]) + q == p + ([m] + q);
    assert (p + (q + [m]))[|p|..] == q + [m] && (p + ([m] + q))[|p|..] == [m] + q;
  }

  /** Picking a mention before later chips leaves the marker list out of text order. The list is still right exactly
      when every later chip is that same mention; it is never right to append otherwise. */
  lemma MarkersStayInTextOrderExactly(pre: seq<Piece>, before: string, query: string, after: string, post: seq<Piece>,
                                      m: Marker)
    requires Spaced(pre + ([Plain(before + "@" + query + after)] + post))
    ensures Chips(WithChip(pre, before, m, after, post)) == (Chips(pre) + Chips(post)) + [m]
            <==> forall x :: x in Chips(post) ==> x == m
  {
    WithChipSpaced(pre, before, query, after, post, m);
    RotationInside(Chips(pre), Chips(post), m);
  }

  /** What is then sent: every link is lost as soon as one later chip has another name, and if the names agree but
      the mentions differ, the links are attached to the wrong ones. */
  lemma SentAfterInsertion(pre: seq<Piece>, before: string, query: string, after: string, post: seq<Piece>, m: Marker)
    requires Spaced(pre + ([Plain(before + "@" + query + after)] + post))
    requires SingleWords(Chips(pre)) && SingleWords(Chips(post)) && NoSpace(m.name)
    ensures var doc := WithChip(pre, before, m, after, post);
            var ms := (Chips(pre) + Chips(post)) + [m];
            && |ms| == |Chips(doc)|
            && Serialize(Render(doc), ms)
               == if forall x :: x in Chips(post) ==> x.name == m.name then Linked(doc, ms) else Strip(Render(doc))
  {
    var doc := WithChip(pre, before, m, after, post);
    var p, q := Chips(pre), Chips(post);
    WithChipSpaced(pre, before, query, after, post, m);
    forall x | x in Chips(doc) ensures NoSpace(x.name) {
      assert x in p || x == m || x in q;
    }
    SerializeDocument(doc, (p + q) + [m]);
    RotatedNames(p, q, m);
  }

  lemma NamesAppend(a: seq<Marker>, b: seq<Marker>)
    ensures Names(a + b) == Names(a) + Names(b)
  {
  }

  lemma RotatedNames(p: seq<Marker>, q: seq<Marker>, m: Marker)
    ensures Names((p + q) + [m]) == Names(p + [m] + q) <==> forall x :: x in q ==> x.name == m.name
  {
    NamesOf(p, q, m);
    RotationInside(Names(p), Names(q), m.name);
    AllNamed(q, m.name);
  }

  lemma NamesOf(p: seq<Marker>, q: seq<Marker>, m: Marker)
    ensures Names((p + q) + [m]) == (Names(p) + Names(q)) + [m.name]
    ensures Names(p + [m] + q) == (Names(p) + [m.name]) + Names(q)
  {
    NamesAppend(p + q, [m]);
    NamesAppend(p, q);
    NamesAppend(p + [m], q);
    NamesAppend(p, [m]);
    assert Names([m]) == [m.name];
  }

  lemma AllNamed(q: seq<Marker>, name: string)
    ensures (forall n :: n in Names(q) ==> n == name) <==> (forall x :: x in q ==> x.name == name)
  {
    var ns := Names(q);
    if forall n :: n in ns ==> n == name {
      forall x | x in q ensures x.name == name {
        var i :| 0 <= i < |q| && q[i] == x;
        assert ns[i] in ns;
      }
    }
  }

  lemma PickedText(ann: Marker, bob: Marker, after: string)
    requires SENTINEL !in ann.name && SENTINEL !in bob.name && SENTINEL !in after
    ensures Strip(Render(WithChip([], "", ann, after, [Chip(bob)])))
         == "@" + ann.name + (" " + after + ("@" + bob.name))
  {
    var last := [Chip(bob)];
    var gap := [Plain(" " + after)] + last;
    var chip := [Chip(ann)] + gap;
    assert WithChip([], "", ann, after, last) == [Plain("")] + chip;
    OneChip(bob);
    StripPlain(" " + after, last);
    StripChip(ann, gap);
    StripPlain("", chip);
  }

  /** Inputs on which both links are lost: "@" and a query typed in front of a mention of Bob, and Ann picked for it. */
  lemma EarlierPickFallsBack(query: string, after: string, ann: Marker, bob: Marker)
    requires NoSpace(ann.name) && NoSpace(bob.name) && ann.name != bob.name
    requires SENTINEL !in query && SENTINEL !in after && SENTINEL !in ann.name && SENTINEL !in bob.name
    ensures Serialize(Render(WithChip([], "", ann, after, [Chip(bob)])), [bob] + [ann])
         == "@" + ann.name + (" " + after + ("@" + bob.name))
  {
    var post := [Chip(bob)];
    OneChip(bob);
    SpacedFirst(Plain("" + "@" + query + after), post);
    assert [] + ([Plain("" + "@" + query + after)] + post) == [Plain("" + "@" + query + after)] + post;
    assert Chips([]) == [] && [] + [bob] == [bob] && bob in [bob];
    SentAfterInsertion([], "", query, after, post, ann);
    PickedText(ann, bob, after);
  }
}
