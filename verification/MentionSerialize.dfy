/** Turning sentinel-marked mentions into links, and the text handling around it. */
module MentionSerialize {
  import opened Basics

  const SENTINEL: char := '\U{2063}'

  datatype MentionType = Member | Agent | Squad | All | Issue

  datatype Marker = Marker(kind: MentionType, id: string, name: string)

  function KindName(k: MentionType): string {
    match k
    case Member => "member"
    case Agent => "agent"
    case Squad => "squad"
    case All => "all"
    case Issue => "issue"
  }

  /** `[@name](mention://type/id)`; issues drop the `@`. */
  function Link(m: Marker): string {
    "[" + (if m.kind == Issue then m.name else "@" + m.name) + "](mention://" + KindName(m.kind) + "/" + m.id + ")"
  }

  function Strip(t: string): (r: string)
    ensures SENTINEL !in t ==> r == t
    ensures SENTINEL !in r
  {
    if t == "" then ""
    else if t[0] == SENTINEL then Strip(t[1..])
    else [t[0]] + Strip(t[1..])
  }

  /** The characters up to the next white space. */
  function Word(t: string): (r: string)
    ensures |r| <= |t| && r == t[..|r|] && NoSpace(r)
    ensures |r| < |t| ==> IsSpace(t[|r|])
  {
    if t == "" || IsSpace(t[0]) then "" else [t[0]] + Word(t[1..])
  }

  function Before(prefix: string, rest: Option<string>): Option<string> {
    if rest.Some? then Some(prefix + rest.value) else None
  }

  /** The walk over the text: none when a marked word does not match its marker, or markers are left over. */
  function Scan(t: string, markers: seq<Marker>): Option<string>
    decreases |t|
  {
    if t == "" then
      if markers == [] then Some("") else None
    else if t[0] != SENTINEL then Before([t[0]], Scan(t[1..], markers))
    else if |t| < 2 || t[1] != '@' then Scan(t[1..], markers)
    else
      var word := Word(t[2..]);
      if markers == [] || markers[0].name != word then None
      else Before(Link(markers[0]), Scan(t[2 + |word|..], markers[1..]))
  }

  function Serialize(text: string, markers: seq<Marker>): string {
    if SENTINEL !in text then text
    else if Scan(text, markers).Some? then Scan(text, markers).value
    else Strip(text)
  }

  // ----- the loops

  lemma {:induction false} ScanSkips(t: string, k: nat, markers: seq<Marker>)
    requires k <= |t| && SENTINEL !in t[..k]
    ensures Scan(t, markers) == Before(t[..k], Scan(t[k..], markers))
  {
    if k == 0 {
      assert t[0..] == t && t[..0] == "";
      BeforeNothing(Scan(t, markers));
    } else {
      assert t[0] == t[..k][0];
      assert t[1..][..k - 1] == t[..k][1..];
      assert forall c :: c in t[..k][1..] ==> c in t[..k];
      ScanSkips(t[1..], k - 1, markers);
      assert t[1..][k - 1..] == t[k..];
      assert [t[0]] + t[1..][..k - 1] == t[..k];
      BeforeBefore([t[0]], t[1..][..k - 1], Scan(t[k..], markers));
    }
  }

  lemma BeforeNothing(r: Option<string>)
    ensures Before("", r) == r
  {
    if r.Some? {
      assert "" + r.value == r.value;
    }
  }

  /** Plain text up to `at`, appended to what was written so far. */
  lemma ScanPlain(done: string, text: string, cursor: nat, at: nat, ms: seq<Marker>)
    requires cursor <= at <= |text| && SENTINEL !in text[cursor..at]
    ensures Before(done, Scan(text[cursor..], ms)) == Before(done + text[cursor..at], Scan(text[at..], ms))
  {
    var rest, k := text[cursor..], at - cursor;
    assert rest[..k] == text[cursor..at] && rest[k..] == text[at..];
    ScanSkips(rest, k, ms);
    BeforeBefore(done, rest[..k], Scan(text[at..], ms));
  }

  lemma ScanMention(text: string, at: nat, wordEnd: nat, ms: seq<Marker>)
    requires at + 1 < |text| && text[at] == SENTINEL && text[at + 1] == '@'
    requires at + 2 <= wordEnd <= |text| && wordEnd == at + 2 + |Word(text[at + 2..])|
    ensures Scan(text[at..], ms)
            == if ms == [] || ms[0].name != text[at + 2..wordEnd] then None
               else Before(Link(ms[0]), Scan(text[wordEnd..], ms[1..]))
  {
    var t := text[at..];
    var word := Word(text[at + 2..]);
    assert t[2..] == text[at + 2..] && t[2 + |word|..] == text[wordEnd..];
    assert text[at + 2..][..|word|] == text[at + 2..wordEnd];
  }

  lemma BeforeBefore(a: string, b: string, r: Option<string>)
    ensures Before(a, Before(b, r)) == Before(a + b, r)
  {
    if r.Some? {
      ConcatAssociates(a, b, r.value);
    }
  }

  method IndexOf(text: string, c: char, from: nat) returns (at: int)
    requires from <= |text|
    ensures at == -1 ==> c !in text[from..]
    ensures at != -1 ==> from <= at < |text| && text[at] == c && c !in text[from..at]
  {
    at := from;
    while at < |text|
      invariant from <= at <= |text| && c !in text[from..at]
    {
      if text[at] == c {
        return;
      }
      at := at + 1;
    }
    at := -1;
  }

  function Join(parts: seq<string>): string {
    if parts == [] then "" else Join(parts[..|parts| - 1]) + parts[|parts| - 1]
  }

  lemma JoinSnoc(parts: seq<string>, p: string)
    ensures Join(parts + [p]) == Join(parts) + p
  {
    assert (parts + [p])[..|parts|] == parts;
  }

  method WordEnd(text: string, from: nat) returns (wordEnd: nat)
    requires from <= |text|
    ensures wordEnd <= |text| && wordEnd == from + |Word(text[from..])|
  {
    wordEnd := from;
    while wordEnd < |text| && !IsSpace(text[wordEnd])
      invariant from <= wordEnd <= |text|
      invariant |Word(text[from..])| == wordEnd - from + |Word(text[wordEnd..])|
    {
      assert text[wordEnd..][1..] == text[wordEnd + 1..];
      wordEnd := wordEnd + 1;
    }
  }

  /** The word after a sentinel and `@`, and its link when the next marker bears that name. */
  method ReadMention(text: string, sentinelAt: nat, markers: seq<Marker>, markerIndex: nat)
    returns (link: Option<string>, wordEnd: nat)
    requires sentinelAt + 1 < |text| && text[sentinelAt] == SENTINEL && text[sentinelAt + 1] == '@'
    requires markerIndex <= |markers|
    ensures sentinelAt + 2 <= wordEnd <= |text|
    ensures link.Some? ==> markerIndex < |markers|
    ensures Scan(text[sentinelAt..], markers[markerIndex..])
            == if link.Some? then Before(link.value, Scan(text[wordEnd..], markers[markerIndex + 1..])) else None
  {
    wordEnd := WordEnd(text, sentinelAt + 2);
    var word := text[sentinelAt + 2..wordEnd];
    ScanMention(text, sentinelAt, wordEnd, markers[markerIndex..]);
    if markerIndex >= |markers| || markers[markerIndex].name != word {
      return None, wordEnd;
    }
    assert markers[markerIndex..][1..] == markers[markerIndex + 1..];
    link := Some(Link(markers[markerIndex]));
  }

  method SerializeMentions(text: string, markers: seq<Marker>) returns (r: string)
    ensures r == Serialize(text, markers)
  {
    if SENTINEL !in text {
      return text;
    }
    var out: seq<string> := [];
    var cursor, markerIndex, abort := 0, 0, false;
    assert text[0..] == text && markers[0..] == markers;
    BeforeNothing(Scan(text, markers));
    while cursor < |text|
      invariant cursor <= |text| && markerIndex <= |markers|
      invariant !abort
      invariant Scan(text, markers) == Before(Join(out), Scan(text[cursor..], markers[markerIndex..]))
      decreases |text| - cursor
    {
      var sentinelAt := IndexOf(text, SENTINEL, cursor);
      ghost var done, ms := Join(out), markers[markerIndex..];
      if sentinelAt == -1 {
        assert text[cursor..|text|] == text[cursor..] && text[|text|..] == "";
        ScanPlain(done, text, cursor, |text|, ms);
        JoinSnoc(out, text[cursor..]);
        out := out + [text[cursor..]];
        cursor := |text|;
        break;
      }
      ScanPlain(done, text, cursor, sentinelAt, ms);
      JoinSnoc(out, text[cursor..sentinelAt]);
      out := out + [text[cursor..sentinelAt]];
      if sentinelAt + 1 >= |text| || text[sentinelAt + 1] != '@' {
        cursor := sentinelAt + 1;
        continue;
      }
      var link, wordEnd := ReadMention(text, sentinelAt, markers, markerIndex);
      if link.None? {
        abort := true;
        break;
      }
      BeforeBefore(Join(out), link.value, Scan(text[wordEnd..], markers[markerIndex + 1..]));
      JoinSnoc(out, link.value);
      out := out + [link.value];
      markerIndex := markerIndex + 1;
      cursor := wordEnd;
    }
    assert text[|text|..] == "";
    if abort || markerIndex != |markers| {
      return Strip(text);
    }
    return Join(out);
  }
}
