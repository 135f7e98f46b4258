/** Keeping the first few of each exception per tab session, over storage that may fail at any moment. */
module ExceptionFuse {
  import opened Basics
  import opened FeatureHash

  const SAMPLE_LIMIT := 3
  const MAX_FINGERPRINTS := 50

  type Counts = map<string, nat>

  /** One exception: its fingerprint if there is one, and how session storage behaves while it is handled. */
  datatype Event = Event(fingerprint: Option<string>, available: bool, readable: bool, writable: bool)

  function CountIn(c: Counts, f: string): nat {
    if f in c then c[f] else 0
  }

  predicate Consulted(e: Event) {
    e.fingerprint.Some? && e.available && e.readable
  }

  predicate Drops(c: Counts, e: Event) {
    Consulted(e) && CountIn(c, e.fingerprint.value) >= SAMPLE_LIMIT
  }

  predicate Tracks(c: Counts, e: Event) {
    Consulted(e) && !Drops(c, e) && !(CountIn(c, e.fingerprint.value) == 0 && |c| >= MAX_FINGERPRINTS)
  }

  function After(c: Counts, e: Event): Counts {
    if Tracks(c, e) && e.writable then c[e.fingerprint.value := CountIn(c, e.fingerprint.value) + 1] else c
  }

  class SessionStorage {
    var counts: Counts

    constructor ()
      ensures counts == map[]
    {
      counts := map[];
    }

    method ShouldDropException(e: Event) returns (drop: bool)
      modifies this
      ensures drop == Drops(old(counts), e)
      ensures counts == After(old(counts), e)
    {
      if e.fingerprint.None? || !e.available || !e.readable {
        return false;
      }
      var fingerprint := e.fingerprint.value;
      var current := if fingerprint in counts then counts[fingerprint] else 0;
      if current >= SAMPLE_LIMIT {
        return true;
      }
      if current == 0 && |counts| >= MAX_FINGERPRINTS {
        return false;
      }
      if e.writable {
        counts := counts[fingerprint := current + 1];
      }
      return false;
    }
  }

  // ----- runs

  function Run(events: seq<Event>): Counts {
    if events == [] then map[] else After(Run(events[..|events| - 1]), events[|events| - 1])
  }

  /** Whether the event at i was dropped. */
  predicate DroppedAt(events: seq<Event>, i: nat)
    requires i < |events|
  {
    Drops(Run(events[..i]), events[i])
  }

  /** How many events carried the fingerprint. */
  function Seen(events: seq<Event>, f: string): nat {
    if events == [] then 0
    else Seen(events[..|events| - 1], f) + if events[|events| - 1].fingerprint == Some(f) then 1 else 0
  }

  /** How many of them were kept. */
  function Kept(events: seq<Event>, f: string): nat {
    if events == [] then 0
    else Kept(events[..|events| - 1], f)
         + if events[|events| - 1].fingerprint == Some(f)
              && !Drops(Run(events[..|events| - 1]), events[|events| - 1]) then 1 else 0
  }

  function Min(a: nat, b: nat): nat {
    if a < b then a else b
  }

  /** Whatever fails, the stored count of a fingerprint never exceeds what was kept of it, and storage is bounded. */
  lemma {:induction false} CountsNeverExceedKept(events: seq<Event>)
    ensures |Run(events)| <= MAX_FINGERPRINTS
    ensures forall f :: f in Run(events) ==> 1 <= Run(events)[f] <= SAMPLE_LIMIT && Run(events)[f] <= Kept(events, f)
  {
    if events != [] {
      var init, e := events[..|events| - 1], events[|events| - 1];
      CountsNeverExceedKept(init);
      var c := Run(init);
      if Tracks(c, e) && e.writable && e.fingerprint.value !in c {
        assert |After(c, e)| == |c| + 1;
      } else if Tracks(c, e) && e.writable {
        assert After(c, e).Keys == c.Keys;
        assert |After(c, e)| == |c|;
      }
    }
  }

  /** Fail open: a drop means that at least three earlier events of the same fingerprint were kept. */
  lemma DropMeansThreeKept(events: seq<Event>, i: nat)
    requires i < |events| && DroppedAt(events, i)
    ensures events[i].fingerprint.Some? && Kept(events[..i], events[i].fingerprint.value) >= SAMPLE_LIMIT
  {
    CountsNeverExceedKept(events[..i]);
  }

  /** So the first three of a fingerprint are always delivered. */
  lemma {:induction false} FirstThreeKept(events: seq<Event>, f: string)
    ensures Min(Seen(events, f), SAMPLE_LIMIT) <= Kept(events, f) <= Seen(events, f)
  {
    if events != [] {
      var n := |events| - 1;
      FirstThreeKept(events[..n], f);
      if DroppedAt(events, n) {
        DropMeansThreeKept(events, n);
      }
    }
  }

  ghost predicate Reliable(events: seq<Event>) {
    forall e :: e in events ==> e.available && e.readable && e.writable
  }

  /** With reliable storage: a tracked fingerprint is kept exactly min(n, 3) times, any other every time, and a
      fingerprint goes untracked only once fifty others are tracked. */
  lemma {:induction false} ReliableIsExact(events: seq<Event>, f: string)
    requires Reliable(events)
    ensures Kept(events, f) == if f in Run(events) then Min(Seen(events, f), SAMPLE_LIMIT) else Seen(events, f)
    ensures f in Run(events) ==> Run(events)[f] == Min(Seen(events, f), SAMPLE_LIMIT)
    ensures f !in Run(events) && Seen(events, f) > 0 ==> |Run(events)| == MAX_FINGERPRINTS
  {
    if events != [] {
      var init, e := events[..|events| - 1], events[|events| - 1];
      assert e in events && forall x :: x in init ==> x in events;
      ReliableIsExact(init, f);
      CountsNeverExceedKept(init);
      CountsNeverExceedKept(events);
      var c := Run(init);
      if Tracks(c, e) && e.fingerprint.value !in c {
        assert |After(c, e)| == |c| + 1;
      } else if Tracks(c, e) {
        assert After(c, e).Keys == c.Keys;
      }
    }
  }

  // ----- the fingerprint's hash

  /** A UTF-16 code unit. */
  type CodeUnit = c: nat | c < 0x1_0000

  /** djb2 with exclusive or, modulo 2^32. */
  function Djb2(codes: seq<CodeUnit>): nat {
    if codes == [] then 5381
    else Xor((Djb2(codes[..|codes| - 1]) * 33) % WORD, codes[|codes| - 1])
  }

  /** The signed shift to the left by five bits. */
  function ShiftLeft5(h: int): int {
    ToInt32(ToUint32(h) * 32)
  }

  /** A signed 32-bit value and its integer differ by whole words, and so do an integer and its unsigned value. */
  lemma WordsApart(x: int) returns (i: int, j: int)
    ensures ToInt32(x) == x + i * WORD && ToUint32(x) == x + j * WORD
  {
    j := -(x / WORD);
    i := if x % WORD >= WORD / 2 then j - 1 else j;
  }

  lemma AddWords(x: int, k: int)
    ensures (x + k * WORD) % WORD == x % WORD
  {
    var q := x / WORD;
    assert x + k * WORD == (q + k) * WORD + x % WORD;
    QuotientUnique(x + k * WORD, q + k, x % WORD);
  }

  lemma QuotientUnique(x: int, q: int, r: int)
    requires x == q * WORD + r && 0 <= r < WORD
    ensures x % WORD == r
  {
  }

  lemma ShiftAddIsTimes33(h: int)
    ensures ToUint32(ShiftLeft5(h) + h) == (ToUint32(h) * 33) % WORD
  {
    var u := ToUint32(h);
    var i, _ := WordsApart(u * 32);
    var _, j := WordsApart(h);
    assert ShiftLeft5(h) + h == u * 33 + (i - j) * WORD;
    AddWords(u * 33, i - j);
  }

  /** The loop mixes signed shifts, a sum that may leave the 32-bit range, and a signed exclusive or. */
  method Hash(codes: seq<CodeUnit>) returns (r: nat)
    ensures r == Djb2(codes) && r < WORD
  {
    var h := 5381;
    for i := 0 to |codes|
      invariant ToUint32(h) == Djb2(codes[..i])
    {
      assert codes[..i + 1][..i] == codes[..i];
      ShiftAddIsTimes33(h);
      SignedXor(ShiftLeft5(h) + h, codes[i]);
      h := JsXor(ShiftLeft5(h) + h, codes[i]);
    }
    assert codes[..|codes|] == codes;
    r := ToUint32(h);
  }
}
