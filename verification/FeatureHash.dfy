/** Deterministic rollout buckets: the signed 32-bit loop, and the FNV-1a hash it must equal. */
module FeatureHash {
  import opened Basics

  const WORD: nat := 0x1_0000_0000
  const OFFSET_BASIS: nat := 0x811c9dc5
  const PRIME: nat := 0x01000193

  type Byte = b: nat | b < 256

  // ----- exclusive or on naturals, bit by bit

  function Xor(a: nat, b: nat): nat {
    if a == 0 && b == 0 then 0
    else 2 * Xor(a / 2, b / 2) + (if a % 2 != b % 2 then 1 else 0)
  }

  function Bit(a: nat, k: nat): nat {
    if k == 0 then a % 2 else Bit(a / 2, k - 1)
  }

  lemma {:induction false} XorBits(a: nat, b: nat, k: nat)
    ensures Bit(Xor(a, b), k) == if Bit(a, k) != Bit(b, k) then 1 else 0
    decreases k
  {
    var x := Xor(a, b);
    assert x / 2 == Xor(a / 2, b / 2) && x % 2 == if a % 2 != b % 2 then 1 else 0;
    if k > 0 {
      XorBits(a / 2, b / 2, k - 1);
    }
  }

  lemma {:induction false} XorTwice(a: nat, b: nat)
    ensures Xor(Xor(a, b), b) == a
  {
    if a != 0 || b != 0 {
      XorTwice(a / 2, b / 2);
      var x := Xor(a, b);
      assert x / 2 == Xor(a / 2, b / 2) && x % 2 == if a % 2 != b % 2 then 1 else 0;
    }
  }

  lemma {:induction false} XorFits(a: nat, b: nat, k: nat)
    requires a < Pow2(k) && b < Pow2(k)
    ensures Xor(a, b) < Pow2(k)
    decreases k
  {
    if k > 0 {
      XorFits(a / 2, b / 2, k - 1);
    }
  }

  lemma WordIsPow2()
    ensures Pow2(32) == WORD
  {
    assert Pow2(8) == 256;
    assert Pow2(16) == 0x1_0000;
    assert Pow2(24) == 0x100_0000;
  }

  lemma XorInWord(a: nat, b: nat)
    requires a < WORD && b < WORD
    ensures Xor(a, b) < WORD
  {
    WordIsPow2();
    XorFits(a, b, 32);
  }

  // ----- JavaScript's 32-bit operators on mathematical integers

  function ToUint32(x: int): nat {
    x % WORD
  }

  function ToInt32(x: int): int {
    if x % WORD >= WORD / 2 then x % WORD - WORD else x % WORD
  }

  function JsXor(a: int, b: int): int {
    ToInt32(Xor(ToUint32(a), ToUint32(b)))
  }

  function Imul(a: int, b: int): int {
    ToInt32(ToUint32(a) * ToUint32(b))
  }

  // ----- FNV-1a, draft-eastlake-fnv, section 2

  function Step(h: nat, b: Byte): nat {
    (Xor(h, b) * PRIME) % WORD
  }

  function Run(h: nat, bytes: seq<Byte>): nat {
    if bytes == [] then h else Step(Run(h, bytes[..|bytes| - 1]), bytes[|bytes| - 1])
  }

  function Fnv1a(bytes: seq<Byte>): nat {
    Run(OFFSET_BASIS, bytes)
  }

  /** The parts, with one zero byte between each two. */
  function Feed(parts: seq<seq<Byte>>): seq<Byte> {
    if parts == [] then []
    else if |parts| == 1 then parts[0]
    else Feed(parts[..|parts| - 1]) + [0] + parts[|parts| - 1]
  }

  lemma WordRoundTrip(v: nat)
    requires v < WORD
    ensures ToUint32(v) == v && ToUint32(ToInt32(v)) == v
  {
  }

  lemma SignedXor(x: int, b: nat)
    requires b < WORD
    ensures ToUint32(JsXor(x, b)) == Xor(ToUint32(x), b)
  {
    XorInWord(ToUint32(x), b);
    WordRoundTrip(b);
    WordRoundTrip(Xor(ToUint32(x), b));
  }

  lemma SignedStep(hash: int, b: Byte)
    ensures ToUint32(Imul(JsXor(hash, b), PRIME)) == Step(ToUint32(hash), b)
  {
    SignedXor(hash, b);
    WordRoundTrip(PRIME);
  }

  lemma RunAppend(h: nat, bytes: seq<Byte>, b: Byte)
    ensures Run(h, bytes + [b]) == Step(Run(h, bytes), b)
  {
    assert (bytes + [b])[..|bytes|] == bytes;
  }

  lemma FeedAppend(parts: seq<seq<Byte>>, p: nat)
    requires p < |parts|
    ensures Feed(parts[..p + 1]) == (if p == 0 then [] else Feed(parts[..p]) + [0]) + parts[p]
  {
    assert parts[..p + 1][..p] == parts[..p];
  }

  /** The inner loop: signed exclusive or and `Math.imul`, byte by byte. */
  method HashBytes(start: int, bytes: seq<Byte>, ghost fed: seq<Byte>) returns (hash: int)
    requires ToUint32(start) == Fnv1a(fed)
    ensures ToUint32(hash) == Fnv1a(fed + bytes)
  {
    hash := start;
    assert fed + bytes[..0] == fed;
    for i := 0 to |bytes|
      invariant ToUint32(hash) == Fnv1a(fed + bytes[..i])
    {
      SignedStep(hash, bytes[i]);
      RunAppend(OFFSET_BASIS, fed + bytes[..i], bytes[i]);
      assert fed + bytes[..i + 1] == fed + bytes[..i] + [bytes[i]];
      hash := Imul(JsXor(hash, bytes[i]), PRIME);
    }
    assert bytes[..|bytes|] == bytes;
  }

  /** The signed loop with a final unsigned shift computes unsigned FNV-1a. */
  method HashParts(parts: seq<seq<Byte>>) returns (r: nat)
    ensures r == Fnv1a(Feed(parts)) && r < WORD
  {
    var hash: int := OFFSET_BASIS;
    for p := 0 to |parts|
      invariant ToUint32(hash) == Fnv1a(Feed(parts[..p]))
    {
      ghost var fed := Feed(parts[..p]);
      FeedAppend(parts, p);
      if p > 0 {
        SignedStep(hash, 0);
        RunAppend(OFFSET_BASIS, fed, 0);
        fed := fed + [0];
        hash := Imul(JsXor(hash, 0), PRIME);
      }
      assert Feed(parts[..p + 1]) == fed + parts[p];
      hash := HashBytes(hash, parts[p], fed);
    }
    assert parts[..|parts|] == parts;
    r := ToUint32(hash);
  }

  // ----- each step loses nothing

  /** The prime's inverse modulo 2^32; it has one because it is odd. */
  const INVERSE: nat := 0x359c449b

  function StepBack(h: nat, b: Byte): nat {
    Xor((h * INVERSE) % WORD, b)
  }

  lemma MulThenBack(x: nat, p: nat, q: nat)
    requires x < WORD && (p * q) % WORD == 1
    ensures (((x * p) % WORD) * q) % WORD == x
  {
    var k, c := (x * p) / WORD, (p * q) / WORD;
    assert (x * p) % WORD == x * p - WORD * k;
    assert ((x * p) % WORD) * q == x + WORD * (x * c - k * q) by {
      assert (x * p - WORD * k) * q == x * (p * q) - WORD * (k * q);
      assert p * q == 1 + WORD * c;
      assert x * (1 + WORD * c) == x + WORD * (x * c);
      assert WORD * (x * c) - WORD * (k * q) == WORD * (x * c - k * q);
    }
    Residue(x, x * c - k * q);
  }

  lemma Residue(x: nat, m: int)
    requires x < WORD
    ensures (x + WORD * m) % WORD == x
  {
  }

  /** For each byte the step is a bijection on 32-bit states. */
  lemma StepIsBijection(h: nat, b: Byte)
    requires h < WORD
    ensures Step(h, b) < WORD && StepBack(h, b) < WORD
    ensures StepBack(Step(h, b), b) == h && Step(StepBack(h, b), b) == h
  {
    XorInWord(h, b);
    MulThenBack(Xor(h, b), PRIME, INVERSE);
    XorTwice(h, b);
    var x := (h * INVERSE) % WORD;
    XorInWord(x, b);
    XorTwice(x, b);
    MulThenBack(h, INVERSE, PRIME);
  }

  /** So two prefixes that hash differently are never merged by a common suffix. */
  lemma {:induction false} SuffixKeepsDifference(g: nat, h: nat, suffix: seq<Byte>)
    requires g < WORD && h < WORD
    ensures Run(g, suffix) < WORD && Run(h, suffix) < WORD
    ensures Run(g, suffix) == Run(h, suffix) <==> g == h
  {
    if suffix != [] {
      var init, last := suffix[..|suffix| - 1], suffix[|suffix| - 1];
      SuffixKeepsDifference(g, h, init);
      StepIsBijection(Run(g, init), last);
      StepIsBijection(Run(h, init), last);
    }
  }

  // ----- what the separator buys

  function Fed(key: seq<Byte>, id: seq<Byte>): seq<Byte> {
    key + [0] + id
  }

  lemma FedIsFeed(key: seq<Byte>, id: seq<Byte>)
    ensures Feed([key, id]) == Fed(key, id)
  {
    assert [key, id][..1] == [key];
  }

  /** Two pairs feed the hash the same bytes exactly when they are equal, or one key continues the other past a
      zero byte and the identifiers make up the difference. */
  lemma FedAgreesExactly(k1: seq<Byte>, i1: seq<Byte>, k2: seq<Byte>, i2: seq<Byte>)
    requires |k1| <= |k2|
    ensures Fed(k1, i1) == Fed(k2, i2) <==>
            (k1 == k2 && i1 == i2)
            || (|k1| < |k2| && k2[..|k1|] == k1 && k2[|k1|] == 0 && i1 == k2[|k1| + 1..] + [0] + i2)
  {
    var f1, f2 := Fed(k1, i1), Fed(k2, i2);
    if f1 == f2 {
      assert f1[..|k1|] == k1 && f2[..|k1|] == k2[..|k1|];
      assert f1[|k1| + 1..] == i1;
      if |k1| == |k2| {
        assert f2[|k2| + 1..] == i2;
      } else {
        assert f1[|k1|] == 0 && f2[|k1|] == k2[|k1|];
        assert f2[|k1| + 1..] == k2[|k1| + 1..] + [0] + i2;
      }
    }
  }

  /** Keys without a zero byte: the bytes fed determine the pair. */
  lemma FedDetermines(k1: seq<Byte>, i1: seq<Byte>, k2: seq<Byte>, i2: seq<Byte>)
    requires 0 !in k1 && 0 !in k2 && Fed(k1, i1) == Fed(k2, i2)
    ensures k1 == k2 && i1 == i2
  {
    if |k1| <= |k2| {
      FedAgreesExactly(k1, i1, k2, i2);
    } else {
      FedAgreesExactly(k2, i2, k1, i1);
    }
  }

  // ----- text

  /** UTF-8, RFC 3629 section 3. */
  function EncodeChar(c: char): seq<Byte> {
    var u := c as int;
    if u < 0x80 then [u]
    else if u < 0x800 then [0xC0 + u / 0x40, 0x80 + u % 0x40]
    else if u < 0x1_0000 then [0xE0 + u / 0x1000, 0x80 + u / 0x40 % 0x40, 0x80 + u % 0x40]
    else [0xF0 + u / 0x4_0000, 0x80 + u / 0x1000 % 0x40, 0x80 + u / 0x40 % 0x40, 0x80 + u % 0x40]
  }

  function Utf8(s: string): seq<Byte> {
    if s == "" then [] else EncodeChar(s[0]) + Utf8(s[1..])
  }

  /** The value of the byte at k, above a marker; zero past the end. */
  function Payload(bytes: seq<Byte>, k: nat, marker: int): int {
    if k < |bytes| then (bytes[k] as int) - marker else 0
  }

  /** The code point a well-formed sequence starts with. */
  function Lead(bytes: seq<Byte>): int {
    var b := Payload(bytes, 0, 0);
    if b < 0x80 then b
    else if b < 0xE0 then (b - 0xC0) * 0x40 + Payload(bytes, 1, 0x80)
    else if b < 0xF0 then (b - 0xE0) * 0x1000 + Payload(bytes, 1, 0x80) * 0x40 + Payload(bytes, 2, 0x80)
    else
      (b - 0xF0) * 0x4_0000 + Payload(bytes, 1, 0x80) * 0x1000 + Payload(bytes, 2, 0x80) * 0x40
      + Payload(bytes, 3, 0x80)
  }

  lemma LeadOfEncoded(c: char, rest: seq<Byte>)
    ensures EncodeChar(c) != [] && Lead(EncodeChar(c) + rest) == c as int
  {
    var u := c as int;
    assert u / 0x1000 == (u / 0x40) / 0x40 && u / 0x4_0000 == ((u / 0x40) / 0x40) / 0x40;
  }

  lemma {:induction false} Utf8Injective(s: string, t: string)
    requires Utf8(s) == Utf8(t)
    ensures s == t
  {
    if s != "" {
      LeadOfEncoded(s[0], Utf8(s[1..]));
    }
    if t != "" {
      LeadOfEncoded(t[0], Utf8(t[1..]));
    }
    if s != "" && t != "" {
      assert s[0] as int == t[0] as int;
      var n := |EncodeChar(s[0])|;
      assert Utf8(s)[n..] == Utf8(s[1..]) && Utf8(t)[n..] == Utf8(t[1..]);
      Utf8Injective(s[1..], t[1..]);
      assert s == [s[0]] + s[1..] && t == [t[0]] + t[1..];
    }
  }

  lemma {:induction false} Utf8HasNoZero(s: string)
    requires forall i :: 0 <= i < |s| ==> s[i] as int != 0
    ensures 0 !in Utf8(s)
  {
    if s != "" {
      assert forall i :: 0 <= i < |s[1..]| ==> s[1..][i] == s[i + 1];
      Utf8HasNoZero(s[1..]);
    }
  }

  // ----- buckets

  function Bucket(key: string, identifier: string): nat {
    Fnv1a(Feed([Utf8(key), Utf8(identifier)])) % 100
  }

  method BucketFor(key: string, identifier: string) returns (bucket: nat)
    ensures bucket == Bucket(key, identifier) && bucket < 100
  {
    var hash := HashParts([Utf8(key), Utf8(identifier)]);
    bucket := hash % 100;
  }

  /** Flag keys without NUL: different (key, identifier) pairs never present the same bytes to the hash. */
  lemma PairsAreFedApart(k1: string, i1: string, k2: string, i2: string)
    requires forall i :: 0 <= i < |k1| ==> k1[i] as int != 0
    requires forall i :: 0 <= i < |k2| ==> k2[i] as int != 0
    requires Feed([Utf8(k1), Utf8(i1)]) == Feed([Utf8(k2), Utf8(i2)])
    ensures k1 == k2 && i1 == i2
  {
    FedIsFeed(Utf8(k1), Utf8(i1));
    FedIsFeed(Utf8(k2), Utf8(i2));
    Utf8HasNoZero(k1);
    Utf8HasNoZero(k2);
    FedDetermines(Utf8(k1), Utf8(i1), Utf8(k2), Utf8(i2));
    Utf8Injective(k1, k2);
    Utf8Injective(i1, i2);
  }

  predicate InPercent(key: string, identifier: string, percent: real) {
    if percent <= 0.0 then false
    else if percent >= 100.0 then true
    else Bucket(key, identifier) as real < percent
  }

  /** A rollout at p reaches exactly the identifiers whose bucket is below p, clamping or not; so raising p only
      adds identifiers, and each bucket joins at its own threshold. */
  lemma PercentIsThreshold(key: string, identifier: string, percent: real)
    ensures InPercent(key, identifier, percent) <==> Bucket(key, identifier) as real < percent
  {
    assert Bucket(key, identifier) < 100;
  }

  /** What the server writes into the standard 32-bit FNV-1a: the key's bytes, one zero byte, the identifier's bytes. */
  lemma BucketIsServers(key: string, identifier: string)
    ensures Bucket(key, identifier) == Run(0x811c9dc5, Utf8(key) + [0] + Utf8(identifier)) % 100
    ensures forall h: nat, b: Byte :: Step(h, b) == (Xor(h, b) * 0x01000193) % 0x1_0000_0000
  {
    FedIsFeed(Utf8(key), Utf8(identifier));
  }

  /** Two, three and four bytes: e with acute, the euro sign, a unicorn face. */
  lemma Utf8Samples()
    ensures EncodeChar('\U{E9}') == [0xC3, 0xA9] && EncodeChar('\U{20AC}') == [0xE2, 0x82, 0xAC]
    ensures EncodeChar('\U{1F984}') == [0xF0, 0x9F, 0xA6, 0x84]
  {
  }
}
