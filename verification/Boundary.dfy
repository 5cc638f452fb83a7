/** Generating a multipart boundary that no body contains. */
module Boundary {
  import opened Wrappers
  import opened Text
  import opened Headers
  import opened MimeTree

  // ----- the seed --------------------------------------------------------------------------

  const FNV_OFFSET: bv64 := 0xcbf29ce484222325
  const FNV_PRIME: bv64 := 0x100000001b3

  function Mix(state: bv64, s: string): bv64
    decreases |s|
  {
    if s == "" then state else Mix(MixByte(state, s[0]), s[1..])
  }

  function MixByte(state: bv64, byte: char): bv64 {
    (state ^ (byte as int % 256) as bv64) * FNV_PRIME
  }

  function MixHeaders(state: bv64, hs: seq<Header>): bv64
    decreases |hs|
  {
    if hs == [] then state else MixHeaders(Mix(state, hs[0].name + hs[0].value), hs[1..])
  }

  /** `boundary_seed`: headers, then the body, then the parts in order. */
  function Seed(m: Message, state: bv64): bv64
    decreases m, 0
  {
    var s := MixHeaders(state, m.headers);
    SeedAll(m.parts, if m.body.Some? then Mix(s, m.body.value.Content()) else s)
  }

  function SeedAll(parts: seq<Message>, state: bv64): bv64
    decreases parts
  {
    if parts == [] then state else SeedAll(parts[1..], Seed(parts[0], state))
  }

  method MixBytes(state: bv64, s: string) returns (r: bv64)
    ensures r == Mix(state, s)
  {
    r := state;
    assert s[0..] == s;
    for k := 0 to |s|
      invariant Mix(r, s[k..]) == Mix(state, s)
    {
      assert s[k..][1..] == s[k + 1..];
      r := MixByte(r, s[k]);
    }
  }

  method BoundarySeed(m: Message, state: bv64) returns (r: bv64)
    ensures r == Seed(m, state)
    decreases m
  {
    r := state;
    assert m.headers[0..] == m.headers;
    for k := 0 to |m.headers|
      invariant MixHeaders(r, m.headers[k..]) == MixHeaders(state, m.headers)
    {
      assert m.headers[k..][1..] == m.headers[k + 1..];
      r := MixBytes(r, m.headers[k].name + m.headers[k].value);
    }
    if m.body.Some? {
      r := MixBytes(r, m.body.value.Content());
    }
    assert m.parts[0..] == m.parts;
    for k := 0 to |m.parts|
      invariant SeedAll(m.parts[k..], r) == Seed(m, state)
    {
      assert m.parts[k..][1..] == m.parts[k + 1..];
      r := BoundarySeed(m.parts[k], r);
    }
  }

  // ----- what the seed depends on ----------------------------------------------------------

  /** Names and values of headers, run together. */
  function HeaderText(hs: seq<Header>): string {
    if hs == [] then "" else hs[0].name + hs[0].value + HeaderText(hs[1..])
  }

  /** All text of a tree, run together in the order in which it is written. */
  function TreeText(m: Message): string
    decreases m, 0
  {
    HeaderText(m.headers) + (if m.body.Some? then m.body.value.Content() else "") + AllText(m.parts)
  }

  function AllText(parts: seq<Message>): string
    decreases parts
  {
    if parts == [] then "" else TreeText(parts[0]) + AllText(parts[1..])
  }

  lemma {:induction false} MixAppend(state: bv64, a: string, b: string)
    ensures Mix(state, a + b) == Mix(Mix(state, a), b)
    decreases |a|
  {
    if a == "" {
      assert a + b == b;
    } else {
      MixAppend(MixByte(state, a[0]), a[1..], b);
      TailAppend(a, b);
    }
  }

  lemma {:induction false} HeadersMixed(state: bv64, hs: seq<Header>)
    ensures MixHeaders(state, hs) == Mix(state, HeaderText(hs))
    decreases |hs|
  {
    if hs != [] {
      HeadersMixed(Mix(state, hs[0].name + hs[0].value), hs[1..]);
      MixAppend(state, hs[0].name + hs[0].value, HeaderText(hs[1..]));
    }
  }

  /** The seed is the hash of the text of the tree, whatever its shape. */
  lemma {:induction false} SeedIsOfText(m: Message, state: bv64)
    ensures Seed(m, state) == Mix(state, TreeText(m))
    decreases m, 0
  {
    var head, body := HeaderText(m.headers), if m.body.Some? then m.body.value.Content() else "";
    HeadersMixed(state, m.headers);
    SeedAllIsOfText(m.parts, Mix(Mix(state, head), body));
    MixAppend(state, head, body);
    MixAppend(state, head + body, AllText(m.parts));
  }

  lemma {:induction false} SeedAllIsOfText(parts: seq<Message>, state: bv64)
    ensures SeedAll(parts, state) == Mix(state, AllText(parts))
    decreases parts
  {
    if parts != [] {
      SeedIsOfText(parts[0], state);
      SeedAllIsOfText(parts[1..], Seed(parts[0], state));
      MixAppend(state, TreeText(parts[0]), AllText(parts[1..]));
    }
  }

  /** A published test vector of FNV-1a: the hash of "a". */
  lemma KnownHash()
    ensures Mix(FNV_OFFSET, "a") == 0xaf63dc4c8601ec8c
  {
    assert "a"[1..] == "";
    assert ('a' as int % 256) as bv64 == 0x61;
  }

  lemma KnownFirst()
    ensures Mix(FNV_OFFSET, "f") == 0xaf63db4c8601ead9
  {
    assert "f"[1..] == "";
    assert ('f' as int % 256) as bv64 == 0x66;
  }

  lemma KnownNext()
    ensures Mix(0xaf63db4c8601ead9, "o") == 0x08985907b541d342
  {
    assert "o"[1..] == "";
    assert ('o' as int % 256) as bv64 == 0x6f;
  }

  /** Another: the hash of "fo". */
  lemma KnownHashOfTwo()
    ensures Mix(FNV_OFFSET, "fo") == 0x08985907b541d342
  {
    KnownFirst();
    KnownNext();
    MixAppend(FNV_OFFSET, "f", "o");
    assert "f" + "o" == "fo";
  }

  // ----- candidates ------------------------------------------------------------------------

  function LowerHex(n: nat): char
    requires n < 16
  {
    if n < 10 then (48 + n) as char else (87 + n) as char
  }

  function LowerHexValue(c: char): nat {
    if '0' <= c <= '9' then c as int - 48 else if 'a' <= c <= 'f' then c as int - 87 else 0
  }

  /** `{n:x}` */
  function HexDigits(n: nat): (r: string)
    ensures |r| >= 1
  {
    if n < 16 then [LowerHex(n)] else HexDigits(n / 16) + [LowerHex(n % 16)]
  }

  function Zeros(k: nat): string {
    if k == 0 then "" else "0" + Zeros(k - 1)
  }

  /** `{n:0width x}` */
  function PaddedHex(n: nat, width: nat): string {
    var d := HexDigits(n);
    if |d| >= width then d else Zeros(width - |d|) + d
  }

  predicate HexChar(c: char) {
    '0' <= c <= '9' || 'a' <= c <= 'f'
  }

  predicate AllHex(s: string) {
    forall i :: 0 <= i < |s| ==> HexChar(s[i])
  }

  /** The number that hexadecimal digits denote. */
  function HexNumber(s: string): nat {
    if s == "" then 0 else HexNumber(s[..|s| - 1]) * 16 + LowerHexValue(s[|s| - 1])
  }

  lemma {:induction false} DigitsDenote(n: nat)
    ensures HexNumber(HexDigits(n)) == n && AllHex(HexDigits(n))
  {
    if n >= 16 {
      DigitsDenote(n / 16);
      var d := HexDigits(n);
      assert d[..|d| - 1] == HexDigits(n / 16);
    } else {
      assert HexDigits(n)[..0] == "";
    }
  }

  lemma {:induction false} ZerosAreZero(k: nat)
    ensures |Zeros(k)| == k && HexNumber(Zeros(k)) == 0 && AllHex(Zeros(k))
  {
    if k > 0 {
      ZerosAreZero(k - 1);
      ZerosSnoc(k - 1);
      var z := Zeros(k);
      assert z[..|z| - 1] == Zeros(k - 1);
    }
  }

  lemma {:induction false} ZerosDenote(k: nat, d: string)
    ensures HexNumber(Zeros(k) + d) == HexNumber(d)
    ensures AllHex(d) ==> AllHex(Zeros(k) + d)
    ensures |Zeros(k)| == k
    decreases |d|
  {
    ZerosAreZero(k);
    if d == "" {
      assert Zeros(k) + d == Zeros(k);
    } else {
      var s, d' := Zeros(k) + d, d[..|d| - 1];
      assert s[..|s| - 1] == Zeros(k) + d' && s[|s| - 1] == d[|d| - 1];
      ZerosDenote(k, d');
    }
  }

  lemma {:induction false} ZerosSnoc(k: nat)
    ensures Zeros(k + 1) == Zeros(k) + "0"
  {
    if k > 0 {
      ZerosSnoc(k - 1);
      Assoc("0", Zeros(k - 1), "0");
    }
  }

  /** Padded numbers are hexadecimal and tell their number. */
  lemma PaddedDenotes(n: nat, width: nat)
    ensures HexNumber(PaddedHex(n, width)) == n && AllHex(PaddedHex(n, width))
    ensures |PaddedHex(n, width)| >= 1
  {
    DigitsDenote(n);
    var d := HexDigits(n);
    if |d| < width { ZerosDenote(width - |d|, d); }
  }

  function Prefix(seed: bv64): string {
    "mechanics-" + PaddedHex(seed as int, 16) + "-"
  }

  function Candidate(seed: bv64, attempt: nat): string {
    Prefix(seed) + PaddedHex(attempt, 4)
  }

  function Pow16(w: nat): nat {
    if w == 0 then 1 else 16 * Pow16(w - 1)
  }

  lemma {:induction false} DigitsFit(n: nat, width: nat)
    requires width >= 1 && n < Pow16(width)
    ensures |HexDigits(n)| <= width
    decreases width
  {
    if n >= 16 {
      assert width > 1 by { assert Pow16(1) == 16 * Pow16(0); }
      DigitsFit(n / 16, width - 1);
    }
  }

  lemma SeedFits(seed: bv64)
    ensures |PaddedHex(seed as int, 16)| == 16
  {
    assert Pow16(16) == 0x1_0000_0000_0000_0000 by {
      assert Pow16(4) == 0x1_0000 && Pow16(8) == 0x1_0000_0000 && Pow16(12) == 0x1_0000_0000_0000;
    }
    DigitsFit(seed as int, 16);
    ZerosDenote(16 - |HexDigits(seed as int)|, HexDigits(seed as int));
  }

  lemma AttemptFits(attempt: nat)
    ensures |PaddedHex(attempt, 4)| >= 4
  {
    if |HexDigits(attempt)| < 4 { ZerosDenote(4 - |HexDigits(attempt)|, HexDigits(attempt)); }
  }

  /** A candidate names its seed in sixteen hexadecimal digits and its attempt in four or more. */
  lemma CandidateShape(seed: bv64, attempt: nat) returns (hex: string, count: string)
    ensures Candidate(seed, attempt) == "mechanics-" + hex + "-" + count
    ensures |hex| == 16 && AllHex(hex) && HexNumber(hex) == seed as int
    ensures |count| >= 4 && AllHex(count) && HexNumber(count) == attempt
  {
    hex, count := PaddedHex(seed as int, 16), PaddedHex(attempt, 4);
    SeedFits(seed);
    AttemptFits(attempt);
    PaddedDenotes(seed as int, 16);
    PaddedDenotes(attempt, 4);
  }

  // ----- containment -----------------------------------------------------------------------

  /** `message_contains_boundary` */
  predicate MessageContains(m: Message, boundary: string) {
    || (m.body.Some? && Contains(m.body.value.Content(), boundary))
    || exists i :: 0 <= i < |m.parts| && MessageContains(m.parts[i], boundary)
  }

  /** The attempts below `bound` whose candidates stand in `text`. */
  ghost function Hits(text: string, seed: bv64, bound: nat): set<nat> {
    set k: nat | k < bound && Contains(text, Candidate(seed, k))
  }

  predicate EndsWith(s: string, p: string) {
    |p| <= |s| && s[|s| - |p|..] == p
  }

  /** Two candidates that end at the same place are the same attempt. */
  lemma SameEndSameAttempt(text: string, seed: bv64, j: nat, k: nat)
    requires EndsWith(text, Candidate(seed, j)) && EndsWith(text, Candidate(seed, k))
    ensures j == k
  {
    PaddedDenotes(j, 4);
    PaddedDenotes(k, 4);
    if |PaddedHex(j, 4)| <= |PaddedHex(k, 4)| {
      SameEnd(text, Prefix(seed), PaddedHex(j, 4), PaddedHex(k, 4));
    } else {
      SameEnd(text, Prefix(seed), PaddedHex(k, 4), PaddedHex(j, 4));
    }
  }

  lemma SameEnd(text: string, prefix: string, short: string, long: string)
    requires EndsWith(text, prefix + short) && EndsWith(text, prefix + long)
    requires prefix != "" && prefix[|prefix| - 1] == '-' && AllHex(long) && |short| <= |long|
    ensures short == long
  {
    var n := |text|;
    assert text[n - |short|..] == short by {
      assert text[n - |prefix + short|..][|prefix|..] == short;
    }
    assert text[n - |long|..] == long by {
      assert text[n - |prefix + long|..][|prefix|..] == long;
    }
    assert text[n - |short| - 1] == '-' by {
      assert text[n - |prefix + short|..][|prefix| - 1] == (prefix + short)[|prefix| - 1];
    }
  }

  lemma SubsetSize<T>(a: set<T>, b: set<T>)
    requires a <= b
    ensures |a| <= |b|
  {
    assert b == a + (b - a);
  }

  lemma AtMostOne(s: set<nat>)
    requires forall j, k :: j in s && k in s ==> j == k
    ensures |s| <= 1
  {
    if s != {} {
      var x :| x in s;
      assert s == {x};
    }
  }

  lemma ContainsLast(text: string, p: string)
    requires text != "" && Contains(text, p)
    ensures Contains(text[..|text| - 1], p) || EndsWith(text, p)
  {
    var i: nat :| i + |p| <= |text| && OccursAt(text, p, i);
    if i + |p| < |text| {
      assert text[..|text| - 1][i..i + |p|] == text[i..i + |p|];
      assert OccursAt(text[..|text| - 1], p, i);
    } else {
      assert text[|text| - |p|..] == text[i..i + |p|];
    }
  }

  /** A text holds no more candidates than characters: each ends somewhere, and no two at the same place. */
  lemma {:induction false} HitsBound(text: string, seed: bv64, bound: nat)
    ensures |Hits(text, seed, bound)| <= |text|
    decreases |text|
  {
    if text == "" {
      assert Hits(text, seed, bound) == {};
    } else {
      var rest := text[..|text| - 1];
      HitsBound(rest, seed, bound);
      var enders := set k: nat | k < bound && EndsWith(text, Candidate(seed, k));
      forall j, k | j in enders && k in enders ensures j == k {
        SameEndSameAttempt(text, seed, j, k);
      }
      AtMostOne(enders);
      forall k | k in Hits(text, seed, bound) ensures k in Hits(rest, seed, bound) + enders {
        ContainsLast(text, Candidate(seed, k));
      }
      SubsetSize(Hits(text, seed, bound), Hits(rest, seed, bound) + enders);
    }
  }

  ghost function TreeHits(m: Message, seed: bv64, bound: nat): set<nat> {
    set k: nat | k < bound && MessageContains(m, Candidate(seed, k))
  }

  ghost function ForestHits(parts: seq<Message>, seed: bv64, bound: nat): set<nat> {
    set k: nat | k < bound && exists i :: 0 <= i < |parts| && MessageContains(parts[i], Candidate(seed, k))
  }

  lemma {:induction false} TreeHitsBound(m: Message, seed: bv64, bound: nat)
    ensures |TreeHits(m, seed, bound)| <= Size(m)
    decreases m, 0
  {
    ForestHitsBound(m.parts, seed, bound);
    var own := if m.body.Some? then Hits(m.body.value.Content(), seed, bound) else {};
    if m.body.Some? { HitsBound(m.body.value.Content(), seed, bound); }
    SubsetSize(TreeHits(m, seed, bound), own + ForestHits(m.parts, seed, bound));
  }

  lemma {:induction false} ForestHitsBound(parts: seq<Message>, seed: bv64, bound: nat)
    ensures |ForestHits(parts, seed, bound)| <= SizeAll(parts)
    decreases parts
  {
    if parts == [] {
      assert ForestHits(parts, seed, bound) == {};
    } else {
      TreeHitsBound(parts[0], seed, bound);
      ForestHitsBound(parts[1..], seed, bound);
      forall k | k in ForestHits(parts, seed, bound)
        ensures k in TreeHits(parts[0], seed, bound) + ForestHits(parts[1..], seed, bound)
      {
        var i :| 0 <= i < |parts| && MessageContains(parts[i], Candidate(seed, k));
        if i > 0 { assert parts[i] == parts[1..][i - 1]; }
      }
      SubsetSize(ForestHits(parts, seed, bound), TreeHits(parts[0], seed, bound) + ForestHits(parts[1..], seed, bound));
    }
  }

  /** If every attempt below `bound` is taken, the bodies hold at least `bound` bytes. */
  lemma TakenAttempts(m: Message, seed: bv64, bound: nat)
    requires forall k: nat :: k < bound ==> MessageContains(m, Candidate(seed, k))
    ensures bound <= Size(m)
  {
    TreeHitsBound(m, seed, bound);
    BelowSize(bound);
    SubsetSize(Below(bound), TreeHits(m, seed, bound));
  }

  ghost function Below(n: nat): set<nat> {
    if n == 0 then {} else Below(n - 1) + {n - 1}
  }

  lemma {:induction false} BelowSize(n: nat)
    ensures |Below(n)| == n && forall k :: k in Below(n) ==> k < n
  {
    if n > 0 { BelowSize(n - 1); }
  }

  // ----- generation ------------------------------------------------------------------------

  /** The first attempt from `attempt` on whose candidate no body contains. */
  function FirstFree(m: Message, seed: bv64, attempt: nat): (r: nat)
    requires forall k: nat :: k < attempt ==> MessageContains(m, Candidate(seed, k))
    ensures !MessageContains(m, Candidate(seed, r))
    ensures forall k: nat :: k < r ==> MessageContains(m, Candidate(seed, k))
    decreases Size(m) + 1 - attempt
  {
    if MessageContains(m, Candidate(seed, attempt)) then
      TakenAttempts(m, seed, attempt + 1);
      FirstFree(m, seed, attempt + 1)
    else attempt
  }

  function Generated(m: Message): string {
    var seed := Seed(m, FNV_OFFSET);
    Candidate(seed, FirstFree(m, seed, 0))
  }

  const U64_MAX: nat := 0xFFFF_FFFF_FFFF_FFFF

  function SaturatingSucc(n: nat): nat {
    if n >= U64_MAX then U64_MAX else n + 1
  }

  /**
   `generate_boundary`. The counter is a saturating `u64`, so the search ends because fewer than
   2^64 bytes of body can hold fewer than 2^64 candidates.
   */
  method GenerateBoundary(m: Message) returns (boundary: string)
    requires Size(m) < U64_MAX
    ensures boundary == Generated(m)
    ensures !MessageContains(m, boundary)
  {
    var seed := BoundarySeed(m, FNV_OFFSET);
    var attempt := 0;
    while true
      invariant attempt <= Size(m)
      invariant forall k: nat :: k < attempt ==> MessageContains(m, Candidate(seed, k))
      decreases Size(m) - attempt
    {
      boundary := Candidate(seed, attempt);
      if !MessageContains(m, boundary) {
        FirstIsUnique(m, seed, attempt);
        return;
      }
      TakenAttempts(m, seed, attempt + 1);
      attempt := SaturatingSucc(attempt);
    }
  }

  lemma FirstIsUnique(m: Message, seed: bv64, attempt: nat)
    requires forall k: nat :: k < attempt ==> MessageContains(m, Candidate(seed, k))
    requires !MessageContains(m, Candidate(seed, attempt))
    ensures FirstFree(m, seed, 0) == attempt
  {
  }
}
