/**
 Text as the source sees it. A Rust `String` is its UTF-8 bytes, so a string or byte vector is
 modelled as a Dafny `string` holding one char per byte (every char below 256), which lets literals
 read as in the source. `Utf8` is the type of the strings a Rust `String` can hold.
 */
module Text {
  import opened Wrappers

  predicate AllBytes(s: string) {
    forall i :: 0 <= i < |s| ==> s[i] as int < 256
  }

  /** A `Vec<u8>`. */
  type ByteString = s: string | AllBytes(s)

  predicate IsAscii(s: string) {
    forall i :: 0 <= i < |s| ==> s[i] as int < 128
  }

  // ----- sequences -------------------------------------------------------------------------

  lemma ConsAppend<T>(x: T, a: seq<T>, b: seq<T>)
    ensures [x] + (a + b) == [x] + a + b
  {
  }

  lemma TailAppend<T>(a: seq<T>, b: seq<T>)
    requires a != []
    ensures (a + b)[0] == a[0] && (a + b)[1..] == a[1..] + b
  {
  }

  lemma Assoc<T>(a: seq<T>, b: seq<T>, c: seq<T>)
    ensures a + (b + c) == a + b + c
  {
  }

  lemma MiddleMember<T>(a: seq<T>, b: seq<T>, c: seq<T>)
    ensures forall x :: x in b ==> x in a + b + c
  {
  }

  // ----- UTF-8 -----------------------------------------------------------------------------

  predicate Continuation(c: char) { 0x80 <= c as int <= 0xBF }

  /** The length of the well-formed UTF-8 sequence that starts `s` (RFC 3629, section 4), or 0. */
  function Utf8Head(s: string): (n: nat)
    ensures n <= |s|
  {
    if s == "" then 0
    else
      var b := s[0] as int;
      if b < 0x80 then 1
      else if 0xC2 <= b <= 0xDF then
        if |s| >= 2 && Continuation(s[1]) then 2 else 0
      else if 0xE0 <= b <= 0xEF then
        if |s| >= 3 && SecondOk(b, s[1] as int) && Continuation(s[2]) then 3 else 0
      else if 0xF0 <= b <= 0xF4 then
        if |s| >= 4 && SecondOk(b, s[1] as int) && Continuation(s[2]) && Continuation(s[3]) then 4 else 0
      else 0
  }

  /** The range of the second byte after the lead byte `b` of a three- or four-byte sequence. */
  predicate SecondOk(b: int, c: int) {
    if b == 0xE0 then 0xA0 <= c <= 0xBF
    else if b == 0xED then 0x80 <= c <= 0x9F
    else if b == 0xF0 then 0x90 <= c <= 0xBF
    else if b == 0xF4 then 0x80 <= c <= 0x8F
    else 0x80 <= c <= 0xBF
  }

  predicate ValidUtf8(s: string) {
    s == "" || (Utf8Head(s) > 0 && ValidUtf8(s[Utf8Head(s)..]))
  }

  type Utf8 = s: string | ValidUtf8(s)

  lemma {:induction false} Utf8IsBytes(s: Utf8)
    ensures AllBytes(s)
  {
    if s != "" {
      var n := Utf8Head(s);
      Utf8IsBytes(s[n..]);
      forall i | 0 <= i < |s| ensures s[i] as int < 256 {
        if i >= n { assert s[i] == s[n..][i - n]; }
      }
    }
  }

  lemma {:induction false} AsciiIsUtf8(s: string)
    requires IsAscii(s)
    ensures ValidUtf8(s)
  {
    if s != "" { AsciiIsUtf8(s[1..]); }
  }

  // ----- line endings ----------------------------------------------------------------------

  /** `text.replace("\r\n", "\n")` */
  function CollapseCrlf(s: string): string {
    if s == "" then ""
    else if |s| >= 2 && s[0] == '\r' && s[1] == '\n' then "\n" + CollapseCrlf(s[2..])
    else [s[0]] + CollapseCrlf(s[1..])
  }

  /** `text.replace('\r', "\n")` */
  function CrToLf(s: string): string {
    seq(|s|, i requires 0 <= i < |s| => if s[i] == '\r' then '\n' else s[i])
  }

  /** `text.replace('\n', "\r\n")` */
  function ExpandLf(s: string): string {
    if s == "" then ""
    else (if s[0] == '\n' then "\r\n" else [s[0]]) + ExpandLf(s[1..])
  }

  /** `normalize_raw_message` */
  function NormalizeRaw(s: string): string {
    CrToLf(CollapseCrlf(s))
  }

  /** `normalize_text_lines` */
  function NormalizeTextLines(s: string): string {
    ExpandLf(NormalizeRaw(s))
  }

  /** Joining `a` and `b` puts no CR of `a` before an LF of `b`. */
  predicate NoCrlfSeam(a: string, b: string) {
    a == "" || b == "" || a[|a| - 1] != '\r' || b[0] != '\n'
  }

  lemma {:induction false} CollapseAppend(a: string, b: string)
    requires NoCrlfSeam(a, b)
    ensures CollapseCrlf(a + b) == CollapseCrlf(a) + CollapseCrlf(b)
  {
    if a == "" {
      assert a + b == b;
    } else if |a| >= 2 && a[0] == '\r' && a[1] == '\n' {
      CollapseAppend(a[2..], b);
      assert (a + b)[2..] == a[2..] + b;
      ConsAppend('\n', CollapseCrlf(a[2..]), CollapseCrlf(b));
    } else {
      CollapseAppend(a[1..], b);
      TailAppend(a, b);
      ConsAppend(a[0], CollapseCrlf(a[1..]), CollapseCrlf(b));
    }
  }

  lemma NormalizeAppend(a: string, b: string)
    requires NoCrlfSeam(a, b)
    ensures NormalizeRaw(a + b) == NormalizeRaw(a) + NormalizeRaw(b)
  {
    CollapseAppend(a, b);
  }

  lemma {:induction false} CollapseIdentity(s: string)
    requires '\r' !in s
    ensures CollapseCrlf(s) == s
  {
    if s != "" { CollapseIdentity(s[1..]); }
  }

  lemma NormalizeIdentity(s: string)
    requires '\r' !in s
    ensures NormalizeRaw(s) == s
  {
    CollapseIdentity(s);
  }

  lemma NormalizeCrlf(s: string)
    requires s == "\r\n"
    ensures NormalizeRaw(s) == "\n"
  {
    assert s[2..] == "";
    assert CollapseCrlf(s) == "\n" + CollapseCrlf("");
  }

  lemma NormalizeHasNoCr(s: string)
    ensures '\r' !in NormalizeRaw(s)
  {
  }

  lemma {:induction false} CollapseExpand(s: string)
    requires '\r' !in s
    ensures CollapseCrlf(ExpandLf(s)) == s
  {
    if s != "" {
      CollapseExpand(s[1..]);
      var head := if s[0] == '\n' then "\r\n" else [s[0]];
      assert CollapseCrlf(head) == [s[0]] by {
        if s[0] == '\n' { NormalizeCrlf(head); assert head[2..] == ""; }
      }
      ExpandStartsUnlikeLf(s[1..]);
      CollapseAppend(head, ExpandLf(s[1..]));
    }
  }

  lemma ExpandStartsUnlikeLf(s: string)
    ensures ExpandLf(s) == "" || ExpandLf(s)[0] != '\n'
  {
  }

  /** Composing CRLF line endings and normalising them away again is one LF normalisation. */
  lemma NormalizeTextRoundTrip(s: string)
    ensures CollapseCrlf(NormalizeTextLines(s)) == NormalizeRaw(s)
    ensures NormalizeRaw(NormalizeTextLines(s)) == NormalizeRaw(s)
  {
    NormalizeHasNoCr(s);
    CollapseExpand(NormalizeRaw(s));
    assert CrToLf(NormalizeRaw(s)) == NormalizeRaw(s);
  }

  // ----- splitting -------------------------------------------------------------------------

  /** `s.split(d)`: the pieces between occurrences of `d`, never empty as a list. */
  function Split(s: string, d: char): (r: seq<string>)
    ensures |r| >= 1
  {
    if s == "" then [""]
    else
      var rest := Split(s[1..], d);
      if s[0] == d then [""] + rest else [[s[0]] + rest[0]] + rest[1..]
  }

  function Join(pieces: seq<string>, d: string): string {
    if pieces == [] then ""
    else if |pieces| == 1 then pieces[0]
    else pieces[0] + d + Join(pieces[1..], d)
  }

  lemma {:induction false} SplitAppend(a: string, b: string, d: char)
    ensures Split(a + [d] + b, d) == Split(a, d) + Split(b, d)
  {
    var s := a + [d] + b;
    if a == "" {
      assert s[1..] == b;
    } else {
      SplitAppend(a[1..], b, d);
      assert s[1..] == a[1..] + [d] + b;
      var left, right := Split(a[1..], d), Split(b, d);
      TailAppend(left, right);
      ConsAppend(if a[0] == d then "" else [a[0]] + left[0], if a[0] == d then left else left[1..], right);
    }
  }

  lemma {:induction false} SplitNone(s: string, d: char)
    requires d !in s
    ensures Split(s, d) == [s]
  {
    if s != "" {
      SplitNone(s[1..], d);
      assert [s[0]] + s[1..] == s;
    }
  }

  lemma {:induction false} SplitPieces(s: string, d: char)
    ensures forall p :: p in Split(s, d) ==> d !in p
    ensures Join(Split(s, d), [d]) == s
  {
    if s != "" {
      SplitPieces(s[1..], d);
      var rest := Split(s[1..], d);
      var r := Split(s, d);
      if s[0] == d {
        assert r[1..] == rest;
      } else {
        assert r[1..] == rest[1..];
        assert [s[0]] + s[1..] == s;
        if |rest| > 1 {
          assert [s[0]] + (rest[0] + [d] + Join(rest[1..], [d])) == [s[0]] + rest[0] + [d] + Join(rest[1..], [d]);
        }
      }
    }
  }

  /** Splitting inverts joining for every list of pieces free of the separator. */
  lemma {:induction false} SplitJoin(pieces: seq<string>, d: char)
    requires pieces != []
    requires forall p :: p in pieces ==> d !in p
    ensures Split(Join(pieces, [d]), d) == pieces
  {
    SplitNone(pieces[0], d);
    if |pieces| > 1 {
      SplitJoin(pieces[1..], d);
      SplitAppend(pieces[0], Join(pieces[1..], [d]), d);
    }
  }

  /** Reading text line by line: `s.split('\n')`. */
  function Lines(s: string): (r: seq<string>)
    ensures |r| >= 1
  {
    Split(s, '\n')
  }

  lemma LinesAppend(a: string, b: string)
    ensures Lines(a + "\n" + b) == Lines(a) + Lines(b)
  {
    SplitAppend(a, b, '\n');
  }

  /** `s.split_once(d)` */
  function SplitOnce(s: string, d: char): (r: Option<(string, string)>)
    ensures r.None? <==> d !in s
    ensures r.Some? ==> s == r.value.0 + [d] + r.value.1 && d !in r.value.0
  {
    if s == "" then None
    else if s[0] == d then Some(("", s[1..]))
    else
      match SplitOnce(s[1..], d)
      case None => None
      case Some((a, b)) => Some(([s[0]] + a, b))
  }

  lemma {:induction false} SplitOnceAt(a: string, d: char, b: string)
    requires d !in a
    ensures SplitOnce(a + [d] + b, d) == Some((a, b))
  {
    if a == "" {
      assert a + [d] + b == [d] + b;
    } else {
      SplitOnceAt(a[1..], d, b);
      assert (a + [d] + b)[1..] == a[1..] + [d] + b;
      assert [a[0]] + a[1..] == a;
    }
  }

  // ----- searching -------------------------------------------------------------------------

  predicate OccursAt(s: string, p: string, i: nat) {
    i + |p| <= |s| && s[i..i + |p|] == p
  }

  /** `s.contains(p)` */
  predicate Contains(s: string, p: string) {
    exists i: nat :: i + |p| <= |s| && OccursAt(s, p, i)
  }

  /** `s.find(p)`: the first occurrence. */
  function Find(s: string, p: string): (r: Option<nat>)
    ensures r.Some? ==> OccursAt(s, p, r.value) && forall i: nat :: i < r.value ==> !OccursAt(s, p, i)
    ensures r.None? ==> forall i: nat :: !OccursAt(s, p, i)
  {
    FindFrom(s, p, 0)
  }

  function FindFrom(s: string, p: string, from: nat): (r: Option<nat>)
    requires from <= |s|
    requires forall i: nat :: i < from ==> !OccursAt(s, p, i)
    ensures r.Some? ==> OccursAt(s, p, r.value) && forall i: nat :: i < r.value ==> !OccursAt(s, p, i)
    ensures r.None? ==> forall i: nat :: !OccursAt(s, p, i)
    decreases |s| - from
  {
    if OccursAt(s, p, from) then Some(from)
    else if from == |s| then None
    else FindFrom(s, p, from + 1)
  }

  lemma FindUnique(s: string, p: string, at: nat)
    requires OccursAt(s, p, at)
    requires forall i: nat :: i < at ==> !OccursAt(s, p, i)
    ensures Find(s, p) == Some(at)
  {
  }

  // ----- case and whitespace ---------------------------------------------------------------

  function LowerChar(c: char): char {
    if 'A' <= c <= 'Z' then (c as int + 32) as char else c
  }

  /** `to_ascii_lowercase` */
  function Lower(s: string): string {
    seq(|s|, i requires 0 <= i < |s| => LowerChar(s[i]))
  }

  predicate StartsWith(s: string, p: string) {
    p <= s
  }

  /** The ASCII members of Unicode `White_Space`. */
  predicate AsciiSpace(c: char) {
    9 <= c as int <= 13 || c == ' '
  }

  /** The byte length of the Unicode `White_Space` character that starts `s`, or 0. */
  function SpaceHead(s: string): (n: nat)
    ensures n <= |s|
  {
    if |s| >= 1 && AsciiSpace(s[0]) then 1
    else if |s| >= 2 && WideSpace2(s[0], s[1]) then 2
    else if |s| >= 3 && WideSpace3(s[0], s[1], s[2]) then 3
    else 0
  }

  /** The byte length of the Unicode `White_Space` character that ends `s`, or 0. */
  function SpaceTail(s: string): (n: nat)
    ensures n <= |s|
  {
    if |s| >= 1 && AsciiSpace(s[|s| - 1]) then 1
    else if |s| >= 2 && WideSpace2(s[|s| - 2], s[|s| - 1]) then 2
    else if |s| >= 3 && WideSpace3(s[|s| - 3], s[|s| - 2], s[|s| - 1]) then 3
    else 0
  }

  /** U+0085 and U+00A0 */
  predicate WideSpace2(a: char, b: char) {
    a as int == 0xC2 && (b as int == 0x85 || b as int == 0xA0)
  }

  /** U+1680, U+2000 to U+200A, U+2028, U+2029, U+202F, U+205F and U+3000 */
  predicate WideSpace3(a: char, b: char, c: char) {
    var (x, y, z) := (a as int, b as int, c as int);
    || (x == 0xE1 && y == 0x9A && z == 0x80)
    || (x == 0xE2 && y == 0x80 && (0x80 <= z <= 0x8A || z == 0xA8 || z == 0xA9 || z == 0xAF))
    || (x == 0xE2 && y == 0x81 && z == 0x9F)
    || (x == 0xE3 && y == 0x80 && z == 0x80)
  }

  function TrimStart(s: string): string {
    if SpaceHead(s) == 0 then s else TrimStart(s[SpaceHead(s)..])
  }

  function TrimEnd(s: string): string {
    if SpaceTail(s) == 0 then s else TrimEnd(s[..|s| - SpaceTail(s)])
  }

  /** `str::trim` */
  function Trim(s: string): string {
    TrimEnd(TrimStart(s))
  }

  lemma {:induction false} TrimStartCuts(s: string)
    ensures |TrimStart(s)| <= |s| && TrimStart(s) == s[|s| - |TrimStart(s)|..]
    ensures SpaceHead(TrimStart(s)) == 0
  {
    if SpaceHead(s) != 0 { TrimStartCuts(s[SpaceHead(s)..]); }
  }

  lemma {:induction false} TrimEndCuts(s: string)
    ensures TrimEnd(s) <= s
    ensures SpaceTail(TrimEnd(s)) == 0
  {
    if SpaceTail(s) != 0 { TrimEndCuts(s[..|s| - SpaceTail(s)]); }
  }

  /** A prefix of a string that does not start with whitespace does not either. */
  lemma PrefixKeepsHead(r: string, t: string)
    requires r <= t && SpaceHead(t) == 0
    ensures SpaceHead(r) == 0
  {
  }

  /** Trimming cuts a contiguous piece out of a string, with no whitespace at its ends. */
  lemma TrimTrims(s: string)
    ensures SpaceHead(Trim(s)) == 0 && SpaceTail(Trim(s)) == 0
    ensures |Trim(s)| <= |s|
    ensures forall c :: c in Trim(s) ==> c in s
  {
    TrimStartCuts(s);
    TrimEndCuts(TrimStart(s));
    PrefixKeepsHead(Trim(s), TrimStart(s));
  }

  /** A string that neither starts nor ends with whitespace is left alone, and only such a string. */
  lemma TrimFixed(s: string)
    ensures Trim(s) == s <==> SpaceHead(s) == 0 && SpaceTail(s) == 0
    ensures |Trim(s)| <= |s|
    ensures |Trim(s)| == |s| <==> Trim(s) == s
  {
    TrimTrims(s);
    TrimStartCuts(s);
    TrimEndCuts(TrimStart(s));
    if |Trim(s)| == |s| { assert TrimStart(s) == s; }
  }
}
