/** Wrapped base64 bodies (section 6.8 of RFC 2045) over the codec of section 4 of RFC 4648. */
module Base64 {
  import opened Wrappers
  import opened Text

  // ----- the codec -------------------------------------------------------------------------

  /** The group that stands for the padding character. */
  const PAD: nat := 64

  function Symbol(i: nat): char
    requires i <= PAD
  {
    if i < 26 then (65 + i) as char
    else if i < 52 then (71 + i) as char
    else if i < 62 then (i - 4) as char
    else if i == 62 then '+'
    else if i == 63 then '/'
    else '='
  }

  function Value(c: char): (r: Option<nat>)
    ensures r.Some? ==> r.value <= PAD
  {
    if 'A' <= c <= 'Z' then Some(c as int - 65)
    else if 'a' <= c <= 'z' then Some(c as int - 71)
    else if '0' <= c <= '9' then Some(c as int + 4)
    else if c == '+' then Some(62)
    else if c == '/' then Some(63)
    else if c == '=' then Some(PAD)
    else None
  }

  lemma ValueOfSymbol(i: nat)
    requires i <= PAD
    ensures Value(Symbol(i)) == Some(i)
  {
  }

  predicate Alphabet(c: char) {
    Value(c).Some?
  }

  predicate AllGroups(g: seq<nat>) {
    forall i :: 0 <= i < |g| ==> g[i] <= PAD
  }

  function Symbols(g: seq<nat>): (r: string)
    requires AllGroups(g)
    ensures |r| == |g| && forall i :: 0 <= i < |r| ==> Value(r[i]) == Some(g[i])
  {
    if g == [] then "" else ValueOfSymbol(g[0]); [Symbol(g[0])] + Symbols(g[1..])
  }

  function Values(s: string): (r: Option<seq<nat>>)
    ensures r.Some? ==> |r.value| == |s| && AllGroups(r.value)
    ensures r.Some? ==> forall i :: 0 <= i < |s| ==> Value(s[i]) == Some(r.value[i])
    ensures r.None? ==> exists i :: 0 <= i < |s| && Value(s[i]).None?
  {
    if s == "" then Some([])
    else if Value(s[0]).None? then None
    else
      match Values(s[1..])
      case Some(g) => Some([Value(s[0]).value] + g)
      case None =>
        assert exists i :: 0 <= i < |s[1..]| && Value(s[1..][i]).None?;
        assert forall i :: 0 <= i < |s[1..]| ==> s[1..][i] == s[i + 1];
        None
  }

  lemma ValuesOfSymbols(g: seq<nat>)
    requires AllGroups(g)
    ensures Values(Symbols(g)) == Some(g)
  {
    var s := Symbols(g);
    assert forall i :: 0 <= i < |s| ==> Value(s[i]) == Some(g[i]);
    assert Values(s).Some?;
    assert Values(s).value == g;
  }

  /** Six-bit groups, three bytes at a time; a missing byte counts as zero and its groups are padding. */
  function Groups(b: ByteString): (g: seq<nat>)
    ensures AllGroups(g)
  {
    if b == "" then []
    else if |b| <= 2 then LastBlock(b)
    else Block(b[0], b[1], b[2]) + Groups(b[3..])
  }

  function Block(x: char, y: char, z: char): (g: seq<nat>)
    requires x as int < 256 && y as int < 256 && z as int < 256
    ensures AllGroups(g) && |g| == 4
  {
    var (i, j, k) := (x as int, y as int, z as int);
    [i / 4, i % 4 * 16 + j / 16, j % 16 * 4 + k / 64, k % 64]
  }

  function LastBlock(b: ByteString): (g: seq<nat>)
    requires 1 <= |b| <= 2
    ensures AllGroups(g)
  {
    var i := b[0] as int;
    if |b| == 1 then [i / 4, i % 4 * 16, PAD, PAD]
    else
      var j := b[1] as int;
      [i / 4, i % 4 * 16 + j / 16, j % 16 * 4, PAD]
  }

  /** Strict: whole blocks, padding only at the very end, and no stray bits before it. */
  function Ungroup(g: seq<nat>): Option<string>
    requires AllGroups(g)
  {
    if g == [] then Some("")
    else if |g| < 4 || g[0] == PAD || g[1] == PAD then None
    else
      var x := (g[0] * 4 + g[1] / 16) as char;
      if |g| == 4 && g[2] == PAD && g[3] == PAD then
        if g[1] % 16 == 0 then Some([x]) else None
      else if g[2] == PAD then None
      else
        var y := (g[1] % 16 * 16 + g[2] / 4) as char;
        if |g| == 4 && g[3] == PAD then
          if g[2] % 4 == 0 then Some([x, y]) else None
        else if g[3] == PAD then None
        else
          match Ungroup(g[4..])
          case Some(rest) => Some([x, y, (g[2] % 4 * 64 + g[3]) as char] + rest)
          case None => None
  }

  function Encode(b: ByteString): (r: string)
    ensures forall c :: c in r ==> Alphabet(c)
  {
    Symbols(Groups(b))
  }

  function Decode(s: string): Option<string> {
    match Values(s)
    case Some(g) => Ungroup(g)
    case None => None
  }

  /** Cutting three bytes into six-bit groups and putting the bytes together again. */
  lemma Bits(x: nat, y: nat, z: nat)
    requires x < 256 && y < 256 && z < 256
    ensures var (i, j, k, l) := (x / 4, x % 4 * 16 + y / 16, y % 16 * 4 + z / 64, z % 64);
            && i < PAD && j < PAD && k < PAD && l < PAD
            && i * 4 + j / 16 == x && j % 16 * 16 + k / 4 == y && k % 4 * 64 + l == z
            && (y == 0 ==> j == x % 4 * 16 && j % 16 == 0) && (z == 0 ==> k == y % 16 * 4 && k % 4 == 0)
  {
  }

  lemma UngroupBlock(h: seq<nat>, g: seq<nat>, x: char, y: char, z: char)
    requires |h| == 4 && h[0] < PAD && h[1] < PAD && h[2] < PAD && h[3] < PAD && AllGroups(g)
    requires h[0] * 4 + h[1] / 16 == x as int
    requires h[1] % 16 * 16 + h[2] / 4 == y as int
    requires h[2] % 4 * 64 + h[3] == z as int
    requires Ungroup(g).Some?
    ensures Ungroup(h + g) == Some([x, y, z] + Ungroup(g).value)
  {
    assert (h + g)[4..] == g;
  }

  lemma UngroupFirst(x: char, y: char, z: char, g: seq<nat>)
    requires x as int < 256 && y as int < 256 && z as int < 256 && AllGroups(g)
    requires Ungroup(g).Some?
    ensures Ungroup(Block(x, y, z) + g) == Some([x, y, z] + Ungroup(g).value)
  {
    Bits(x as int, y as int, z as int);
    UngroupBlock(Block(x, y, z), g, x, y, z);
  }

  lemma UngroupLast(b: ByteString)
    requires 1 <= |b| <= 2
    ensures Ungroup(LastBlock(b)) == Some(b)
  {
    Bits(b[0] as int, if |b| == 2 then b[1] as int else 0, 0);
    assert b == if |b| == 1 then [b[0]] else [b[0], b[1]];
  }

  lemma {:induction false} UngroupGroups(b: ByteString)
    ensures Ungroup(Groups(b)) == Some(b)
  {
    if b == "" {
    } else if |b| <= 2 {
      UngroupLast(b);
    } else {
      UngroupGroups(b[3..]);
      UngroupFirst(b[0], b[1], b[2], Groups(b[3..]));
      assert b == [b[0], b[1], b[2]] + b[3..];
    }
  }

  lemma CodecRoundTrip(b: ByteString)
    ensures Decode(Encode(b)) == Some(b)
  {
    UngroupGroups(b);
    ValuesOfSymbols(Groups(b));
  }

  /** Test vectors of section 10 of RFC 4648. */
  lemma KnownTexts()
    ensures Encode("f") == "Zg==" && Encode("fo") == "Zm8=" && Encode("foo") == "Zm9v"
  {
    assert "foo"[3..] == "";
    assert Groups("f") == [25, 32, PAD, PAD];
    assert Groups("fo") == [25, 38, 60, PAD];
    assert Groups("foo") == [25, 38, 61, 47];
    SymbolsOfFour([25, 32, PAD, PAD]);
    SymbolsOfFour([25, 38, 60, PAD]);
    SymbolsOfFour([25, 38, 61, 47]);
  }

  lemma SymbolsOfFour(g: seq<nat>)
    requires |g| == 4 && AllGroups(g)
    ensures Symbols(g) == [Symbol(g[0]), Symbol(g[1]), Symbol(g[2]), Symbol(g[3])]
  {
    assert g == [g[0]] + ([g[1]] + ([g[2]] + [g[3]]));
    assert g[1..] == [g[1]] + ([g[2]] + [g[3]]) && g[1..][1..] == [g[2]] + [g[3]];
    assert g[1..][1..][1..] == [g[3]] && g[1..][1..][1..][1..] == [];
  }

  lemma BitsBack(i: nat, j: nat, k: nat, l: nat)
    requires i < 64 && j < 64 && k < 64 && l < 64
    ensures var (x, y, z) := (i * 4 + j / 16, j % 16 * 16 + k / 4, k % 4 * 64 + l);
            && x < 256 && y < 256 && z < 256
            && x / 4 == i && x % 4 == j / 16 && y / 16 == j % 16 && y % 16 == k / 4 && z / 64 == k % 4 && z % 64 == l
  {
  }

  lemma BlockOfBytes(g: seq<nat>, x: char, y: char, z: char)
    requires |g| >= 4 && g[0] < PAD && g[1] < PAD && g[2] < PAD && g[3] < PAD
    requires x as int == g[0] * 4 + g[1] / 16 && y as int == g[1] % 16 * 16 + g[2] / 4 && z as int == g[2] % 4 * 64 + g[3]
    ensures x as int < 256 && y as int < 256 && z as int < 256 && Block(x, y, z) == g[..4]
  {
    BitsBack(g[0], g[1], g[2], g[3]);
    assert g[..4] == [g[0], g[1], g[2], g[3]];
  }

  lemma LastOfOne(g: seq<nat>, b: string)
    requires |g| == 4 && g[0] < PAD && g[1] < PAD && g[1] % 16 == 0 && g[2] == PAD && g[3] == PAD
    requires |b| == 1 && b[0] as int == g[0] * 4 + g[1] / 16
    ensures AllBytes(b) && LastBlock(b) == g
  {
    assert g == [g[0], g[1], PAD, PAD];
  }

  lemma LastOfTwo(g: seq<nat>, b: string)
    requires |g| == 4 && g[0] < PAD && g[1] < PAD && g[2] < PAD && g[2] % 4 == 0 && g[3] == PAD
    requires |b| == 2 && b[0] as int == g[0] * 4 + g[1] / 16 && b[1] as int == g[1] % 16 * 16 + g[2] / 4
    ensures AllBytes(b) && LastBlock(b) == g
  {
    assert g == [g[0], g[1], g[2], PAD];
  }

  /** Only the groups of some bytes are put together to bytes. */
  lemma {:induction false} GroupsOfUngrouped(g: seq<nat>)
    requires AllGroups(g) && Ungroup(g).Some?
    ensures AllBytes(Ungroup(g).value) && Groups(Ungroup(g).value) == g
    decreases |g|
  {
    var b := Ungroup(g).value;
    if g == [] {
    } else if |g| == 4 && g[2] == PAD {
      LastOfOne(g, b);
    } else if |g| == 4 && g[3] == PAD {
      LastOfTwo(g, b);
    } else {
      GroupsOfUngrouped(g[4..]);
      var rest := Ungroup(g[4..]).value;
      assert b == b[..3] + rest && |b| == 3 + |rest| && b[3..] == rest;
      BlockOfBytes(g, b[0], b[1], b[2]);
      assert g == g[..4] + g[4..];
    }
  }

  lemma SymbolOfValue(c: char)
    requires Value(c).Some?
    ensures Symbol(Value(c).value) == c
  {
  }

  lemma SymbolsOfValues(s: string)
    requires Values(s).Some?
    ensures Symbols(Values(s).value) == s
  {
    var g := Values(s).value;
    forall i | 0 <= i < |s| ensures Symbols(g)[i] == s[i] {
      SymbolOfValue(s[i]);
      SymbolOfValue(Symbols(g)[i]);
    }
  }

  /** The decoder is strict: it accepts only what encoding its result gives. */
  lemma DecodeIsStrict(s: string)
    requires Decode(s).Some?
    ensures AllBytes(Decode(s).value) && Encode(Decode(s).value) == s
  {
    GroupsOfUngrouped(Values(s).value);
    SymbolsOfValues(s);
  }

  lemma {:induction false} UngroupShrinks(g: seq<nat>)
    requires AllGroups(g)
    ensures Ungroup(g).Some? ==> |Ungroup(g).value| <= |g|
  {
    if |g| >= 4 { UngroupShrinks(g[4..]); }
  }

  lemma DecodeShrinks(s: string)
    ensures Decode(s).Some? ==> |Decode(s).value| <= |s|
  {
    if Values(s).Some? { UngroupShrinks(Values(s).value); }
  }

  // ----- wrapping --------------------------------------------------------------------------

  /** `s` from column `column` on, with `eol` before each character that would pass `width`. */
  function WrappedWith(s: string, column: nat, width: nat, eol: string): string {
    if s == "" then ""
    else if column >= width then eol + [s[0]] + WrappedWith(s[1..], 1, width, eol)
    else [s[0]] + WrappedWith(s[1..], column + 1, width, eol)
  }

  method WrapAsciiLine(input: string, width: nat) returns (output: string)
    ensures output == WrappedWith(input, 0, width, "\r\n")
  {
    output := "";
    var lineLen := 0;
    assert input[0..] == input;
    for index := 0 to |input|
      invariant output + WrappedWith(input[index..], lineLen, width, "\r\n") == WrappedWith(input, 0, width, "\r\n")
    {
      ghost var rest, before, column := input[index..], output, lineLen;
      if lineLen >= width {
        output := output + "\r\n";
        lineLen := 0;
      }
      output := output + [input[index]];
      lineLen := lineLen + 1;
      assert rest[1..] == input[index + 1..];
      WrapStep(before, rest, column, width, output, lineLen);
    }
  }

  lemma WrapStep(before: string, rest: string, column: nat, width: nat, after: string, lineLen: nat)
    requires rest != "" && lineLen == (if column >= width then 1 else column + 1)
    requires after == (if column >= width then before + "\r\n" + [rest[0]] else before + [rest[0]])
    ensures after + WrappedWith(rest[1..], lineLen, width, "\r\n") == before + WrappedWith(rest, column, width, "\r\n")
  {
    var tail := WrappedWith(rest[1..], lineLen, width, "\r\n");
    Assoc(before, "\r\n", [rest[0]]);
    Assoc(before, if column >= width then "\r\n" + [rest[0]] else [rest[0]], tail);
  }

  /** `base64_encode_wrapped` */
  function EncodeWrapped(b: ByteString): string {
    WrappedWith(Encode(b), 0, 76, "\r\n")
  }

  /** `char::is_ascii_whitespace` */
  predicate Blank(c: char) {
    c == ' ' || c == '\t' || c == '\n' || c == '\r' || c as int == 12
  }

  function Compact(s: string): string {
    if s == "" then ""
    else (if Blank(s[0]) then "" else [s[0]]) + Compact(s[1..])
  }

  /** `base64_decode_liberal` */
  function DecodeLiberal(s: string): Result<string> {
    match Decode(Compact(s))
    case Some(b) => Ok(b)
    case None => Err("invalid MIME base64 body")
  }

  lemma {:induction false} CompactAppend(a: string, b: string)
    ensures Compact(a + b) == Compact(a) + Compact(b)
  {
    if a == "" {
      assert a + b == b;
    } else {
      CompactAppend(a[1..], b);
      TailAppend(a, b);
      Assoc(if Blank(a[0]) then "" else [a[0]], Compact(a[1..]), Compact(b));
    }
  }

  lemma {:induction false} CompactShrinks(s: string)
    ensures |Compact(s)| <= |s|
  {
    if s != "" { CompactShrinks(s[1..]); }
  }

  lemma LiberalShrinks(s: string)
    ensures DecodeLiberal(s).Ok? ==> |DecodeLiberal(s).value| <= |s|
  {
    CompactShrinks(s);
    DecodeShrinks(Compact(s));
  }

  lemma CompactEol(eol: string)
    requires eol == "\r\n" || eol == "\n"
    ensures Compact(eol) == ""
  {
    if eol == "\r\n" { assert eol[1..] == "\n"; }
    assert Compact("\n") == Compact("\n"[1..]);
  }

  lemma {:induction false} CompactWrapped(s: string, column: nat, width: nat, eol: string)
    requires eol == "\r\n" || eol == "\n"
    requires forall c :: c in s ==> Alphabet(c)
    ensures Compact(WrappedWith(s, column, width, eol)) == s
  {
    if s != "" {
      assert Alphabet(s[0]);
      assert Compact([s[0]]) == [s[0]] + Compact([s[0]][1..]);
      if column >= width {
        var rest := WrappedWith(s[1..], 1, width, eol);
        CompactWrapped(s[1..], 1, width, eol);
        CompactEol(eol);
        CompactAppend(eol, [s[0]]);
        CompactAppend(eol + [s[0]], rest);
      } else {
        CompactWrapped(s[1..], column + 1, width, eol);
        CompactAppend([s[0]], WrappedWith(s[1..], column + 1, width, eol));
      }
    }
  }

  lemma {:induction false} NormalizeWrapped(s: string, column: nat, width: nat)
    requires '\r' !in s && '\n' !in s
    ensures NormalizeRaw(WrappedWith(s, column, width, "\r\n")) == WrappedWith(s, column, width, "\n")
  {
    if s != "" {
      NormalizeIdentity([s[0]]);
      if column >= width {
        var rest := WrappedWith(s[1..], 1, width, "\r\n");
        NormalizeWrapped(s[1..], 1, width);
        NormalizeCrlf("\r\n");
        NormalizeAppend("\r\n", [s[0]]);
        NormalizeAppend("\r\n" + [s[0]], rest);
      } else {
        NormalizeWrapped(s[1..], column + 1, width);
        NormalizeAppend([s[0]], WrappedWith(s[1..], column + 1, width, "\r\n"));
      }
    }
  }

  lemma AlphabetNotBlank(c: char)
    requires Alphabet(c)
    ensures !Blank(c)
  {
  }

  lemma {:induction false} CompactAlphabet(s: string)
    requires forall c :: c in s ==> Alphabet(c)
    ensures Compact(s) == s
  {
    if s != "" {
      assert s[0] in s && forall c :: c in s[1..] ==> c in s;
      AlphabetNotBlank(s[0]);
      CompactAlphabet(s[1..]);
      assert [s[0]] + s[1..] == s;
    }
  }

  /** Unwrapped text decodes too, and never holds a question mark. */
  lemma TextDecodes(b: ByteString)
    ensures '?' !in Encode(b) && DecodeLiberal(Encode(b)) == Ok(b)
  {
    CodecRoundTrip(b);
    CompactAlphabet(Encode(b));
    assert !Alphabet('?');
  }

  lemma LiberalOfWrapped(s: string)
    requires forall c :: c in s ==> Alphabet(c)
    ensures Compact(WrappedWith(s, 0, 76, "\r\n")) == s
    ensures Compact(NormalizeRaw(WrappedWith(s, 0, 76, "\r\n"))) == s
  {
    CompactWrapped(s, 0, 76, "\r\n");
    CompactWrapped(s, 0, 76, "\n");
    assert '\r' !in s && '\n' !in s;
    NormalizeWrapped(s, 0, 76);
  }

  /** Liberal decoding inverts wrapped encoding, before and after LF normalisation. */
  lemma RoundTrip(b: ByteString)
    ensures DecodeLiberal(EncodeWrapped(b)) == Ok(b)
    ensures DecodeLiberal(NormalizeRaw(EncodeWrapped(b))) == Ok(b)
  {
    CodecRoundTrip(b);
    LiberalOfWrapped(Encode(b));
  }

  // ----- lines -----------------------------------------------------------------------------

  lemma {:induction false} WrappedLines(s: string, column: nat, width: nat)
    requires '\n' !in s && 1 <= width && column <= width
    ensures var ls := Lines(WrappedWith(s, column, width, "\n"));
            column + |ls[0]| <= width && forall i :: 1 <= i < |ls| ==> |ls[i]| <= width
  {
    if s == "" {
    } else if column >= width {
      var rest := [s[0]] + WrappedWith(s[1..], 1, width, "\n");
      WrappedLines(s[1..], 1, width);
      LinesAppend("", rest);
      assert rest[1..] == WrappedWith(s[1..], 1, width, "\n");
      assert WrappedWith(s, column, width, "\n") == "" + "\n" + rest;
    } else {
      WrappedLines(s[1..], column + 1, width);
      assert WrappedWith(s, column, width, "\n")[1..] == WrappedWith(s[1..], column + 1, width, "\n");
    }
  }

  lemma {:induction false} WrappedFull(s: string, column: nat, width: nat)
    requires '\n' !in s && 1 <= width && column <= width
    ensures var ls := Lines(WrappedWith(s, column, width, "\n"));
            && |ls| >= 1 && (|ls| > 1 ==> column + |ls[0]| == width)
            && forall i :: 1 <= i < |ls| - 1 ==> |ls[i]| == width
  {
    if s == "" {
      SplitNone("", '\n');
    } else if column >= width {
      var rest := [s[0]] + WrappedWith(s[1..], 1, width, "\n");
      WrappedFull(s[1..], 1, width);
      LinesAppend("", rest);
      assert rest[1..] == WrappedWith(s[1..], 1, width, "\n");
      assert WrappedWith(s, column, width, "\n") == "" + "\n" + rest;
    } else {
      WrappedFull(s[1..], column + 1, width);
      assert WrappedWith(s, column, width, "\n")[1..] == WrappedWith(s[1..], column + 1, width, "\n");
    }
  }

  /** Every line of an encoded body but the last is exactly 76 characters long. */
  lemma LinesAreFull(b: ByteString, i: nat)
    requires i + 1 < |Lines(NormalizeRaw(EncodeWrapped(b)))|
    ensures |Lines(NormalizeRaw(EncodeWrapped(b)))[i]| == 76
  {
    NormalizeWrapped(Encode(b), 0, 76);
    WrappedFull(Encode(b), 0, 76);
  }

  /** Every line of an encoded body is at most 76 characters long. */
  lemma LineBound(b: ByteString)
    ensures forall i :: 0 <= i < |Lines(NormalizeRaw(EncodeWrapped(b)))| ==>
              |Lines(NormalizeRaw(EncodeWrapped(b)))[i]| <= 76
  {
    NormalizeWrapped(Encode(b), 0, 76);
    WrappedLines(Encode(b), 0, 76);
  }

  lemma {:induction false} WrappedChars(s: string, column: nat, width: nat, eol: string)
    ensures forall c :: c in WrappedWith(s, column, width, eol) ==> c in s || c in eol
  {
    if s != "" {
      WrappedChars(s[1..], 1, width, eol);
      WrappedChars(s[1..], column + 1, width, eol);
    }
  }

  /** An encoded body holds alphabet characters and line breaks only, so no `-`. */
  lemma BodyChars(b: ByteString)
    ensures forall c :: c in NormalizeRaw(EncodeWrapped(b)) ==> Alphabet(c) || c == '\n'
  {
    NormalizeWrapped(Encode(b), 0, 76);
    WrappedChars(Encode(b), 0, 76, "\n");
  }
}
