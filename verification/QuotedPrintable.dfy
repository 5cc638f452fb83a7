/** Quoted-printable bodies (section 6.7 of RFC 2045) and the Q text of encoded words. */
module QuotedPrintable {
  import opened Wrappers
  import opened Text

  // ----- hexadecimal -----------------------------------------------------------------------

  function HexDigit(n: nat): char
    requires n < 16
  {
    if n < 10 then (48 + n) as char else (55 + n) as char
  }

  function HexPair(b: char): string {
    [HexDigit(b as int / 16 % 16), HexDigit(b as int % 16)]
  }

  function HexValue(c: char): (r: Option<nat>)
    ensures r.Some? ==> r.value < 16
  {
    if '0' <= c <= '9' then Some(c as int - 48)
    else if 'a' <= c <= 'f' then Some(c as int - 87)
    else if 'A' <= c <= 'F' then Some(c as int - 55)
    else None
  }

  /** The byte named by two hexadecimal digits. */
  function HexByte(hi: char, lo: char): (r: Option<char>) {
    if HexValue(hi).Some? && HexValue(lo).Some?
    then Some((HexValue(hi).value * 16 + HexValue(lo).value) as char)
    else None
  }

  lemma HexPairNamesByte(b: char)
    requires b as int < 256
    ensures HexByte(HexPair(b)[0], HexPair(b)[1]) == Some(b)
  {
  }

  // ----- encoding --------------------------------------------------------------------------

  predicate Literal(b: char) {
    b == '\t' || ' ' <= b <= '<' || '>' <= b <= '~'
  }

  function Token(b: char): (t: string)
    ensures 1 <= |t| <= 3
  {
    if Literal(b) then [b] else "=" + HexPair(b)
  }

  /** The encoding of `b` when `lineLen` characters stand on the current line and lines end in `eol`. */
  function EncodedWith(b: string, lineLen: nat, eol: string): string {
    if b == "" then ""
    else if |b| >= 2 && b[0] == '\r' && b[1] == '\n' then eol + EncodedWith(b[2..], 0, eol)
    else
      var t := Token(b[0]);
      if lineLen + |t| > 75 then "=" + eol + t + EncodedWith(b[1..], |t|, eol)
      else t + EncodedWith(b[1..], lineLen + |t|, eol)
  }

  function Encoded(b: string): string {
    EncodedWith(b, 0, "\r\n")
  }

  method QpEncode(bytes: ByteString) returns (output: string)
    ensures output == Encoded(bytes)
  {
    output := "";
    var lineLen := 0;
    var index := 0;
    assert bytes[0..] == bytes;
    while index < |bytes|
      invariant 0 <= index <= |bytes|
      invariant output + EncodedWith(bytes[index..], lineLen, "\r\n") == Encoded(bytes)
    {
      var byte := bytes[index];
      ghost var rest := bytes[index..];
      if byte == '\r' && index + 1 < |bytes| && bytes[index + 1] == '\n' {
        assert rest[2..] == bytes[index + 2..];
        Assoc(output, "\r\n", EncodedWith(rest[2..], 0, "\r\n"));
        output := output + "\r\n";
        lineLen := 0;
        index := index + 2;
        continue;
      }
      assert rest[1..] == bytes[index + 1..];
      var token := Token(byte);
      ghost var before, column := output, lineLen;
      output, lineLen := PushToken(output, lineLen, token);
      EncodedStep(before, rest, column, output, lineLen);
      index := index + 1;
    }
  }

  lemma EncodedStep(before: string, rest: string, column: nat, after: string, lineLen: nat)
    requires rest != "" && !(|rest| >= 2 && rest[0] == '\r' && rest[1] == '\n')
    requires var token := Token(rest[0]);
             if column + |token| > 75 then after == before + ("=" + "\r\n" + token) && lineLen == |token|
             else after == before + token && lineLen == column + |token|
    ensures after + EncodedWith(rest[1..], lineLen, "\r\n") == before + EncodedWith(rest, column, "\r\n")
  {
    var token := Token(rest[0]);
    var tail := EncodedWith(rest[1..], lineLen, "\r\n");
    Assoc(before, if column + |token| > 75 then "=" + "\r\n" + token else token, tail);
  }

  /** `qp_push_token`: a soft line break first when the token would pass column 75. */
  method PushToken(output: string, lineLen: nat, token: string) returns (output': string, lineLen': nat)
    ensures lineLen + |token| > 75 ==> output' == output + ("=" + "\r\n" + token) && lineLen' == |token|
    ensures lineLen + |token| <= 75 ==> output' == output + token && lineLen' == lineLen + |token|
  {
    output', lineLen' := output, lineLen;
    if lineLen' + |token| > 75 {
      output' := output' + "=\r\n";
      lineLen' := 0;
    }
    output' := output' + token;
    lineLen' := lineLen' + |token|;
  }

  // ----- decoding --------------------------------------------------------------------------

  function Prepend(s: string, r: Result<string>): Result<string> {
    if r.Ok? then Ok(s + r.value) else r
  }

  lemma PrependUnit(s: string, r: Result<string>)
    ensures Prepend("", r) == r && Prepend(s, Ok("")) == Ok(s)
  {
    assert s + "" == s;
    if r.Ok? { assert "" + r.value == r.value; }
  }

  lemma PrependAppend(a: string, b: string, r: Result<string>)
    ensures Prepend(a, Prepend(b, r)) == Prepend(a + b, r)
  {
    if r.Ok? { Assoc(a, b, r.value); }
  }

  const INVALID_ESCAPE := "invalid quoted-printable escape"

  function Decoded(s: string, encodedWord: bool): Result<string> {
    if s == "" then Ok("")
    else if encodedWord && s[0] == '_' then Prepend(" ", Decoded(s[1..], encodedWord))
    else if s[0] != '=' then Prepend([s[0]], Decoded(s[1..], encodedWord))
    else if |s| >= 3 && s[1] == '\r' && s[2] == '\n' then Decoded(s[3..], encodedWord)
    else if |s| >= 2 && s[1] == '\n' then Decoded(s[2..], encodedWord)
    else if |s| >= 3 && HexByte(s[1], s[2]).Some?
    then Prepend([HexByte(s[1], s[2]).value], Decoded(s[3..], encodedWord))
    else Err(INVALID_ESCAPE)
  }

  method QpDecode(input: string, encodedWord: bool) returns (r: Result<string>)
    ensures r == Decoded(input, encodedWord)
  {
    var output := "";
    var index := 0;
    assert input[0..] == input;
    PrependUnit("", Decoded(input, encodedWord));
    while index < |input|
      invariant 0 <= index <= |input|
      invariant Decoded(input, encodedWord) == Prepend(output, Decoded(input[index..], encodedWord))
    {
      var rest := input[index..];
      if encodedWord && rest[0] == '_' {
        assert rest[1..] == input[index + 1..];
        PrependAppend(output, " ", Decoded(rest[1..], encodedWord));
        output := output + " ";
        index := index + 1;
        continue;
      }
      if rest[0] != '=' {
        assert rest[1..] == input[index + 1..];
        PrependAppend(output, [rest[0]], Decoded(rest[1..], encodedWord));
        output := output + [rest[0]];
        index := index + 1;
        continue;
      }
      if |rest| >= 3 && rest[1] == '\r' && rest[2] == '\n' {
        assert rest[3..] == input[index + 3..];
        index := index + 3;
        continue;
      }
      if |rest| >= 2 && rest[1] == '\n' {
        assert rest[2..] == input[index + 2..];
        index := index + 2;
        continue;
      }
      if |rest| < 3 || HexValue(rest[1]).None? || HexValue(rest[2]).None? {
        return Err(INVALID_ESCAPE);
      }
      assert rest[3..] == input[index + 3..];
      PrependAppend(output, [HexByte(rest[1], rest[2]).value], Decoded(rest[3..], encodedWord));
      output := output + [HexByte(rest[1], rest[2]).value];
      index := index + 3;
    }
    PrependUnit(output, Ok(""));
    r := Ok(output);
  }

  /** Decoding never yields more bytes than it reads. */
  lemma {:induction false} DecodedLength(s: string, encodedWord: bool)
    ensures Decoded(s, encodedWord).Ok? ==> |Decoded(s, encodedWord).value| <= |s|
  {
    if s != "" {
      DecodedLength(s[1..], encodedWord);
      if |s| >= 2 { DecodedLength(s[2..], encodedWord); }
      if |s| >= 3 { DecodedLength(s[3..], encodedWord); }
    }
  }

  // ----- round trip ------------------------------------------------------------------------

  lemma DecodedToken(b: char, rest: string)
    requires b as int < 256
    ensures Decoded(Token(b) + rest, false) == Prepend([b], Decoded(rest, false))
  {
    var s := Token(b) + rest;
    HexPairNamesByte(b);
    if Literal(b) {
      assert s[1..] == rest;
    } else {
      assert s[3..] == rest;
      assert s[1] == HexPair(b)[0] && s[2] == HexPair(b)[1];
    }
  }

  lemma DecodedBreaks(eol: string, rest: string)
    requires eol == "\r\n" || eol == "\n"
    ensures Decoded("=" + eol + rest, false) == Decoded(rest, false)
    ensures Decoded(eol + rest, false) == Prepend(eol, Decoded(rest, false))
  {
    assert ("=" + eol + rest)[1 + |eol|..] == rest;
    var t := eol + rest;
    assert t[|eol|..] == rest;
    if eol == "\r\n" {
      var u := t[1..];
      assert u[1..] == rest;
      assert Decoded(t, false) == Prepend("\r", Decoded(u, false));
      assert Decoded(u, false) == Prepend("\n", Decoded(rest, false));
      PrependAppend("\r", "\n", Decoded(rest, false));
      assert "\r" + "\n" == "\r\n";
    }
  }

  /** `b` with each CRLF pair written as `eol`; a lone CR or LF is left alone. */
  function WithBreaks(b: string, eol: string): string {
    if b == "" then ""
    else if |b| >= 2 && b[0] == '\r' && b[1] == '\n' then eol + WithBreaks(b[2..], eol)
    else [b[0]] + WithBreaks(b[1..], eol)
  }

  lemma DecodedTokenAt(b: char, rest: string, lineLen: nat, eol: string)
    requires b as int < 256 && (eol == "\r\n" || eol == "\n")
    ensures Decoded((if lineLen + |Token(b)| > 75 then "=" + eol + Token(b) else Token(b)) + rest, false)
         == Prepend([b], Decoded(rest, false))
  {
    DecodedToken(b, rest);
    DecodedBreaks(eol, Token(b) + rest);
    Assoc("=" + eol, Token(b), rest);
  }

  lemma {:induction false} DecodedEncodedWith(b: ByteString, lineLen: nat, eol: string)
    requires eol == "\r\n" || eol == "\n"
    ensures Decoded(EncodedWith(b, lineLen, eol), false) == Ok(WithBreaks(b, eol))
  {
    if b == "" {
    } else if |b| >= 2 && b[0] == '\r' && b[1] == '\n' {
      DecodedEncodedWith(b[2..], 0, eol);
      DecodedBreaks(eol, EncodedWith(b[2..], 0, eol));
    } else {
      var n := if lineLen + |Token(b[0])| > 75 then |Token(b[0])| else lineLen + |Token(b[0])|;
      DecodedEncodedWith(b[1..], n, eol);
      DecodedTokenAt(b[0], EncodedWith(b[1..], n, eol), lineLen, eol);
    }
  }

  lemma {:induction false} WithCrlfIsIdentity(b: string)
    ensures WithBreaks(b, "\r\n") == b
  {
    if b == "" {
    } else if |b| >= 2 && b[0] == '\r' && b[1] == '\n' {
      WithCrlfIsIdentity(b[2..]);
      assert b == "\r\n" + b[2..];
    } else {
      WithCrlfIsIdentity(b[1..]);
    }
  }

  lemma {:induction false} WithLfIsCollapse(b: string)
    ensures WithBreaks(b, "\n") == CollapseCrlf(b)
  {
    if b == "" {
    } else if |b| >= 2 && b[0] == '\r' && b[1] == '\n' {
      WithLfIsCollapse(b[2..]);
    } else {
      WithLfIsCollapse(b[1..]);
    }
  }

  /** Decoding inverts encoding on every byte sequence. */
  lemma RoundTrip(b: ByteString)
    ensures Decoded(Encoded(b), false) == Ok(b)
  {
    DecodedEncodedWith(b, 0, "\r\n");
    WithCrlfIsIdentity(b);
  }

  lemma {:induction false} NormalizeEncoded(b: string, lineLen: nat)
    ensures NormalizeRaw(EncodedWith(b, lineLen, "\r\n")) == EncodedWith(b, lineLen, "\n")
  {
    if b == "" {
    } else if |b| >= 2 && b[0] == '\r' && b[1] == '\n' {
      NormalizeEncoded(b[2..], 0);
      NormalizeCrlf("\r\n");
      NormalizeAppend("\r\n", EncodedWith(b[2..], 0, "\r\n"));
    } else {
      var t := Token(b[0]);
      NormalizeIdentity(t);
      if lineLen + |t| > 75 {
        var rest := EncodedWith(b[1..], |t|, "\r\n");
        NormalizeEncoded(b[1..], |t|);
        NormalizeIdentity("=");
        NormalizeCrlf("\r\n");
        NormalizeAppend("=", "\r\n");
        NormalizeAppend("=" + "\r\n", t);
        NormalizeAppend("=" + "\r\n" + t, rest);
      } else {
        NormalizeEncoded(b[1..], lineLen + |t|);
        NormalizeAppend(t, EncodedWith(b[1..], lineLen + |t|, "\r\n"));
      }
    }
  }

  /** After LF normalisation of the whole message each CRLF pair comes back as LF, and nothing else changes. */
  lemma NormalizedRoundTrip(b: ByteString)
    ensures Decoded(NormalizeRaw(Encoded(b)), false) == Ok(CollapseCrlf(b))
  {
    NormalizeEncoded(b, 0);
    DecodedEncodedWith(b, 0, "\n");
    WithLfIsCollapse(b);
  }

  // ----- lines -----------------------------------------------------------------------------

  lemma {:induction false} LinesAfterToken(t: string, rest: string)
    requires '\n' !in t
    ensures Lines(t + rest) == [t + Lines(rest)[0]] + Lines(rest)[1..]
  {
    var ls := Lines(rest);
    if t == "" {
      assert t + rest == rest && "" + ls[0] == ls[0];
      assert ls == [ls[0]] + ls[1..];
    } else {
      LinesAfterToken(t[1..], rest);
      TailAppend(t, rest);
      Assoc([t[0]], t[1..], ls[0]);
      assert [t[0]] + t[1..] == t;
    }
  }

  /** The lines of an encoding that starts in column `lineLen`: bounded, and literal where no escape shows. */
  ghost predicate GoodLines(ls: seq<string>, b: string, lineLen: nat) {
    && |ls| >= 1
    && lineLen + |ls[0]| <= 76
    && (forall i :: 1 <= i < |ls| ==> |ls[i]| <= 76)
    && ('=' !in ls[0] ==> ls[0] <= b)
    && (forall i :: 1 <= i < |ls| ==> '=' !in ls[i] ==> Contains(b, ls[i]))
  }

  lemma ContainsInTail(b: string, k: nat, p: string)
    requires k <= |b|
    ensures Contains(b[k..], p) ==> Contains(b, p)
    ensures p <= b[k..] ==> Contains(b, p)
  {
    if p <= b[k..] { assert OccursAt(b, p, k); }
    if Contains(b[k..], p) {
      var i: nat :| i + |p| <= |b[k..]| && OccursAt(b[k..], p, i);
      assert b[k..][i..i + |p|] == b[k + i..k + i + |p|];
      assert OccursAt(b, p, k + i);
    }
  }

  lemma GoodLinesAfterBreak(head: string, ls: seq<string>, b: string, k: nat, lineLen: nat)
    requires k <= |b|
    requires GoodLines(ls, b[k..], 0) && lineLen + |head| <= 76
    requires '=' !in head ==> head <= b
    ensures GoodLines([head] + ls, b, lineLen)
  {
    forall i | 0 <= i < |ls| && '=' !in ls[i] ensures Contains(b, ls[i]) {
      ContainsInTail(b, k, ls[i]);
    }
  }

  lemma GoodLinesAfterToken(ls: seq<string>, b: string, lineLen: nat)
    requires b != "" && GoodLines(ls, b[1..], lineLen + |Token(b[0])|)
    ensures GoodLines([Token(b[0]) + ls[0]] + ls[1..], b, lineLen)
  {
    var ls' := [Token(b[0]) + ls[0]] + ls[1..];
    forall i | 1 <= i < |ls'| && '=' !in ls'[i] ensures Contains(b, ls'[i]) {
      ContainsInTail(b, 1, ls[i]);
    }
    if '=' !in ls'[0] {
      assert Token(b[0])[0] in ls'[0];
      assert Literal(b[0]);
      assert forall c :: c in ls[0] ==> c in ls'[0];
      assert b == [b[0]] + b[1..];
    }
  }

  lemma SoftBreakLines(b: string, rest: string, lineLen: nat)
    requires b != "" && lineLen <= 75
    requires GoodLines(Lines(rest), b[1..], |Token(b[0])|)
    ensures GoodLines(Lines("=" + "\n" + Token(b[0]) + rest), b, lineLen)
  {
    var t := Token(b[0]);
    LinesAfterToken(t, rest);
    GoodLinesAfterToken(Lines(rest), b, 0);
    LinesAppend("=", t + rest);
    Assoc("=" + "\n", t, rest);
    SplitNone("=", '\n');
    assert b[0..] == b;
    GoodLinesAfterBreak("=", Lines(t + rest), b, 0, lineLen);
  }

  lemma HardBreakLines(b: string, rest: string, lineLen: nat)
    requires |b| >= 2 && lineLen <= 75
    requires GoodLines(Lines(rest), b[2..], 0)
    ensures GoodLines(Lines("\n" + rest), b, lineLen)
  {
    LinesAppend("", rest);
    assert "" + "\n" + rest == "\n" + rest;
    GoodLinesAfterBreak("", Lines(rest), b, 2, lineLen);
  }

  lemma {:induction false} EncodedLines(b: string, lineLen: nat)
    requires lineLen <= 75
    ensures GoodLines(Lines(EncodedWith(b, lineLen, "\n")), b, lineLen)
  {
    if b == "" {
    } else if |b| >= 2 && b[0] == '\r' && b[1] == '\n' {
      EncodedLines(b[2..], 0);
      HardBreakLines(b, EncodedWith(b[2..], 0, "\n"), lineLen);
    } else {
      var t := Token(b[0]);
      if lineLen + |t| > 75 {
        EncodedLines(b[1..], |t|);
        SoftBreakLines(b, EncodedWith(b[1..], |t|, "\n"), lineLen);
      } else {
        var rest := EncodedWith(b[1..], lineLen + |t|, "\n");
        EncodedLines(b[1..], lineLen + |t|);
        LinesAfterToken(t, rest);
        GoodLinesAfterToken(Lines(rest), b, lineLen);
      }
    }
  }

  /** No line of an encoded body is longer than 76 characters, soft-break `=` included. */
  lemma LineBound(b: string)
    ensures forall i :: 0 <= i < |Lines(NormalizeRaw(Encoded(b)))| ==> |Lines(NormalizeRaw(Encoded(b)))[i]| <= 76
  {
    NormalizeEncoded(b, 0);
    EncodedLines(b, 0);
  }

  /** An encoded line free of `=` stands in the body as it is. */
  lemma LiteralLine(b: string, line: string)
    requires line in Lines(NormalizeRaw(Encoded(b)))
    requires '=' !in line
    ensures Contains(b, line)
  {
    NormalizeEncoded(b, 0);
    EncodedLines(b, 0);
    ContainsInTail(b, 0, line);
    assert b[0..] == b;
  }

  // ----- decoding a text cut short ---------------------------------------------------------

  /** A text cut at the end of a line does not decode, or decodes to less. */
  lemma {:induction false} CutDecodesToLess(a: string, c: string)
    requires Decoded(a + "\n" + c, false).Ok?
    ensures Decoded(a, false).Err? || |Decoded(a, false).value| < |Decoded(a + "\n" + c, false).value|
    decreases |a|
  {
    var s := a + "\n" + c;
    if a == "" {
      assert s[0] == '\n';
    } else if a[0] != '=' {
      assert s[1..] == a[1..] + "\n" + c;
      CutDecodesToLess(a[1..], c);
    } else if |a| >= 2 && a[1] == '\n' {
      assert s[2..] == a[2..] + "\n" + c;
      CutDecodesToLess(a[2..], c);
    } else if |a| >= 3 && Decoded(a, false).Ok? {
      assert s[3..] == a[3..] + "\n" + c;
      CutDecodesToLess(a[3..], c);
    }
  }

  // ----- what the encoding leaves alone ----------------------------------------------------

  function UpperChar(c: char): char {
    if 'a' <= c <= 'z' then (c as int - 32) as char else c
  }

  lemma Nibbles(h: nat, l: nat, b: nat)
    requires h < 16 && l < 16 && b < 256
    ensures h * 16 + l == b <==> h == b / 16 % 16 && l == b % 16
  {
  }

  /** Two characters name a byte exactly if they are its hexadecimal digits, in either case. */
  lemma HexPairsExactly(b: char, hi: char, lo: char)
    requires b as int < 256
    ensures HexByte(hi, lo) == Some(b) <==> UpperChar(hi) == HexPair(b)[0] && UpperChar(lo) == HexPair(b)[1]
  {
    HexDigitsExactly(b as int / 16 % 16, hi);
    HexDigitsExactly(b as int % 16, lo);
    if HexValue(hi).Some? && HexValue(lo).Some? {
      Nibbles(HexValue(hi).value, HexValue(lo).value, b as int);
    }
  }

  lemma HexDigitsExactly(n: nat, c: char)
    requires n < 16
    ensures HexValue(c) == Some(n) <==> UpperChar(c) == HexDigit(n)
  {
  }

  /** Printable ASCII other than the equals sign, spaces and tabs. */
  predicate Printable(s: string) {
    forall i :: 0 <= i < |s| ==> s[i] == '\t' || (32 <= s[i] as int <= 126 && s[i] != '=')
  }

  /** A printable line that fits is written as it is. */
  lemma {:induction false} PrintableStays(s: string, lineLen: nat, eol: string)
    requires Printable(s) && lineLen + |s| <= 75
    ensures EncodedWith(s, lineLen, eol) == s
    decreases |s|
  {
    if s != "" {
      PrintableStays(s[1..], lineLen + 1, eol);
      assert s == [s[0]] + s[1..];
    }
  }

  lemma FourPieces(first: string, mid: string, eol: string, last: string)
    ensures first + (mid + eol + last) == first + mid + eol + last
  {
    Assoc(first, mid, eol);
    Assoc(first, mid + eol, last);
  }

  lemma EncodeOne(s: string, lineLen: nat, eol: string)
    requires s != "" && !(|s| >= 2 && s[0] == '\r' && s[1] == '\n')
    ensures var n := |Token(s[0])|;
            EncodedWith(s, lineLen, eol) ==
              (if lineLen + n > 75 then "=" + eol + Token(s[0]) else Token(s[0])) +
              EncodedWith(s[1..], if lineLen + n > 75 then n else lineLen + n, eol)
  {
  }

  /** Lines are encoded one by one. */
  lemma {:induction false} LinesEncodeApart(a: string, b: string, lineLen: nat, eol: string)
    requires a != "" ==> a[|a| - 1] != '\r'
    ensures EncodedWith(a + "\r\n" + b, lineLen, eol) == EncodedWith(a, lineLen, eol) + eol + EncodedWith(b, 0, eol)
    decreases |a|
  {
    var s := a + "\r\n" + b;
    if a == "" {
      assert s[0] == '\r' && s[1] == '\n' && s[2..] == b;
      assert "" + eol == eol;
    } else if |a| >= 2 && a[0] == '\r' && a[1] == '\n' {
      LinesEncodeApart(a[2..], b, 0, eol);
      assert s[2..] == a[2..] + "\r\n" + b && s[0] == a[0] && s[1] == a[1];
      FourPieces(eol, EncodedWith(a[2..], 0, eol), eol, EncodedWith(b, 0, eol));
    } else {
      var t := Token(a[0]);
      var next := if lineLen + |t| > 75 then |t| else lineLen + |t|;
      LinesEncodeApart(a[1..], b, next, eol);
      assert s[1..] == a[1..] + "\r\n" + b && s[0] == a[0] && s[1] == if |a| >= 2 then a[1] else '\r';
      EncodeOne(a, lineLen, eol);
      EncodeOne(s, lineLen, eol);
      FourPieces(if lineLen + |t| > 75 then "=" + eol + t else t, EncodedWith(a[1..], next, eol), eol, EncodedWith(b, 0, eol));
    }
  }

  /** A line ends in an equals sign only if it is full: the next character would not have fitted. */
  ghost predicate SoftLinesFull(ls: seq<string>, lineLen: nat) {
    forall i :: 0 <= i < |ls| - 1 && ls[i] != "" && ls[i][|ls[i]| - 1] == '=' ==>
      (if i == 0 then lineLen else 0) + |ls[i]| >= 74
  }

  lemma FullAfterToken(t: string, ls: seq<string>, lineLen: nat)
    requires |ls| >= 1 && t != "" && t[|t| - 1] != '=' && SoftLinesFull(ls, lineLen + |t|)
    ensures SoftLinesFull([t + ls[0]] + ls[1..], lineLen)
  {
    var r := [t + ls[0]] + ls[1..];
    forall i | 0 <= i < |r| - 1 && r[i] != "" && r[i][|r[i]| - 1] == '='
      ensures (if i == 0 then lineLen else 0) + |r[i]| >= 74
    {
      if i == 0 && ls[0] != "" { assert r[0][|r[0]| - 1] == ls[0][|ls[0]| - 1]; }
      if i > 0 { assert r[i] == ls[i]; }
    }
  }

  lemma FullAfterBreak(head: string, ls: seq<string>, lineLen: nat)
    requires SoftLinesFull(ls, 0) && (head == "" || lineLen + |head| >= 74)
    ensures SoftLinesFull([head] + ls, lineLen)
  {
    var r := [head] + ls;
    assert forall i :: 1 <= i < |r| ==> r[i] == ls[i - 1];
  }

  lemma SoftBreakFull(t: string, rest: string, lineLen: nat)
    requires '\n' !in t && t != "" && t[|t| - 1] != '=' && lineLen >= 73 && SoftLinesFull(Lines(rest), |t|)
    ensures SoftLinesFull(Lines("=" + "\n" + t + rest), lineLen)
  {
    LinesAfterToken(t, rest);
    SplitPieces(rest, '\n');
    FullAfterToken(t, Lines(rest), 0);
    LinesAppend("=", t + rest);
    Assoc("=" + "\n", t, rest);
    SplitNone("=", '\n');
    FullAfterBreak("=", Lines(t + rest), lineLen);
  }

  lemma TokenEnds(b: char)
    ensures Token(b) != "" && Token(b)[|Token(b)| - 1] != '=' && '\n' !in Token(b)
  {
  }

  lemma {:induction false} EncodedFull(b: string, lineLen: nat)
    ensures SoftLinesFull(Lines(EncodedWith(b, lineLen, "\n")), lineLen)
    decreases |b|
  {
    if b == "" {
      SplitNone("", '\n');
    } else if |b| >= 2 && b[0] == '\r' && b[1] == '\n' {
      var rest := EncodedWith(b[2..], 0, "\n");
      EncodedFull(b[2..], 0);
      LinesAppend("", rest);
      assert "" + "\n" + rest == "\n" + rest;
      FullAfterBreak("", Lines(rest), lineLen);
    } else {
      var t := Token(b[0]);
      TokenEnds(b[0]);
      if lineLen + |t| > 75 {
        EncodedFull(b[1..], |t|);
        SoftBreakFull(t, EncodedWith(b[1..], |t|, "\n"), lineLen);
      } else {
        var rest := EncodedWith(b[1..], lineLen + |t|, "\n");
        EncodedFull(b[1..], lineLen + |t|);
        LinesAfterToken(t, rest);
        SplitPieces(rest, '\n');
        FullAfterToken(t, Lines(rest), lineLen);
      }
    }
  }

  /** Soft breaks come only where a line is full: a line that ends in one has 74 characters or more. */
  lemma SoftBreaksLate(b: string, i: nat)
    requires var ls := Lines(NormalizeRaw(Encoded(b)));
             i + 1 < |ls| && ls[i] != "" && ls[i][|ls[i]| - 1] == '='
    ensures |Lines(NormalizeRaw(Encoded(b)))[i]| >= 74
  {
    NormalizeEncoded(b, 0);
    EncodedFull(b, 0);
  }
}
