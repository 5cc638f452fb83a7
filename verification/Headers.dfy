/** Rendering a header block and reading it back. */
module Headers {
  import opened Wrappers
  import opened Text
  import opened Folding
  import EW = EncodedWords

  datatype Header = Header(name: string, value: string)

  // ----- lookup ----------------------------------------------------------------------------

  /** `eq_ignore_ascii_case` */
  predicate Matches(name: string, wanted: string) {
    Lower(name) == Lower(wanted)
  }

  /** `header_value`: the last header of that name wins. */
  function HeaderValue(hs: seq<Header>, name: string): Option<string> {
    if hs == [] then None
    else
      match HeaderValue(hs[1..], name)
      case Some(v) => Some(v)
      case None => if Matches(hs[0].name, name) then Some(hs[0].value) else None
  }

  /** `set_header`: the first header of that name is overwritten, or a new one appended. */
  function SetHeader(hs: seq<Header>, name: string, value: string): seq<Header> {
    if hs == [] then [Header(name, value)]
    else if Matches(hs[0].name, name) then [Header(hs[0].name, value)] + hs[1..]
    else [hs[0]] + SetHeader(hs[1..], name, value)
  }

  /** `set_header` as a loop over the list */
  method PutHeader(hs: seq<Header>, name: string, value: string) returns (r: seq<Header>)
    ensures r == SetHeader(hs, name, value)
  {
    assert hs[0..] == hs && [] + SetHeader(hs, name, value) == SetHeader(hs, name, value);
    for k := 0 to |hs|
      invariant SetHeader(hs, name, value) == hs[..k] + SetHeader(hs[k..], name, value)
    {
      assert hs[k..][1..] == hs[k + 1..];
      if Matches(hs[k].name, name) {
        return hs[k := Header(hs[k].name, value)];
      }
      assert hs[..k + 1] == hs[..k] + [hs[k]];
      Assoc(hs[..k], [hs[k]], SetHeader(hs[k + 1..], name, value));
    }
    return hs + [Header(name, value)];
  }

  /** How many headers carry the name. */
  function NameCount(hs: seq<Header>, name: string): nat {
    if hs == [] then 0 else (if Matches(hs[0].name, name) then 1 else 0) + NameCount(hs[1..], name)
  }

  lemma {:induction false} AbsentName(hs: seq<Header>, name: string)
    ensures HeaderValue(hs, name).None? <==> NameCount(hs, name) == 0
  {
    if hs != [] { AbsentName(hs[1..], name); }
  }

  /** Names are told apart without regard to case. */
  lemma {:induction false} CaseIgnored(hs: seq<Header>, a: string, b: string, value: string)
    requires Lower(a) == Lower(b)
    ensures HeaderValue(hs, a) == HeaderValue(hs, b) && NameCount(hs, a) == NameCount(hs, b)
    ensures HeaderValue([Header(a, value)], b) == Some(value)
  {
    assert [Header(a, value)][1..] == [];
    if hs != [] { CaseIgnored(hs[1..], a, b, value); }
  }

  /** What was set is what is read exactly when at most one header carried the name, or the last one has the value. */
  lemma {:induction false} SetThenGet(hs: seq<Header>, name: string, value: string)
    ensures NameCount(hs, name) <= 1 ==> HeaderValue(SetHeader(hs, name, value), name) == Some(value)
    ensures NameCount(hs, name) >= 2 ==> HeaderValue(SetHeader(hs, name, value), name) == HeaderValue(hs, name)
    ensures NameCount(SetHeader(hs, name, value), name) == if NameCount(hs, name) == 0 then 1 else NameCount(hs, name)
  {
    if hs != [] {
      AbsentName(hs[1..], name);
      if Matches(hs[0].name, name) {
        assert ([Header(hs[0].name, value)] + hs[1..])[1..] == hs[1..];
      } else {
        SetThenGet(hs[1..], name, value);
        AbsentName(SetHeader(hs[1..], name, value), name);
        assert ([hs[0]] + SetHeader(hs[1..], name, value))[1..] == SetHeader(hs[1..], name, value);
      }
    }
  }

  lemma {:induction false} ValueHasHeader(hs: seq<Header>, name: string)
    requires HeaderValue(hs, name).Some?
    ensures exists i :: 0 <= i < |hs| && hs[i].value == HeaderValue(hs, name).value && Matches(hs[i].name, name)
  {
    if HeaderValue(hs[1..], name).Some? {
      ValueHasHeader(hs[1..], name);
      var i :| 0 <= i < |hs[1..]| && hs[1..][i].value == HeaderValue(hs[1..], name).value && Matches(hs[1..][i].name, name);
      assert hs[i + 1] == hs[1..][i];
    }
  }

  /** Setting one name leaves the others alone. */
  lemma {:induction false} SetOther(hs: seq<Header>, name: string, value: string, other: string)
    requires !Matches(name, other)
    ensures HeaderValue(SetHeader(hs, name, value), other) == HeaderValue(hs, other)
    ensures NameCount(SetHeader(hs, name, value), other) == NameCount(hs, other)
  {
    if hs != [] {
      if Matches(hs[0].name, name) {
        assert ([Header(hs[0].name, value)] + hs[1..])[1..] == hs[1..];
      } else {
        SetOther(hs[1..], name, value, other);
        assert ([hs[0]] + SetHeader(hs[1..], name, value))[1..] == SetHeader(hs[1..], name, value);
      }
    }
  }

  /** Every header after a set is an old one, or one of that name with the new value. */
  lemma {:induction false} SetMembers(hs: seq<Header>, name: string, value: string)
    ensures forall h :: h in SetHeader(hs, name, value) ==>
              h in hs || h == Header(name, value) || exists g :: g in hs && Matches(g.name, name) && h == Header(g.name, value)
  {
    if hs != [] && !Matches(hs[0].name, name) { SetMembers(hs[1..], name, value); }
  }

  // ----- validation and rendering ----------------------------------------------------------

  predicate ValidNameChar(c: char) {
    ('!' <= c <= '9' || ';' <= c <= '~') && c != ':'
  }

  predicate ValidName(name: string) {
    name != "" && forall i :: 0 <= i < |name| ==> ValidNameChar(name[i])
  }

  predicate ValidValue(value: string) {
    '\r' !in value && '\n' !in value
  }

  /** `maybe_encode_header_value` */
  function MaybeEncode(value: string): string {
    if IsAscii(value) then value else EW.QEncoded(value)
  }

  const BAD_NAME := "MIME header names must be non-empty RFC 5322 field names"
  const BAD_VALUE := "MIME header values must not contain line breaks"

  /** `render_headers` */
  function Rendered(hs: seq<Header>): Result<string> {
    if hs == [] then Ok("")
    else if !ValidName(hs[0].name) then Err(BAD_NAME)
    else if !ValidValue(hs[0].value) then Err(BAD_VALUE)
    else
      var rest :- Rendered(hs[1..]);
      Ok(Folded(hs[0].name, MaybeEncode(hs[0].value)) + "\r\n" + rest)
  }

  method RenderHeaders(hs: seq<Header>) returns (r: Result<string>)
    ensures r == Rendered(hs)
  {
    var output := "";
    EW.QP.PrependUnit("", Rendered(hs));
    assert hs[0..] == hs;
    for k := 0 to |hs|
      invariant Rendered(hs) == EW.QP.Prepend(output, Rendered(hs[k..]))
    {
      var rest := hs[k..];
      if !ValidName(hs[k].name) { return Err(BAD_NAME); }
      if !ValidValue(hs[k].value) { return Err(BAD_VALUE); }
      var encoded := MaybeEncode(hs[k].value);
      var line := FoldHeaderLine(hs[k].name, encoded);
      assert rest[1..] == hs[k + 1..];
      EW.QP.PrependAppend(output, line + "\r\n", Rendered(rest[1..]));
      output := output + (line + "\r\n");
    }
    EW.QP.PrependUnit(output, Ok(""));
    r := Ok(output);
  }

  // ----- parsing ---------------------------------------------------------------------------

  /** The header being read: its name and the value gathered so far. */
  type Pending = Option<(string, string)>

  /** The header that a pending one becomes once its value is complete. */
  function Finished(current: Pending): Result<seq<Header>> {
    match current
    case None => Ok([])
    case Some((name, value)) => Completed(name, EW.DecodeWords(Trim(value)))
  }

  function Completed(name: string, decoded: Result<string>): Result<seq<Header>> {
    if decoded.Ok? then Ok([Header(name, decoded.value)]) else Err(decoded.error)
  }

  predicate Continues(line: string) {
    line != "" && (line[0] == ' ' || line[0] == '\t')
  }

  function ParsedLines(lines: seq<string>, current: Pending): Result<seq<Header>>
    decreases |lines|
  {
    if lines == [] then Finished(current)
    else if Continues(lines[0]) then
      if current.None? then Err("malformed folded MIME header")
      else ParsedLines(lines[1..], Some((current.value.0, current.value.1 + " " + Trim(lines[0]))))
    else
      var done :- Finished(current);
      var start :- StartLine(lines[0]);
      var rest :- ParsedLines(lines[1..], Some(start));
      Ok(done + rest)
  }

  /** A line that opens a header, cut at its first colon. */
  function StartLine(line: string): Result<(string, string)> {
    match SplitOnce(line, ':')
    case None => Err("malformed MIME header")
    case Some((name, value)) =>
      if ValidName(name) then Ok((name, Trim(value))) else Err(BAD_NAME)
  }

  /** `parse_headers` */
  function Parsed(raw: string): Result<seq<Header>> {
    ParsedLines(Lines(raw), None)
  }

  function PrependHeaders(hs: seq<Header>, r: Result<seq<Header>>): Result<seq<Header>> {
    if r.Ok? then Ok(hs + r.value) else r
  }

  lemma PrependHeadersTwice(a: seq<Header>, b: seq<Header>, r: Result<seq<Header>>)
    ensures PrependHeaders(a, PrependHeaders(b, r)) == PrependHeaders(a + b, r)
  {
    if r.Ok? { Assoc(a, b, r.value); }
  }

  lemma PrependNone(r: Result<seq<Header>>)
    ensures PrependHeaders([], r) == r
  {
    if r.Ok? { assert [] + r.value == r.value; }
  }

  /** A line that opens a header completes the pending one first. */
  lemma ParsedStart(lines: seq<string>, current: Pending)
    requires lines != [] && !Continues(lines[0]) && Finished(current).Ok? && StartLine(lines[0]).Ok?
    ensures ParsedLines(lines, current)
         == PrependHeaders(Finished(current).value, ParsedLines(lines[1..], Some(StartLine(lines[0]).value)))
  {
  }

  method ParseHeaders(raw: string) returns (r: Result<seq<Header>>)
    ensures r == Parsed(raw)
  {
    var headers: seq<Header> := [];
    var current: Pending := None;
    var lines := Lines(raw);
    assert lines[0..] == lines;
    PrependNone(Parsed(raw));
    for k := 0 to |lines|
      invariant Parsed(raw) == PrependHeaders(headers, ParsedLines(lines[k..], current))
    {
      var line := lines[k];
      ghost var rest := lines[k..];
      assert rest[1..] == lines[k + 1..];
      if Continues(line) {
        if current.None? { return Err("malformed folded MIME header"); }
        current := Some((current.value.0, current.value.1 + " " + Trim(line)));
        continue;
      }
      var done := Finished(current);
      if done.Err? { return done; }
      var start := StartLine(line);
      if start.Err? { return Err(start.error); }
      ParsedStart(rest, current);
      PrependHeadersTwice(headers, done.value, ParsedLines(lines[k + 1..], Some(start.value)));
      headers := headers + done.value;
      current := Some(start.value);
    }
    var done := Finished(current);
    if done.Err? { return done; }
    r := Ok(headers + done.value);
  }

  // ----- what is accepted ------------------------------------------------------------------

  /** Headers are rendered exactly if every name is printable ASCII without colons and no value has a line break. */
  lemma {:induction false} RenderedExactly(hs: seq<Header>)
    ensures Rendered(hs).Ok? <==>
            forall i :: 0 <= i < |hs| ==>
              && hs[i].name != ""
              && (forall k :: 0 <= k < |hs[i].name| ==> 33 <= hs[i].name[k] as int <= 126 && hs[i].name[k] != ':')
              && '\r' !in hs[i].value && '\n' !in hs[i].value
  {
    if hs != [] {
      RenderedExactly(hs[1..]);
      NameExactly(hs[0].name);
      assert forall i :: 1 <= i < |hs| ==> hs[i] == hs[1..][i - 1];
      assert forall i :: 0 <= i < |hs[1..]| ==> hs[1..][i] == hs[i + 1];
    }
  }

  lemma NameExactly(name: string)
    ensures ValidName(name) <==> name != "" && forall k :: 0 <= k < |name| ==> 33 <= name[k] as int <= 126 && name[k] != ':'
  {
    forall k | 0 <= k < |name| ensures ValidNameChar(name[k]) <==> 33 <= name[k] as int <= 126 && name[k] != ':' {
    }
  }

  /**
   A header spread over any lines that begin with a space or a tab is read as its pieces, trimmed and
   joined by single spaces; the encoded words of the whole are decoded.
   */
  lemma SpreadHeaderReads(name: string, first: string, conts: seq<string>)
    requires ValidName(name) && forall l :: l in conts ==> l != "" && (l[0] == ' ' || l[0] == '\t')
    ensures ParsedLines([name + ":" + first] + conts, None)
         == Completed(name, EW.DecodeWords(Trim(Accumulated(Trim(first), conts))))
  {
    var line := name + ":" + first;
    var all := [line] + conts;
    ValidNameHas(name);
    assert line == name + [':'] + first;
    SplitOnceAt(name, ':', first);
    assert line[0] == name[0] && ValidNameChar(name[0]);
    assert all[0] == line && all[1..] == conts;
    ParsedStart(all, None);
    ParsedContinuations(name, Trim(first), conts, []);
    assert conts + [] == conts;
    PrependNone(ParsedLines(conts, Some((name, Trim(first)))));
  }

  /** A line that opens no header: a fold with nothing before it, no colon, or a bad name. */
  lemma BadLineFails(lines: seq<string>)
    requires lines != []
    requires || (lines[0] != "" && (lines[0][0] == ' ' || lines[0][0] == '\t'))
             || ':' !in lines[0]
             || (exists name, rest :: lines[0] == name + ":" + rest && ':' !in name && !ValidName(name))
    ensures ParsedLines(lines, None).Err?
  {
    if !Continues(lines[0]) && ':' in lines[0] {
      var name, rest :| lines[0] == name + ":" + rest && ':' !in name && !ValidName(name);
      assert lines[0] == name + [':'] + rest;
      SplitOnceAt(name, ':', rest);
    }
  }

  // ----- one header ------------------------------------------------------------------------

  /**
   The values that survive being composed into a header and parsed back: every non-ASCII value, and
   every ASCII value without surrounding whitespace, complete encoded word or fold beside whitespace.
   */
  predicate Survives(name: string, value: string) {
    !IsAscii(value) || (Trimmed(value) && EW.FirstWord(value).None? && FoldsCleanly(name, value))
  }

  lemma {:induction false} ParsedContinuations(name: string, value: string, conts: seq<string>, rest: seq<string>)
    requires forall l :: l in conts ==> Continues(l)
    ensures ParsedLines(conts + rest, Some((name, value))) == ParsedLines(rest, Some((name, Accumulated(value, conts))))
    decreases |conts|
  {
    if conts == [] {
      assert conts + rest == rest;
    } else {
      TailAppend(conts, rest);
      ParsedContinuations(name, value + " " + Trim(conts[0]), conts[1..], rest);
    }
  }

  lemma ValidNameHas(name: string)
    requires ValidName(name)
    ensures ' ' !in name && ':' !in name && '\r' !in name && '\n' !in name && IsAscii(name)
  {
  }

  /** The physical lines of one header leave it pending with its gathered value. */
  lemma ParsedHeader(name: string, value: string, rest: seq<string>, current: Pending)
    requires ValidName(name) && ' ' !in name && Finished(current).Ok?
    ensures ParsedLines(FoldedLines(name, value) + rest, current)
         == PrependHeaders(Finished(current).value, ParsedLines(rest, Some((name, Gathered(name, value)))))
  {
    var ls := FoldedLines(name, value);
    FirstLineHoldsName(name, value);
    ValidNameHas(name);
    var tail := ls[0][|name| + 1..];
    assert ls[0] == name + [':'] + tail;
    SplitOnceAt(name, ':', tail);
    assert ls[0][0] == name[0];
    ContinuationLines(name, value);
    TailAppend(ls, rest);
    ParsedStart(ls + rest, current);
    ParsedContinuations(name, Trim(tail), ls[1..], rest);
  }

  lemma ContinuationLines(name: string, value: string)
    ensures forall l :: l in FoldedLines(name, value)[1..] ==> Continues(l)
  {
    var ls := FoldedLines(name, value);
    forall l | l in ls[1..] ensures Continues(l) {
      var k :| 0 <= k < |ls[1..]| && ls[1..][k] == l;
      var ps := Pack(Split(name + ": " + value, ' '), "");
      assert l == Indented(ps[1..])[k];
    }
  }

  lemma CompletedAs(name: string, decoded: Result<string>, value: string)
    ensures Completed(name, decoded) == Ok([Header(name, value)]) <==> decoded == Ok(value)
  {
    if Completed(name, decoded) == Ok([Header(name, value)]) {
      assert Completed(name, decoded).value[0] == Header(name, value);
    }
  }

  lemma DecodesUnfoldedWord(name: string, value: Utf8)
    requires ' ' !in name && IsAscii(name)
    ensures EW.DecodeWords(Unfolded(name, EW.QEncoded(value))) == Ok(value)
  {
    EW.RoundTrip(value);
    EncodedUnfolds(name, EW.QEncoded(value)) by { EW.QEncodedChars(value); }
  }

  lemma EncodedUnfolds(name: string, e: string)
    requires ' ' !in name && IsAscii(name) && e != "" && forall c :: c in e ==> EW.SafeChar(c)
    ensures Unfolded(name, e) == e
  {
    assert IsAscii(e) && Bare(e) && ' ' !in e by {
      assert forall i :: 0 <= i < |e| ==> e[i] in e;
    }
    SplitNone(e, ' ');
    SingleSpaced(name, e);
    UnfoldExact(name, e);
  }

  lemma DecodesUnfolded(name: string, value: string)
    requires ' ' !in name && IsAscii(name) && IsAscii(value)
    ensures EW.DecodeWords(Unfolded(name, value)) == Ok(value) <==>
            Trimmed(value) && EW.FirstWord(value).None? && FoldsCleanly(name, value)
  {
    UnfoldExact(name, value);
    DecodesTo(Unfolded(name, value), value);
  }

  /** A string no longer than `value` decodes to `value` only if it is `value` and holds no encoded word. */
  lemma DecodesTo(u: string, value: string)
    requires |u| <= |value|
    ensures EW.DecodeWords(u) == Ok(value) <==> u == value && EW.FirstWord(value).None?
  {
    EW.DecodeWordsShrinks(u);
    EW.DecodesToItself(u);
  }

  lemma DecodesSurvivor(h: Header)
    requires ValidName(h.name) && ValidUtf8(h.value) && ' ' !in h.name
    ensures EW.DecodeWords(Unfolded(h.name, MaybeEncode(h.value))) == Ok(h.value) <==> Survives(h.name, h.value)
  {
    ValidNameHas(h.name);
    if IsAscii(h.value) {
      DecodesUnfolded(h.name, h.value);
    } else {
      DecodesUnfoldedWord(h.name, h.value);
    }
  }

  /** The physical lines of a header leave it pending with a value that decodes back exactly if it survives. */
  lemma ParsedOne(h: Header, rest: seq<string>, current: Pending) returns (g: string)
    requires ValidName(h.name) && ValidUtf8(h.value) && Finished(current).Ok?
    ensures ParsedLines(FoldedLines(h.name, MaybeEncode(h.value)) + rest, current)
         == PrependHeaders(Finished(current).value, ParsedLines(rest, Some((h.name, g))))
    ensures Finished(Some((h.name, g))) == Ok([h]) <==> Survives(h.name, h.value)
  {
    ValidNameHas(h.name);
    var e := MaybeEncode(h.value);
    g := Gathered(h.name, e);
    ParsedHeader(h.name, e, rest, current);
    DecodesSurvivor(h);
    CompletedAs(h.name, EW.DecodeWords(Trim(g)), h.value);
  }

  /** A composed header reads back as itself exactly when its value survives. */
  lemma HeaderRoundTrip(h: Header)
    requires ValidName(h.name) && ValidUtf8(h.value)
    ensures ParsedLines(FoldedLines(h.name, MaybeEncode(h.value)), None) == Ok([h]) <==> Survives(h.name, h.value)
  {
    var g := ParsedOne(h, [], None);
    assert FoldedLines(h.name, MaybeEncode(h.value)) + [] == FoldedLines(h.name, MaybeEncode(h.value));
    PrependNone(ParsedLines([], Some((h.name, g))));
  }

  // ----- a header block --------------------------------------------------------------------

  /** The physical lines of a header block. */
  function BlockLines(hs: seq<Header>): seq<string> {
    if hs == [] then [] else FoldedLines(hs[0].name, MaybeEncode(hs[0].value)) + BlockLines(hs[1..])
  }

  predicate Composable(h: Header) {
    ValidName(h.name) && ValidValue(h.value) && ValidUtf8(h.value) && Survives(h.name, h.value)
  }

  /** Every header of a composed block comes back, in order. */
  lemma {:induction false} BlockRoundTrip(hs: seq<Header>, current: Pending)
    requires forall h :: h in hs ==> Composable(h)
    requires Finished(current).Ok?
    ensures ParsedLines(BlockLines(hs), current) == Ok(Finished(current).value + hs)
  {
    if hs == [] {
      assert Finished(current).value + hs == Finished(current).value;
    } else {
      assert Composable(hs[0]);
      var g := ParsedOne(hs[0], BlockLines(hs[1..]), current);
      BlockRoundTrip(hs[1..], Some((hs[0].name, g)));
      assert [hs[0]] + hs[1..] == hs;
    }
  }

  // ----- the text of a block ---------------------------------------------------------------

  function Unlines(ls: seq<string>): string {
    if ls == [] then "" else ls[0] + "\n" + Unlines(ls[1..])
  }

  lemma {:induction false} UnlinesAppend(a: seq<string>, b: seq<string>)
    ensures Unlines(a + b) == Unlines(a) + Unlines(b)
  {
    if a == [] {
      assert a + b == b;
    } else {
      UnlinesAppend(a[1..], b);
      TailAppend(a, b);
      Assoc(a[0] + "\n", Unlines(a[1..]), Unlines(b));
    }
  }

  lemma {:induction false} UnlinesIsJoin(ls: seq<string>)
    requires ls != []
    ensures Unlines(ls) == Join(ls, "\n") + "\n"
  {
    if |ls| == 1 {
      assert ls[0] + "\n" + "" == ls[0] + "\n";
    } else {
      UnlinesIsJoin(ls[1..]);
      Assoc(ls[0] + "\n", Join(ls[1..], "\n"), "\n");
    }
  }

  lemma {:induction false} NormalizeJoin(ls: seq<string>)
    requires forall l :: l in ls ==> '\r' !in l && '\n' !in l
    ensures NormalizeRaw(Join(ls, "\r\n")) == Join(ls, "\n")
  {
    if ls != [] {
      assert ls[0] in ls;
      NormalizeIdentity(ls[0]);
      if |ls| > 1 {
        NormalizeJoin(ls[1..]);
        NormalizeCrlf("\r\n");
        NormalizeAppend(ls[0], "\r\n");
        NormalizeAppend(ls[0] + "\r\n", Join(ls[1..], "\r\n"));
      }
    }
  }

  /** The physical lines of valid headers are non-empty, unbroken, and marked by a colon or an indent. */
  ghost predicate HeaderLine(l: string) {
    l != "" && '\r' !in l && '\n' !in l && (l[0] == ' ' || ':' in l)
  }

  predicate Valid(h: Header) {
    ValidName(h.name) && ValidValue(h.value)
  }

  lemma HeaderLines(h: Header)
    requires Valid(h)
    ensures forall l :: l in FoldedLines(h.name, MaybeEncode(h.value)) ==> HeaderLine(l)
  {
    var e := MaybeEncode(h.value);
    ValidNameHas(h.name);
    EW.QEncodedChars(h.value);
    assert ValidValue(e);
    FoldedChars(h.name, e, '\r');
    FoldedChars(h.name, e, '\n');
    FirstLineHoldsName(h.name, e);
    var ls := FoldedLines(h.name, e);
    assert ls[0][|h.name|] == ':';
    forall l | l in ls ensures HeaderLine(l) {
      if l != ls[0] {
        ContinuationLines(h.name, e);
        ContinuationIndent(h.name, e);
        assert l in ls[1..];
      }
    }
  }

  lemma ContinuationIndent(name: string, value: string)
    ensures forall l :: l in FoldedLines(name, value)[1..] ==> l != "" && l[0] == ' '
  {
    var ls := FoldedLines(name, value);
    forall l | l in ls[1..] ensures l != "" && l[0] == ' ' {
      var k :| 0 <= k < |ls[1..]| && ls[1..][k] == l;
      var ps := Pack(Split(name + ": " + value, ' '), "");
      assert l == Indented(ps[1..])[k];
    }
  }

  lemma {:induction false} BlockHeaderLines(hs: seq<Header>)
    requires forall h :: h in hs ==> Valid(h)
    ensures forall l :: l in BlockLines(hs) ==> HeaderLine(l)
    ensures hs != [] ==> BlockLines(hs) != []
  {
    if hs != [] {
      assert Valid(hs[0]);
      HeaderLines(hs[0]);
      BlockHeaderLines(hs[1..]);
    }
  }

  /** A block of valid headers renders, and its LF-normalised text is its physical lines. */
  lemma {:induction false} NormalizeRendered(hs: seq<Header>)
    requires forall h :: h in hs ==> Valid(h)
    ensures Rendered(hs).Ok? && NormalizeRaw(Rendered(hs).value) == Unlines(BlockLines(hs))
    ensures Rendered(hs).value == "" || Rendered(hs).value[0] != '\n'
  {
    if hs != [] {
      assert Valid(hs[0]);
      NormalizeRendered(hs[1..]);
      var ls := FoldedLines(hs[0].name, MaybeEncode(hs[0].value));
      HeaderLines(hs[0]);
      NormalizeHeader(ls, Rendered(hs[1..]).value);
      UnlinesAppend(ls, BlockLines(hs[1..]));
    }
  }

  lemma NormalizeHeader(ls: seq<string>, rest: string)
    requires ls != [] && forall l :: l in ls ==> HeaderLine(l)
    ensures NormalizeRaw(Join(ls, "\r\n") + "\r\n" + rest) == Unlines(ls) + NormalizeRaw(rest)
    ensures Join(ls, "\r\n") != "" && Join(ls, "\r\n")[0] != '\n'
  {
    assert HeaderLine(ls[0]);
    NormalizeJoin(ls);
    NormalizeCrlf("\r\n");
    UnlinesIsJoin(ls);
    NormalizeAppend(Join(ls, "\r\n"), "\r\n");
    NormalizeAppend(Join(ls, "\r\n") + "\r\n", rest);
  }

  // ----- the end of a block ----------------------------------------------------------------

  /** `split_header_body` */
  function SplitHeaderBody(raw: string): Result<(string, string)> {
    match Find(raw, "\n\n")
    case Some(i) => Ok((raw[..i], raw[i + 2..]))
    case None => Err("malformed MIME message: missing header/body separator")
  }

  predicate BreakPair(s: string, i: nat) {
    i + 1 < |s| && s[i] == '\n' && s[i + 1] == '\n'
  }

  lemma {:induction false} NoBreakPair(ls: seq<string>)
    requires forall l :: l in ls ==> HeaderLine(l)
    ensures forall i: nat :: !BreakPair(Unlines(ls), i)
    ensures ls != [] ==> Unlines(ls)[0] != '\n'
  {
    if ls != [] {
      NoBreakPair(ls[1..]);
      var u, n := Unlines(ls), |ls[0]|;
      assert HeaderLine(ls[0]);
      forall i: nat | i + 1 < |u| ensures u[i] != '\n' || u[i + 1] != '\n' {
        if i < n {
          assert u[i] == ls[0][i];
        } else if i == n {
          assert u[i + 1] == Unlines(ls[1..])[0];
        } else {
          assert !BreakPair(Unlines(ls[1..]), i - n - 1);
          assert u[i] == Unlines(ls[1..])[i - n - 1] && u[i + 1] == Unlines(ls[1..])[i - n];
        }
      }
    }
  }

  lemma FirstPair(j: string, u: string, body: string)
    requires u == j + "\n" && forall i: nat :: !BreakPair(u, i)
    ensures SplitHeaderBody(u + "\n" + body) == Ok((j, body))
  {
    var raw := u + "\n" + body;
    assert raw[|j|..|j| + 2] == "\n\n";
    forall i: nat | i < |j| ensures !OccursAt(raw, "\n\n", i) {
      if OccursAt(raw, "\n\n", i) {
        assert raw[i..i + 2][0] == u[i] && raw[i..i + 2][1] == u[i + 1];
        assert BreakPair(u, i);
      }
    }
    FindUnique(raw, "\n\n", |j|);
    assert raw[..|j|] == j && raw[|j| + 2..] == body;
  }

  /** The blank line after a header block is the first one. */
  lemma SplitBlock(ls: seq<string>, body: string)
    requires ls != [] && forall l :: l in ls ==> HeaderLine(l)
    ensures SplitHeaderBody(Unlines(ls) + "\n" + body) == Ok((Join(ls, "\n"), body))
    ensures Lines(Join(ls, "\n")) == ls
  {
    forall l | l in ls ensures '\n' !in l { assert HeaderLine(l); }
    UnlinesIsJoin(ls);
    NoBreakPair(ls);
    SplitJoin(ls, '\n');
    FirstPair(Join(ls, "\n"), Unlines(ls), body);
  }
}
