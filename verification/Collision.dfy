/** Delimiters that stand inside a part, and exactly what that does to a message. */
module Collision {
  import opened Wrappers
  import opened Text
  import opened Headers
  import opened MimeTree
  import opened ContentType
  import opened Compose
  import opened RoundTrip
  import opened Freshness
  import QP = QuotedPrintable
  import Folding
  import Multipart
  import Boundary

  /** Composing a message and parsing the text. */
  function Reparsed(m: Message, top: bool): Result<ParsedMessage> {
    match RenderMessage(m, top)
    case Ok(text) => ParseMessage(NormalizeRaw(text))
    case Err(e) => Err(e)
  }

  // ----- sections that differ --------------------------------------------------------------

  /** The text parses to the message wanted at place `j`. */
  predicate Meets(text: string, wants: seq<ParsedMessage>, j: nat) {
    j < |wants| && ParseMessage(text) == Ok(wants[j])
  }

  /** Splitting fails, or some section is not what is wanted at its place, counted from `at`. */
  ghost predicate Differs(r: Result<seq<string>>, wants: seq<ParsedMessage>, at: nat) {
    r.Err? || exists j :: 0 <= j < |r.value| && !Meets(r.value[j], wants, at + j)
  }

  lemma PrependDiffers(first: string, r: Result<seq<string>>, wants: seq<ParsedMessage>, at: nat)
    requires Differs(r, wants, at + 1)
    ensures Differs(Multipart.PrependSections([first], r), wants, at)
  {
    if r.Ok? {
      var j :| 0 <= j < |r.value| && !Meets(r.value[j], wants, at + 1 + j);
      assert ([first] + r.value)[j + 1] == r.value[j];
      assert at + 1 + j == at + (j + 1);
    }
  }

  lemma HeadDiffers(first: string, r: Result<seq<string>>, wants: seq<ParsedMessage>, at: nat)
    requires !Meets(first, wants, at)
    ensures Differs(Multipart.PrependSections([first], r), wants, at) && Differs(Ok([first]), wants, at)
  {
    assert [first][0] == first && at + 0 == at;
    if r.Ok? { assert ([first] + r.value)[0] == first; }
  }

  lemma {:induction false} ParseAllDiffers(sections: seq<string>, bound: nat, wants: seq<ParsedMessage>, j: nat)
    requires forall i :: 0 <= i < |sections| ==> |sections[i]| < bound
    requires j < |sections| && !Meets(sections[j], wants, j)
    ensures ParseAll(sections, bound) != Ok(wants)
    decreases |sections|
  {
    if j > 0 && wants != [] {
      assert wants == [wants[0]] + wants[1..];
      ParseAllDiffers(sections[1..], bound, wants[1..], j - 1);
    }
  }

  lemma SectionsDiffer(raw: string, block: string, hs: seq<Header>, body: string, b: string, w: ParsedMessage)
    requires SplitHeaderBody(raw) == Ok((block, body)) && Parsed(block) == Ok(hs)
    requires IsMultipart(TypeOf(hs)) && ParseBoundary(TypeOf(hs)) == Some(b)
    requires Differs(Multipart.Sections(body, b), w.parts, 0)
    ensures ParseMessage(raw) != Ok(w)
  {
    var r := Multipart.Sections(body, b);
    if r.Ok? {
      Multipart.SectionsBound(body, b);
      var j :| 0 <= j < |r.value| && !Meets(r.value[j], w.parts, 0 + j);
      ParseAllDiffers(r.value, |raw|, w.parts, j);
    }
  }

  // ----- lines -----------------------------------------------------------------------------

  /** The lines of a rendered message. */
  function LinesOf(m: Message, top: bool): seq<string>
    requires RenderMessage(m, top).Ok?
  {
    Lines(NormalizeRaw(RenderMessage(m, top).value))
  }

  lemma LinesUnbroken(text: string)
    ensures Multipart.NoBreaks(Lines(NormalizeRaw(text)))
  {
    NormalizeHasNoCr(text);
    SplitPieces(NormalizeRaw(text), '\n');
    Folding.SplitChars(NormalizeRaw(text), '\n', '\r');
  }

  lemma JoinedLines(ls: seq<string>)
    requires ls != [] && Multipart.NoBreaks(ls)
    ensures Lines(Join(ls, "\n")) == ls && Multipart.TrimPart(Unlines(ls)) == Join(ls, "\n")
  {
    forall l | l in ls ensures '\n' !in l {
      var i :| 0 <= i < |ls| && ls[i] == l;
    }
    SplitJoin(ls, '\n');
    Multipart.JoinHasNoCr(ls);
    Multipart.GatheredPart(Join(ls, "\n"));
  }

  lemma CleanIsPlainLines(ls: seq<string>, b: string)
    requires Multipart.NoBreaks(ls) && Clean(ls, b)
    ensures Multipart.AllPlain(ls, Multipart.Marker(b), Multipart.CloseMarker(b))
  {
    forall i | 0 <= i < |ls| ensures Multipart.Plain(ls[i], Multipart.Marker(b), Multipart.CloseMarker(b)) {
      assert Multipart.TrimCr(ls[i]) == ls[i] && !Delimiter(ls[i], b);
    }
  }

  /** The first delimiter among the lines. */
  lemma FirstDelimiter(ls: seq<string>, b: string) returns (d: nat)
    requires !Clean(ls, b)
    ensures d < |ls| && Delimiter(ls[d], b) && Clean(ls[..d], b)
  {
    d := 0;
    while d < |ls| && !Delimiter(ls[d], b)
      invariant d <= |ls| && Clean(ls[..d], b)
      decreases |ls| - d
    {
      assert ls[..d + 1] == ls[..d] + [ls[d]];
      d := d + 1;
    }
    assert ls[..|ls|] == ls;
  }

  lemma {:induction false} FramedEnds(ns: seq<string>, b: string)
    ensures var f := Multipart.FramedLines(ns, b);
            && |f| >= 2 + |ns| + |ns| && f[|f| - 2] == Multipart.CloseMarker(b) && f[|f| - 1] == ""
  {
    if ns != [] { FramedEnds(ns[1..], b); }
  }

  lemma FramedBegins(ns: seq<string>, b: string)
    requires ns != []
    ensures var f := Multipart.FramedLines(ns, b);
            f != [] && f[0] == Multipart.Marker(b)
  {
  }

  /** A rendered multipart node: header lines, an empty line, and its framed parts. */
  lemma NodeLines(m: Message, top: bool)
    requires m.parts != [] && RenderMessage(m, top).Ok?
    ensures LinesOf(m, top) == BlockLines(MultipartHeaders(m, top)) +
              ([""] + Multipart.FramedLines(NormalizedTexts(RenderAll(m.parts).value), BoundaryOf(m, top)))
  {
    var hs, texts, b := MultipartHeaders(m, top), RenderAll(m.parts).value, BoundaryOf(m, top);
    MessageLines(hs, FramedCrlf(texts, b));
    BoundaryUnbroken(m, top);
    NormalizeFramed(texts, b);
    Multipart.LinesOfFramed(NormalizedTexts(texts), b);
  }

  lemma NodeHeaders(m: Message, top: bool)
    requires m.parts != [] && RenderMessage(m, top).Ok?
    ensures var ls := BlockLines(MultipartHeaders(m, top));
            ls != [] && forall l :: l in ls ==> HeaderLine(l)
  {
    var hs := MultipartHeaders(m, top);
    RenderedValid(hs);
    BlockHeaderLines(hs);
    SetPlaces(TopHeaders(m, top), CONTENT_TYPE, WithBoundary(MultipartBase(m, top), BoundaryOf(m, top)));
  }

  // ----- cutting a node short --------------------------------------------------------------

  lemma HeaderPrefixFails(ls: seq<string>, k: nat)
    requires (forall l :: l in ls ==> HeaderLine(l)) && 1 <= k <= |ls|
    ensures SplitHeaderBody(Join(ls[..k], "\n")).Err?
  {
    var cut := ls[..k];
    var j := Join(cut, "\n");
    UnlinesIsJoin(cut);
    NoBreakPair(cut);
    forall i: nat ensures !OccursAt(j, "\n\n", i) {
      if OccursAt(j, "\n\n", i) {
        PairBreaks(j, i);
        PairStays(j, i);
      }
    }
  }

  lemma PairStays(j: string, i: nat)
    requires BreakPair(j, i)
    ensures BreakPair(j + "\n", i)
  {
  }

  lemma {:induction false} JoinUnlines(a: seq<string>, b: seq<string>)
    requires b != []
    ensures Join(a + b, "\n") == Unlines(a) + Join(b, "\n")
  {
    if a == [] {
      assert a + b == b;
    } else {
      JoinUnlines(a[1..], b);
      TailAppend(a, b);
      Assoc(a[0] + "\n", Unlines(a[1..]), Join(b, "\n"));
    }
  }

  /** The headers of a node cut within its body are still read. */
  lemma BodyCut(hs: seq<Header>, ls: seq<string>, body: seq<string>)
    requires AllComposable(hs) && ls == BlockLines(hs) && ls != [] && body != []
    requires forall l :: l in ls ==> HeaderLine(l)
    ensures SplitHeaderBody(Join(ls + ([""] + body), "\n")) == Ok((Join(ls, "\n"), Join(body, "\n")))
    ensures Parsed(Join(ls, "\n")) == Ok(hs)
  {
    JoinUnlines(ls, [""] + body);
    assert ([""] + body)[1..] == body;
    assert Join([""] + body, "\n") == "\n" + Join(body, "\n");
    Assoc(Unlines(ls), "\n", Join(body, "\n"));
    SplitBlock(ls, Join(body, "\n"));
    assert forall h :: h in hs ==> Composable(h);
    BlockRoundTrip(hs, None);
    assert [] + hs == hs;
  }

  /** Sections of lines without a delimiter, and of lines cut by one. */
  lemma PlainNeverCloses(ls: seq<string>, marker: string, close: string, current: string)
    requires Multipart.AllPlain(ls, marker, close)
    ensures Multipart.SectionsFrom(ls, marker, close, true, current).Err?
  {
    Multipart.PlainLinesGather(ls, [], marker, close, current);
    assert ls + [] == ls;
  }

  lemma GatheredLines(ls: seq<string>)
    requires Multipart.NoBreaks(ls)
    ensures Multipart.TrimPart(Unlines(ls)) == Join(ls, "\n")
  {
    if ls != [] { JoinedLines(ls); }
  }

  lemma CutDiffers(ls: seq<string>, line: string, rest: seq<string>, b: string, marker: string, close: string,
                   wants: seq<ParsedMessage>, at: nat)
    requires marker == Multipart.Marker(b) && close == Multipart.CloseMarker(b) && '\r' !in b
    requires Multipart.NoBreaks(ls) && Clean(ls, b) && Delimiter(line, b) && !Meets(Join(ls, "\n"), wants, at)
    ensures Differs(Multipart.SectionsFrom(ls + ([line] + rest), marker, close, true, ""), wants, at)
  {
    var tail := [line] + rest;
    CleanIsPlainLines(ls, b);
    Multipart.PlainLinesGather(ls, tail, marker, close, "");
    assert "" + Unlines(ls) == Unlines(ls);
    GatheredLines(ls);
    Multipart.MarkersAreThemselves(b);
    assert tail[0] == line && tail[1..] == rest;
    HeadDiffers(Join(ls, "\n"), Multipart.SectionsFrom(rest, marker, close, true, ""), wants, at);
  }

  // ----- a node whose parts collide with it ------------------------------------------------

  lemma CutWithin<T>(a: seq<T>, b: seq<T>, k: nat)
    requires k <= |a|
    ensures (a + b)[..k] == a[..k]
  {
  }

  lemma CutBeyond<T>(a: seq<T>, b: seq<T>, k: nat)
    requires |a| <= k <= |a| + |b|
    ensures (a + b)[..k] == a + b[..k - |a|]
  {
  }

  lemma CutAround<T>(a: seq<T>, d: nat, b: seq<T>, k: nat)
    requires d < |a| && d < k <= |a| + |b|
    ensures (a + b)[..k] == a[..d] + ([a[d]] + (a + b)[d + 1..k])
  {
  }

  lemma MarkerStep(lines: seq<string>, b: string, marker: string, close: string, inside: bool, current: string,
                   wants: seq<ParsedMessage>, at: nat)
    requires marker == Multipart.Marker(b) && close == Multipart.CloseMarker(b) && '\r' !in b
    requires lines != [] && lines[0] == marker && (!inside ==> current == "")
    requires Differs(Multipart.SectionsFrom(lines[1..], marker, close, true, ""), wants, if inside then at + 1 else at)
    ensures Differs(Multipart.SectionsFrom(lines, marker, close, inside, current), wants, at)
  {
    var r := Multipart.SectionsFrom(lines[1..], marker, close, true, "");
    Multipart.MarkersAreThemselves(b);
    if inside {
      PrependDiffers(Multipart.TrimPart(current), r, wants, at);
    } else {
      Multipart.PrependSectionsTwice([], [], r);
    }
  }

  /** The first part holds no delimiter: its lines are passed over, or the text ends within them. */
  lemma CleanPartDiffers(ls: seq<string>, more: seq<string>, k: nat, b: string, marker: string, close: string,
                         wants: seq<ParsedMessage>, at: nat)
    requires marker == Multipart.Marker(b) && close == Multipart.CloseMarker(b)
    requires Multipart.NoBreaks(ls) && Clean(ls, b) && k <= |ls| + |more|
    requires k > |ls| ==> Differs(Multipart.SectionsFrom(more[..k - |ls|], marker, close, true, Unlines(ls)), wants, at)
    ensures Differs(Multipart.SectionsFrom((ls + more)[..k], marker, close, true, ""), wants, at)
  {
    CleanIsPlainLines(ls, b);
    if k <= |ls| {
      CutWithin(ls, more, k);
      PlainNeverCloses(ls[..k], marker, close, "");
    } else {
      CutBeyond(ls, more, k);
      Multipart.PlainLinesGather(ls, more[..k - |ls|], marker, close, "");
      assert "" + Unlines(ls) == Unlines(ls);
    }
  }

  /** The first part holds a delimiter: it is cut there, or the text ends before it. */
  lemma CutPartDiffers(ls: seq<string>, d: nat, more: seq<string>, k: nat, b: string, marker: string, close: string,
                       wants: seq<ParsedMessage>, at: nat)
    requires marker == Multipart.Marker(b) && close == Multipart.CloseMarker(b) && '\r' !in b
    requires Multipart.NoBreaks(ls) && CutBadly(ls, b, d, wants, at) && k <= |ls| + |more|
    ensures Differs(Multipart.SectionsFrom((ls + more)[..k], marker, close, true, ""), wants, at)
  {
    if k <= d {
      CutWithin(ls, more, k);
      assert ls[..k] == ls[..d][..k];
      CleanIsPlainLines(ls[..d], b);
      PlainNeverCloses(ls[..k], marker, close, "");
    } else {
      CutAround(ls, d, more, k);
      CutDiffers(ls[..d], ls[d], (ls + more)[d + 1..k], b, marker, close, wants, at);
    }
  }

  /** Lines without a delimiter, or that make up something unwanted before their first one. */
  ghost predicate PartOk(ls: seq<string>, b: string, wants: seq<ParsedMessage>, at: nat) {
    Multipart.NoBreaks(ls) && (Clean(ls, b) || exists d: nat :: CutBadly(ls, b, d, wants, at))
  }

  ghost predicate CutBadly(ls: seq<string>, b: string, d: nat, wants: seq<ParsedMessage>, at: nat) {
    d < |ls| && Delimiter(ls[d], b) && Clean(ls[..d], b) && !Meets(Join(ls[..d], "\n"), wants, at)
  }

  lemma PartLinesDiffer(ls: seq<string>, more: seq<string>, k: nat, b: string, marker: string, close: string,
                        wants: seq<ParsedMessage>, at: nat)
    requires marker == Multipart.Marker(b) && close == Multipart.CloseMarker(b) && '\r' !in b
    requires PartOk(ls, b, wants, at) && k <= |ls| + |more|
    requires Clean(ls, b) && k > |ls| ==>
               Differs(Multipart.SectionsFrom(more[..k - |ls|], marker, close, true, Unlines(ls)), wants, at)
    ensures Differs(Multipart.SectionsFrom((ls + more)[..k], marker, close, true, ""), wants, at)
  {
    if Clean(ls, b) {
      CleanPartDiffers(ls, more, k, b, marker, close, wants, at);
    } else {
      var d: nat :| CutBadly(ls, b, d, wants, at);
      CutPartDiffers(ls, d, more, k, b, marker, close, wants, at);
    }
  }

  lemma CutAfterFirst<T>(x: T, ls: seq<T>, more: seq<T>, k: nat)
    requires 1 <= k <= 1 + |ls| + |more|
    ensures ([x] + ls + more)[..k][1..] == (ls + more)[..k - 1]
  {
  }

  /** A delimiter line, then the lines of a part, then those of the parts after it. */
  lemma PartDiffers(ls: seq<string>, more: seq<string>, k: nat, b: string, marker: string, close: string,
                    inside: bool, current: string, wants: seq<ParsedMessage>, at: nat, next: nat)
    requires marker == Multipart.Marker(b) && close == Multipart.CloseMarker(b) && '\r' !in b
    requires (!inside ==> current == "") && next == (if inside then at + 1 else at)
    requires PartOk(ls, b, wants, next) && 1 <= k <= 1 + |ls| + |more|
    requires Clean(ls, b) && k - 1 > |ls| ==>
               Differs(Multipart.SectionsFrom(more[..k - 1 - |ls|], marker, close, true, Unlines(ls)), wants, next)
    ensures Differs(Multipart.SectionsFrom(([marker] + ls + more)[..k], marker, close, inside, current), wants, at)
  {
    PartLinesDiffer(ls, more, k - 1, b, marker, close, wants, next);
    CutAfterFirst(marker, ls, more, k);
    MarkerStep(([marker] + ls + more)[..k], b, marker, close, inside, current, wants, at);
  }

  ghost predicate AllPartsOk(ns: seq<string>, b: string, wants: seq<ParsedMessage>, at: nat) {
    forall i :: 0 <= i < |ns| ==> PartOk(Lines(ns[i]), b, wants, at + i)
  }

  ghost predicate SomeDelimiter(ns: seq<string>, b: string) {
    exists i :: 0 <= i < |ns| && !Clean(Lines(ns[i]), b)
  }

  lemma LaterParts(ns: seq<string>, b: string, wants: seq<ParsedMessage>, at: nat)
    requires ns != [] && AllPartsOk(ns, b, wants, at)
    ensures AllPartsOk(ns[1..], b, wants, at + 1)
  {
    forall i | 0 <= i < |ns[1..]| ensures PartOk(Lines(ns[1..][i]), b, wants, at + 1 + i) {
      assert ns[1..][i] == ns[i + 1] && at + 1 + i == at + (i + 1);
    }
  }

  lemma LaterDelimiter(ns: seq<string>, b: string)
    requires ns != [] && Clean(Lines(ns[0]), b) && SomeDelimiter(ns, b)
    ensures SomeDelimiter(ns[1..], b)
  {
    var i :| 0 <= i < |ns| && !Clean(Lines(ns[i]), b);
    assert ns[1..][i - 1] == ns[i];
  }

  lemma FirstPart(ns: seq<string>, b: string, wants: seq<ParsedMessage>, at: nat)
    requires |Multipart.FramedLines(ns, b)| > 2 || SomeDelimiter(ns, b)
    requires AllPartsOk(ns, b, wants, at)
    ensures ns != [] && PartOk(Lines(ns[0]), b, wants, at)
    ensures Multipart.FramedLines(ns, b) == [Multipart.Marker(b)] + Lines(ns[0]) + Multipart.FramedLines(ns[1..], b)
  {
    assert ns != [] ==> at + 0 == at && PartOk(Lines(ns[0]), b, wants, at + 0);
  }

  /**
   Framed parts that are cut short, or of which one holds a delimiter, do not all come back as wanted.
   The section being gathered, if any, is the one at place `at`, and `next` is the place of the first part.
   */
  lemma {:induction false} FramedDiffers(ns: seq<string>, b: string, k: nat, inside: bool, current: string,
                                         wants: seq<ParsedMessage>, at: nat, next: nat)
    requires '\r' !in b && (!inside ==> current == "") && next == (if inside then at + 1 else at)
    requires AllPartsOk(ns, b, wants, next) && k <= |Multipart.FramedLines(ns, b)|
    requires k <= |Multipart.FramedLines(ns, b)| - 2 || SomeDelimiter(ns, b)
    ensures Differs(Multipart.SectionsFrom(Multipart.FramedLines(ns, b)[..k],
                                           Multipart.Marker(b), Multipart.CloseMarker(b), inside, current), wants, at)
    decreases |ns|
  {
    if k == 0 {
      assert Multipart.FramedLines(ns, b)[..0] == [];
    } else {
      FirstPart(ns, b, wants, next);
      var ls, more := Lines(ns[0]), Multipart.FramedLines(ns[1..], b);
      if Clean(ls, b) && k - 1 > |ls| {
        LaterParts(ns, b, wants, next);
        if SomeDelimiter(ns, b) { LaterDelimiter(ns, b); }
        FramedDiffers(ns[1..], b, k - 1 - |ls|, true, Unlines(ls), wants, next, next + 1);
      }
      PartDiffers(ls, more, k, b, Multipart.Marker(b), Multipart.CloseMarker(b), inside, current, wants, at, next);
    }
  }

  // ----- a message cut short ---------------------------------------------------------------

  lemma FramedBreakless(texts: seq<string>, b: string)
    requires '\r' !in b && '\n' !in b
    ensures Multipart.NoBreaks(Multipart.FramedLines(NormalizedTexts(texts), b))
  {
    forall t | t in NormalizedTexts(texts) ensures '\r' !in t {
      var i :| 0 <= i < |texts| && NormalizedTexts(texts)[i] == t;
      NormalizeHasNoCr(texts[i]);
    }
    Multipart.FramedLinesUnbroken(NormalizedTexts(texts), b);
  }

  /** Headers alone, whole or cut, even with the empty line after them, are not a message. */
  lemma HeadCutFails(hl: seq<string>, body: seq<string>, k: nat)
    requires (forall l :: l in hl ==> HeaderLine(l)) && k <= |hl| + 1
    ensures SplitHeaderBody(Join((hl + ([""] + body))[..k], "\n")).Err?
  {
    if k == 0 {
      assert (hl + ([""] + body))[..0] == [];
      NothingIsNoMessage();
    } else if k <= |hl| {
      CutWithin(hl, [""] + body, k);
      HeaderPrefixFails(hl, k);
    } else {
      CutBeyond(hl, [""] + body, k);
      assert ([""] + body)[..1] == [""];
      JoinUnlines(hl, [""]);
      assert Unlines(hl) + "" == Unlines(hl);
      HeadersAloneFail(hl);
    }
  }

  lemma NothingIsNoMessage()
    ensures SplitHeaderBody("").Err?
  {
    assert forall l :: l in [] ==> HeaderLine(l);
    HeadersAloneFail([]);
  }

  lemma CutBody<T>(a: seq<T>, x: T, f: seq<T>, k: nat)
    requires |a| < k <= |a| + 1 + |f|
    ensures (a + ([x] + f))[..k] == a + ([x] + f[..k - |a| - 1])
  {
  }

  lemma NodeBodyCut(hs: seq<Header>, hl: seq<string>, texts: seq<string>, b: string, n: nat, w: ParsedMessage)
    requires AllComposable(hs) && IsMultipart(TypeOf(hs)) && ParseBoundary(TypeOf(hs)) == Some(b)
    requires '\r' !in b && '\n' !in b
    requires hl == BlockLines(hs) && hl != [] && forall l :: l in hl ==> HeaderLine(l)
    requires AllPartsOk(NormalizedTexts(texts), b, w.parts, 0)
    requires 1 <= n <= |Multipart.FramedLines(NormalizedTexts(texts), b)| - 2
    ensures ParseMessage(Join(hl + ([""] + Multipart.FramedLines(NormalizedTexts(texts), b)[..n]), "\n")) != Ok(w)
  {
    var ns := NormalizedTexts(texts);
    var f := Multipart.FramedLines(ns, b);
    BodyCut(hs, hl, f[..n]);
    FramedBreakless(texts, b);
    JoinedLines(f[..n]);
    FramedDiffers(ns, b, n, false, "", w.parts, 0, 0);
    SectionsDiffer(Join(hl + ([""] + f[..n]), "\n"), Join(hl, "\n"), hs, Join(f[..n], "\n"), b, w);
  }

  lemma NodeLinesCut(hs: seq<Header>, hl: seq<string>, texts: seq<string>, b: string, f: seq<string>, k: nat, w: ParsedMessage)
    requires AllComposable(hs) && IsMultipart(TypeOf(hs)) && ParseBoundary(TypeOf(hs)) == Some(b)
    requires '\r' !in b && '\n' !in b
    requires hl == BlockLines(hs) && hl != [] && forall l :: l in hl ==> HeaderLine(l)
    requires AllPartsOk(NormalizedTexts(texts), b, w.parts, 0)
    requires f == Multipart.FramedLines(NormalizedTexts(texts), b) && k <= |hl| + |f| - 1
    ensures ParseMessage(Join((hl + ([""] + f))[..k], "\n")) != Ok(w)
  {
    if k <= |hl| + 1 {
      HeadCutFails(hl, f, k);
    } else {
      CutBody(hl, "", f, k);
      NodeBodyCut(hs, hl, texts, b, k - |hl| - 1, w);
    }
  }

  /** The line could be a delimiter. */
  predicate Dashed(l: string) {
    StartsWith(l, "--")
  }

  lemma DelimiterIsDashed(l: string, b: string)
    requires Delimiter(l, b)
    ensures Dashed(l)
  {
  }

  /** A multipart node cut before its closing delimiter is not the message wanted, if its parts are not when cut. */
  lemma CutNode(q: Message, texts: seq<string>, k: nat, w: ParsedMessage)
    requires Readable(q, false) && q.parts != [] && RenderMessage(q, false).Ok? && RenderAll(q.parts) == Ok(texts)
    requires AllPartsOk(NormalizedTexts(texts), BoundaryOf(q, false), w.parts, 0)
    requires k < |LinesOf(q, false)| && Dashed(LinesOf(q, false)[k])
    ensures ParseMessage(Join(LinesOf(q, false)[..k], "\n")) != Ok(w)
  {
    var hs, b := MultipartHeaders(q, false), BoundaryOf(q, false);
    var f := Multipart.FramedLines(NormalizedTexts(texts), b);
    NodeLines(q, false);
    NodeHeaders(q, false);
    MultipartTypeReads(q, false);
    FramedEnds(NormalizedTexts(texts), b);
    LastIsEmpty(LinesOf(q, false), BlockLines(hs), f, k);
    NodeLinesCut(hs, BlockLines(hs), texts, b, f, k, w);
  }

  lemma LastIsEmpty(ls: seq<string>, hl: seq<string>, f: seq<string>, k: nat)
    requires ls == hl + ([""] + f) && |f| >= 2 && f[|f| - 1] == "" && k < |ls| && Dashed(ls[k])
    ensures k <= |hl| + |f| - 1
  {
    assert ls[|hl| + |f|] == f[|f| - 1];
  }

  // ----- a leaf cut short ------------------------------------------------------------------

  lemma ShorterJoin(ls: seq<string>, n: nat)
    requires 1 <= n < |ls|
    ensures Join(ls, "\n") == Join(ls[..n], "\n") + "\n" + Join(ls[n..], "\n")
  {
    assert ls[..n] + ls[n..] == ls;
    JoinUnlines(ls[..n], ls[n..]);
    UnlinesIsJoin(ls[..n]);
  }

  /** A body cut at a line that could be a delimiter does not decode to what was written. */
  lemma CutBodyDiffers(m: Message, e: TransferEncoding, ls: seq<string>, n: nat)
    requires RenderBody(m, e).Ok? && ls == Lines(NormalizeRaw(RenderBody(m, e).value))
    requires 1 <= n < |ls| && Dashed(ls[n])
    ensures DecodeAs(e, Join(ls[..n], "\n")) != Ok(ExpectedBytes(m, e))
  {
    var text := NormalizeRaw(RenderBody(m, e).value);
    SplitPieces(text, '\n');
    ShorterJoin(ls, n);
    BodyRoundTrip(m, e);
    match e
    case SevenBit | EightBit | Binary =>
    case QuotedPrintable => QP.CutDecodesToLess(Join(ls[..n], "\n"), Join(ls[n..], "\n"));
    case Base64 =>
      assert ls[n] in ls && ls[n][0] == '-';
      Base64Delimiter(BodyBytes(m), ls[n]);
  }

  lemma LeafHasHeader(q: Message, leaf: Leaf)
    requires LeafPlan(q, false) == Ok(leaf)
    ensures leaf.headers != []
  {
    var hs := TopHeaders(q, false);
    var typed := if HeaderValue(hs, CONTENT_TYPE).None? then SetHeader(hs, CONTENT_TYPE, DEFAULT_TEXT) else hs;
    SetPlaces(typed, TRANSFER_ENCODING, Token(leaf.encoding));
  }

  lemma LeafLines(q: Message)
    requires q.parts == [] && Readable(q, false) && RenderMessage(q, false).Ok?
    ensures var leaf := LeafPlan(q, false).value;
            && LinesOf(q, false) == BlockLines(leaf.headers) +
                 ([""] + Lines(NormalizeRaw(RenderBody(q, leaf.encoding).value)))
            && BlockLines(leaf.headers) != [] && forall l :: l in BlockLines(leaf.headers) ==> HeaderLine(l)
  {
    var leaf := LeafPlan(q, false).value;
    MessageLines(leaf.headers, RenderBody(q, leaf.encoding).value);
    RenderedValid(leaf.headers);
    BlockHeaderLines(leaf.headers);
    LeafHasHeader(q, leaf);
  }

  lemma LeafBodyCut(q: Message, leaf: Leaf, hl: seq<string>, bl: seq<string>, n: nat)
    requires q.parts == [] && Readable(q, false) && LeafPlan(q, false) == Ok(leaf)
    requires hl == BlockLines(leaf.headers) && hl != [] && forall l :: l in hl ==> HeaderLine(l)
    requires bl == Lines(NormalizeRaw(RenderBody(q, leaf.encoding).value)) && 1 <= n < |bl| && Dashed(bl[n])
    ensures ParseMessage(Join(hl + ([""] + bl[..n]), "\n")) != Ok(Expected(q, false))
  {
    BodyCut(leaf.headers, hl, bl[..n]);
    LeafEncodingReads(q, false);
    CutBodyDiffers(q, leaf.encoding, bl, n);
  }

  lemma CutLeaf(q: Message, k: nat)
    requires q.parts == [] && Readable(q, false) && RenderMessage(q, false).Ok?
    requires k < |LinesOf(q, false)| && Dashed(LinesOf(q, false)[k])
    ensures ParseMessage(Join(LinesOf(q, false)[..k], "\n")) != Ok(Expected(q, false))
  {
    var leaf := LeafPlan(q, false).value;
    var hl, bl := BlockLines(leaf.headers), Lines(NormalizeRaw(RenderBody(q, leaf.encoding).value));
    LeafLines(q);
    if k <= |hl| + 1 {
      HeadCutFails(hl, bl, k);
    } else {
      CutBody(hl, "", bl, k);
      assert LinesOf(q, false)[k] == bl[k - |hl| - 1];
      LeafBodyCut(q, leaf, hl, bl, k - |hl| - 1);
    }
  }

  // ----- trees -----------------------------------------------------------------------------

  /** What is known of a message wanted: it is the one written, or the boundaries stand in no body. */
  predicate Known(q: Message, top: bool, w: ParsedMessage)
    requires Readable(q, top)
  {
    w == Expected(q, top) || Bounded(q, top)
  }

  lemma {:induction false} ExpectedAt(parts: seq<Message>, i: nat)
    requires (forall i :: 0 <= i < |parts| ==> Readable(parts[i], false)) && i < |parts|
    ensures |ExpectedAll(parts)| == |parts| && ExpectedAll(parts)[i] == Expected(parts[i], false)
    decreases |parts|
  {
    if |parts| > 1 { ExpectedAt(parts[1..], if i > 0 then i - 1 else 0); }
  }

  lemma {:induction false} AllPartsAreOk(q: Message, top: bool, texts: seq<string>, w: ParsedMessage)
    requires Readable(q, top) && q.parts != [] && RenderAll(q.parts) == Ok(texts) && Known(q, top, w)
    ensures AllPartsOk(NormalizedTexts(texts), BoundaryOf(q, top), w.parts, 0)
    decreases q, 1
  {
    forall i | 0 <= i < |texts| ensures PartOk(Lines(NormalizedTexts(texts)[i]), BoundaryOf(q, top), w.parts, 0 + i) {
      if w == Expected(q, top) { ExpectedAt(q.parts, i); }
      PartIsOk(q.parts[i], BoundaryOf(q, top), w.parts, i);
    }
  }

  /** A delimiter in a part cuts off something unwanted. */
  lemma {:induction false} PartIsOk(q: Message, b: string, wants: seq<ParsedMessage>, at: nat)
    requires Readable(q, false) && RenderMessage(q, false).Ok?
    requires || (at < |wants| ==> wants[at] == Expected(q, false))
             || (Bounded(q, false) && PlainBoundary(b) && !Boundary.MessageContains(q, b))
    ensures PartOk(LinesOf(q, false), b, wants, at)
    decreases q, 3
  {
    var ls := LinesOf(q, false);
    LinesUnbroken(RenderMessage(q, false).value);
    if !Clean(ls, b) {
      var d := FirstDelimiter(ls, b);
      DelimiterIsDashed(ls[d], b);
      if at < |wants| {
        if wants[at] != Expected(q, false) { TreeClean(q, false, b); }
        CutMessage(q, d, wants[at]);
      }
      assert CutBadly(ls, b, d, wants, at);
    }
  }

  /** A message cut at a line that could be a delimiter is not the message wanted. */
  lemma {:induction false} CutMessage(q: Message, k: nat, w: ParsedMessage)
    requires Readable(q, false) && RenderMessage(q, false).Ok? && Known(q, false, w)
    requires q.parts == [] ==> w == Expected(q, false)
    requires k < |LinesOf(q, false)| && Dashed(LinesOf(q, false)[k])
    ensures ParseMessage(Join(LinesOf(q, false)[..k], "\n")) != Ok(w)
    decreases q, 2
  {
    if q.parts == [] {
      CutLeaf(q, k);
    } else {
      AllPartsAreOk(q, false, RenderAll(q.parts).value, w);
      CutNode(q, RenderAll(q.parts).value, k, w);
    }
  }

  /** A node one of whose sections differs from what is wanted is not the message wanted. */
  lemma NodeDiffers(m: Message, top: bool, texts: seq<string>, w: ParsedMessage)
    requires AllComposable(MultipartHeaders(m, top)) && MultipartName(MultipartBase(m, top))
    requires NameCount(TopHeaders(m, top), CONTENT_TYPE) <= 1 && m.parts != [] && RenderAll(m.parts) == Ok(texts)
    requires Differs(Multipart.Sections(NormalizeRaw(FramedCrlf(texts, BoundaryOf(m, top))), BoundaryOf(m, top)), w.parts, 0)
    ensures RenderMessage(m, top).Ok? && Reparsed(m, top) != Ok(w)
  {
    var hs, b := MultipartHeaders(m, top), BoundaryOf(m, top);
    var raw, block := NodeReads(m, top, texts);
    SectionsDiffer(raw, block, hs, NormalizeRaw(FramedCrlf(texts, b)), b, w);
  }

  /** A delimiter in one of the parts makes the sections differ. */
  lemma CollidingSections(texts: seq<string>, b: string, wants: seq<ParsedMessage>)
    requires '\r' !in b && '\n' !in b
    requires AllPartsOk(NormalizedTexts(texts), b, wants, 0) && SomeDelimiter(NormalizedTexts(texts), b)
    ensures Differs(Multipart.Sections(NormalizeRaw(FramedCrlf(texts, b)), b), wants, 0)
  {
    var ns := NormalizedTexts(texts);
    var f := Multipart.FramedLines(ns, b);
    NormalizeFramed(texts, b);
    Multipart.LinesOfFramed(ns, b);
    assert f[..|f|] == f;
    FramedDiffers(ns, b, |f|, false, "", wants, 0, 0);
  }

  lemma NotFresh(texts: seq<string>, b: string)
    requires !Multipart.Fresh(NormalizedTexts(texts), b)
    ensures SomeDelimiter(NormalizedTexts(texts), b)
  {
    var ns := NormalizedTexts(texts);
    var i :| 0 <= i < |ns| && !Multipart.AllPlain(Lines(ns[i]), Multipart.Marker(b), Multipart.CloseMarker(b));
    CleanIsPlain(texts[i], b);
  }

  lemma CollidingNode(m: Message, top: bool, texts: seq<string>, w: ParsedMessage)
    requires Readable(m, top) && m.parts != [] && RenderAll(m.parts) == Ok(texts) && Known(m, top, w)
    requires !Multipart.Fresh(NormalizedTexts(texts), BoundaryOf(m, top))
    ensures RenderMessage(m, top).Ok? && Reparsed(m, top) != Ok(w)
  {
    AllPartsAreOk(m, top, texts, w);
    NotFresh(texts, BoundaryOf(m, top));
    MultipartTypeReads(m, top);
    CollidingSections(texts, BoundaryOf(m, top), w.parts);
    NodeDiffers(m, top, texts, w);
  }

  /** Where the node itself is fresh, a part that differs makes it differ. */
  lemma DifferingPart(m: Message, top: bool, texts: seq<string>, w: ParsedMessage, i: nat)
    requires Readable(m, top) && RenderAll(m.parts) == Ok(texts) && i < |m.parts|
    requires Multipart.Fresh(NormalizedTexts(texts), BoundaryOf(m, top))
    requires i < |w.parts| ==> Reparsed(m.parts[i], false) != Ok(w.parts[i])
    ensures RenderMessage(m, top).Ok? && Reparsed(m, top) != Ok(w)
  {
    var b, ns := BoundaryOf(m, top), NormalizedTexts(texts);
    MultipartTypeReads(m, top);
    SectionsReturn(texts, b);
    assert !Meets(ns[i], w.parts, 0 + i);
    NodeDiffers(m, top, texts, w);
  }

  lemma {:induction false} StaleDiffers(m: Message, top: bool, w: ParsedMessage)
    requires Readable(m, top) && !AllFresh(m, top) && Known(m, top, w)
    ensures RenderMessage(m, top).Ok? && Reparsed(m, top) != Ok(w)
    decreases m
  {
    PartsRender(m);
    var texts := RenderAll(m.parts).value;
    if !Multipart.Fresh(NormalizedTexts(texts), BoundaryOf(m, top)) {
      CollidingNode(m, top, texts, w);
    } else {
      var i: nat :| i < |m.parts| && !AllFresh(m.parts[i], false);
      if i < |w.parts| {
        if w == Expected(m, top) { ExpectedAt(m.parts, i); }
        StaleDiffers(m.parts[i], false, w.parts[i]);
      }
      DifferingPart(m, top, texts, w, i);
    }
  }

  /**
   Of the messages whose headers and leaves survive, composing and parsing gives back exactly those in
   which no line of a rendered part is a delimiter of the node around it, whatever boundaries they name.
   */
  lemma ComesBackExactly(m: Message, top: bool)
    requires Readable(m, top)
    ensures RenderMessage(m, top).Ok?
    ensures Reparsed(m, top) == Ok(Expected(m, top)) <==> AllFresh(m, top)
  {
    if AllFresh(m, top) {
      MessageRoundTrip(m, top);
    } else {
      StaleDiffers(m, top, Expected(m, top));
    }
  }

  /**
   If the boundaries stand in no body, the composed text parses at all if and only if no multipart node
   shares a delimiter with one it is nested in, and then it is the message written.
   */
  lemma RoundTripExactly(m: Message, top: bool)
    requires Readable(m, top) && Bounded(m, top)
    ensures RenderMessage(m, top).Ok?
    ensures Reparsed(m, top).Ok? <==> PathsApart(m, top)
    ensures PathsApart(m, top) ==> AllFresh(m, top) && Reparsed(m, top) == Ok(Expected(m, top))
  {
    ComesBackExactly(m, top);
    FreshIsApart(m, top);
    if !PathsApart(m, top) && Reparsed(m, top).Ok? {
      StaleDiffers(m, top, Reparsed(m, top).value);
    }
  }

  /** Generated boundaries need only differ along every path. */
  lemma GeneratedExactly(m: Message, top: bool)
    requires Readable(m, top) && AllGenerated(m, top)
    ensures RenderMessage(m, top).Ok?
    ensures Reparsed(m, top).Ok? <==> PathsDiffer(m)
    ensures PathsDiffer(m) ==> AllFresh(m, top) && Reparsed(m, top) == Ok(Expected(m, top))
  {
    GeneratedPaths(m, top);
    RoundTripExactly(m, top);
  }

  // ----- a node inside one of the same boundary --------------------------------------------

  lemma CutAtFirst(hl: seq<string>, f: seq<string>, b: string, wants: seq<ParsedMessage>, at: nat)
    requires Multipart.NoBreaks(hl + ([""] + f)) && Clean(hl, b) && forall l :: l in hl ==> HeaderLine(l)
    requires f != [] && f[0] == Multipart.Marker(b)
    ensures PartOk(hl + ([""] + f), b, wants, at) && !Clean(hl + ([""] + f), b)
  {
    var ls, d := hl + ([""] + f), |hl| + 1;
    HeadCutFails(hl, f, d);
    assert ls[d] == f[0] && ls[..d] == hl + [""];
    assert !Delimiter("", b);
    assert CutBadly(ls, b, d, wants, at);
  }

  /** A node with the boundary of the one around it makes no message up to its own first delimiter. */
  lemma SharedBoundaryCuts(p: Message, b: string, wants: seq<ParsedMessage>, at: nat)
    requires p.parts != [] && RenderMessage(p, false).Ok? && b == BoundaryOf(p, false) && PlainBoundary(b)
    ensures PartOk(LinesOf(p, false), b, wants, at) && !Clean(LinesOf(p, false), b)
  {
    var hs, ns := MultipartHeaders(p, false), NormalizedTexts(RenderAll(p.parts).value);
    LinesUnbroken(RenderMessage(p, false).value);
    NodeLines(p, false);
    NodeHeaders(p, false);
    HeadersAreClean(hs, b);
    FramedBegins(ns, b);
    CutAtFirst(BlockLines(hs), Multipart.FramedLines(ns, b), b, wants, at);
  }

  lemma OneCollides(text: string, b: string, wants: seq<ParsedMessage>)
    requires PlainBoundary(b) && PartOk(Lines(NormalizeRaw(text)), b, wants, 0) && !Clean(Lines(NormalizeRaw(text)), b)
    ensures Differs(Multipart.Sections(NormalizeRaw(FramedCrlf([text], b)), b), wants, 0)
  {
    PlainUnbroken(b);
    assert NormalizedTexts([text]) == [NormalizeRaw(text)];
    assert !Clean(Lines(NormalizedTexts([text])[0]), b);
    CollidingSections([text], b, wants);
  }
}
