/** Composing a message and parsing the LF-normalised result gives the message back. */
module RoundTrip {
  import opened Wrappers
  import opened Text
  import opened Headers
  import opened MimeTree
  import opened ContentType
  import opened Compose
  import QP = QuotedPrintable
  import B64 = Base64
  import Multipart
  import Boundary

  // ----- which messages come back ----------------------------------------------------------

  predicate AllComposable(hs: seq<Header>) {
    forall i :: 0 <= i < |hs| ==> Composable(hs[i])
  }

  function NormalizedTexts(texts: seq<string>): (r: seq<string>)
    ensures |r| == |texts| && forall i :: 0 <= i < |r| ==> r[i] == NormalizeRaw(texts[i])
  {
    seq(|texts|, i requires 0 <= i < |texts| => NormalizeRaw(texts[i]))
  }

  /**
   A leaf comes back when the composer accepts it, every header it is written with survives, its
   content type is not multipart, and at most one transfer-encoding header can be read.
   */
  predicate GoodLeaf(m: Message, top: bool) {
    && LeafPlan(m, top).Ok?
    && RenderBody(m, LeafPlan(m, top).value.encoding).Ok?
    && AllComposable(LeafPlan(m, top).value.headers)
    && !IsMultipart(TypeOf(LeafPlan(m, top).value.headers))
    && NameCount(TopHeaders(m, top), TRANSFER_ENCODING) <= 1
  }

  /** Every leaf survives, and every multipart node has headers that do and a multipart type that is read back. */
  predicate Readable(m: Message, top: bool)
    decreases m
  {
    if m.parts == [] then GoodLeaf(m, top)
    else
      && AllComposable(MultipartHeaders(m, top))
      && MultipartName(MultipartBase(m, top))
      && NameCount(TopHeaders(m, top), CONTENT_TYPE) <= 1
      && forall i :: 0 <= i < |m.parts| ==> Readable(m.parts[i], false)
  }

  /** No line of a rendered part is a delimiter of the node around it. */
  predicate AllFresh(m: Message, top: bool)
    decreases m
  {
    m.parts != [] ==>
      && (forall i :: 0 <= i < |m.parts| ==> AllFresh(m.parts[i], false))
      && RenderAll(m.parts).Ok?
      && Multipart.Fresh(NormalizedTexts(RenderAll(m.parts).value), BoundaryOf(m, top))
  }

  /** The messages that come back. */
  predicate Good(m: Message, top: bool) {
    Readable(m, top) && AllFresh(m, top)
  }

  /** The bytes a leaf's body comes back as. */
  function ExpectedBytes(m: Message, e: TransferEncoding): string {
    match e
    case SevenBit | EightBit | Binary => NormalizeRaw(BodyBytes(m))
    case QuotedPrintable => CollapseCrlf(BodyBytes(m))
    case Base64 => BodyBytes(m)
  }

  /** The tree that parsing is expected to give. */
  function Expected(m: Message, top: bool): ParsedMessage
    requires Readable(m, top)
    decreases m, 0
  {
    if m.parts == [] then
      var leaf := LeafPlan(m, top).value;
      ParsedMessage(leaf.headers, Some(ExpectedBytes(m, leaf.encoding)), [], IsText(TypeOf(leaf.headers)))
    else ParsedMessage(MultipartHeaders(m, top), None, ExpectedAll(m.parts), false)
  }

  function ExpectedAll(parts: seq<Message>): seq<ParsedMessage>
    requires forall i :: 0 <= i < |parts| ==> Readable(parts[i], false)
    decreases parts
  {
    if parts == [] then [] else [Expected(parts[0], false)] + ExpectedAll(parts[1..])
  }

  // ----- bodies ----------------------------------------------------------------------------

  lemma BodyRoundTrip(m: Message, e: TransferEncoding)
    requires RenderBody(m, e).Ok?
    ensures DecodeAs(e, NormalizeRaw(RenderBody(m, e).value)) == Ok(ExpectedBytes(m, e))
  {
    match e
    case SevenBit =>
    case EightBit =>
    case Binary =>
    case QuotedPrintable => QP.NormalizedRoundTrip(BodyBytes(m));
    case Base64 => B64.RoundTrip(BodyBytes(m));
  }

  /** A text body comes back LF-normalised in every encoding, once its line endings are normalised. */
  lemma TextComesBack(m: Message, e: TransferEncoding)
    requires m.body.Some? && m.body.value.Text?
    ensures NormalizeRaw(ExpectedBytes(m, e)) == NormalizeRaw(m.body.value.text)
    ensures e != Base64 ==> ExpectedBytes(m, e) == NormalizeRaw(m.body.value.text)
  {
    var t := m.body.value.text;
    NormalizeTextRoundTrip(t);
    NormalizeHasNoCr(t);
    NormalizeIdentity(NormalizeRaw(t));
  }

  // ----- headers ---------------------------------------------------------------------------

  lemma NamesDiffer()
    ensures !Matches(CONTENT_TYPE, TRANSFER_ENCODING) && !Matches(TRANSFER_ENCODING, CONTENT_TYPE)
  {
    assert |Lower(CONTENT_TYPE)| != |Lower(TRANSFER_ENCODING)|;
  }

  lemma LeafEncodingReads(m: Message, top: bool)
    requires LeafPlan(m, top).Ok? && NameCount(TopHeaders(m, top), TRANSFER_ENCODING) <= 1
    ensures EncodingOf(LeafPlan(m, top).value.headers) == LeafPlan(m, top).value.encoding
    ensures LeafPlan(m, top).value.headers != []
  {
    var hs := TopHeaders(m, top);
    var typed := if HeaderValue(hs, CONTENT_TYPE).None? then SetHeader(hs, CONTENT_TYPE, DEFAULT_TEXT) else hs;
    var e := LeafPlan(m, top).value.encoding;
    NamesDiffer();
    SetOther(hs, CONTENT_TYPE, DEFAULT_TEXT, TRANSFER_ENCODING);
    SetThenGet(typed, TRANSFER_ENCODING, Token(e));
    TokenParses(e);
  }

  lemma ComposableRenders(hs: seq<Header>)
    requires AllComposable(hs)
    ensures Rendered(hs).Ok?
  {
    forall h | h in hs ensures Valid(h) {
      var i :| 0 <= i < |hs| && hs[i] == h;
      assert Composable(hs[i]);
    }
    NormalizeRendered(hs);
  }

  /** The headers and the body of a written message are told apart again. */
  lemma HeadAndBody(hs: seq<Header>, body: string) returns (block: string)
    requires hs != [] && AllComposable(hs)
    ensures Rendered(hs).Ok?
    ensures SplitHeaderBody(NormalizeRaw(Rendered(hs).value + "\r\n" + body)) == Ok((block, NormalizeRaw(body)))
    ensures Parsed(block) == Ok(hs)
  {
    var ls := BlockLines(hs);
    assert forall h :: h in hs ==> Composable(h);
    assert forall h :: h in hs ==> Valid(h);
    NormalizeRendered(hs);
    BlockHeaderLines(hs);
    SplitBlock(ls, NormalizeRaw(body));
    block := Join(ls, "\n");
    BlockRoundTrip(hs, None);
    assert [] + hs == hs;
    var head := Rendered(hs).value;
    NormalizeCrlf("\r\n");
    NormalizeAppend(head, "\r\n");
    NormalizeAppend(head + "\r\n", body);
  }

  // ----- framing ---------------------------------------------------------------------------

  lemma NormalizeLine(line: string, rest: string)
    ensures NormalizeRaw(line + "\r\n" + rest) == NormalizeRaw(line) + "\n" + NormalizeRaw(rest)
  {
    NormalizeCrlf("\r\n");
    NormalizeAppend(line, "\r\n");
    NormalizeAppend(line + "\r\n", rest);
  }

  lemma {:induction false} NormalizeFramed(texts: seq<string>, boundary: string)
    requires '\r' !in boundary && '\n' !in boundary
    ensures NormalizeRaw(FramedCrlf(texts, boundary)) == Multipart.Framed(NormalizedTexts(texts), boundary)
  {
    var ns := NormalizedTexts(texts);
    if texts == [] {
      var close := Multipart.CloseMarker(boundary);
      NormalizeIdentity(close);
      NormalizeLine(close, "");
      assert close + "\r\n" + "" == close + "\r\n";
      assert close + "\n" + "" == close + "\n";
    } else {
      var marker := Multipart.Marker(boundary);
      NormalizeFramed(texts[1..], boundary);
      NormalizeIdentity(marker);
      NormalizeLine(texts[0], FramedCrlf(texts[1..], boundary));
      NormalizeLine(marker, texts[0] + "\r\n" + FramedCrlf(texts[1..], boundary));
      assert ns[1..] == NormalizedTexts(texts[1..]);
    }
  }

  lemma GeneratedChars(m: Message)
    ensures forall c :: c in Boundary.Generated(m) ==> Boundary.HexChar(c) || c in "mechanics-"
  {
    var seed := Boundary.Seed(m, Boundary.FNV_OFFSET);
    var k := Boundary.FirstFree(m, seed, 0);
    Boundary.PaddedDenotes(seed as int, 16);
    Boundary.PaddedDenotes(k, 4);
  }

  lemma GeneratedHasNoSemicolon(m: Message)
    ensures ';' !in Boundary.Generated(m)
  {
    GeneratedChars(m);
    assert ';' !in "mechanics-";
  }

  lemma DefaultMultipartShape()
    ensures ';' !in DEFAULT_MULTIPART && Folding.Trimmed(DEFAULT_MULTIPART)
  {
  }

  /** Neither the base type nor the boundary of a multipart node holds a `;`. */
  lemma BoundaryShape(m: Message, top: bool)
    ensures ';' !in BoundaryOf(m, top)
    ensures ';' !in MultipartBase(m, top) && Folding.Trimmed(MultipartBase(m, top))
  {
    GeneratedHasNoSemicolon(m);
    match HeaderValue(TopHeaders(m, top), CONTENT_TYPE)
    case Some(v) =>
      BaseShape(v);
      ParsedBoundaryChars(v, ';');
    case None =>
      DefaultMultipartShape();
  }

  /** The content type of a multipart node as written, and what reading it gives. */
  lemma MultipartTypeReads(m: Message, top: bool)
    requires AllComposable(MultipartHeaders(m, top)) && NameCount(TopHeaders(m, top), CONTENT_TYPE) <= 1
    ensures var hs, b := MultipartHeaders(m, top), BoundaryOf(m, top);
            && hs != [] && '\r' !in b && '\n' !in b
            && (IsMultipart(TypeOf(hs)) <==> MultipartName(MultipartBase(m, top)))
            && ParseBoundary(TypeOf(hs)) == Some(b)
  {
    var base, b := MultipartBase(m, top), BoundaryOf(m, top);
    var hs := MultipartHeaders(m, top);
    BoundaryShape(m, top);
    ComposedType(base, b);
    var v := WithBoundary(base, b);
    SetThenGet(TopHeaders(m, top), CONTENT_TYPE, v);
    ValueHasHeader(hs, CONTENT_TYPE);
    var i :| 0 <= i < |hs| && hs[i].value == v;
    assert ValidValue(v);
    assert forall c :: c in b ==> c in v;
  }

  // ----- the theorem -----------------------------------------------------------------------

  lemma LeafRoundTrip(m: Message, top: bool)
    requires m.parts == [] && Readable(m, top)
    ensures RenderMessage(m, top).Ok?
    ensures ParseMessage(NormalizeRaw(RenderMessage(m, top).value)) == Ok(Expected(m, top))
  {
    var leaf := LeafPlan(m, top).value;
    var body := RenderBody(m, leaf.encoding).value;
    LeafEncodingReads(m, top);
    BodyRoundTrip(m, leaf.encoding);
    var block := HeadAndBody(leaf.headers, body);
  }

  lemma {:induction false} ParsedParts(texts: seq<string>, parts: seq<Message>, bound: nat)
    requires |texts| == |parts| && forall i :: 0 <= i < |parts| ==> Readable(parts[i], false)
    requires forall i :: 0 <= i < |texts| ==> |texts[i]| < bound
    requires forall i :: 0 <= i < |texts| ==> ParseMessage(texts[i]) == Ok(Expected(parts[i], false))
    ensures ParseAll(texts, bound) == Ok(ExpectedAll(parts))
  {
    if parts != [] {
      assert forall i :: 0 <= i < |parts[1..]| ==> parts[1..][i] == parts[i + 1] && texts[1..][i] == texts[i + 1];
      ParsedParts(texts[1..], parts[1..], bound);
    }
  }

  /** Parsing a multipart message step by step. */
  lemma ParseMultipart(raw: string, block: string, hs: seq<Header>, body: string, b: string,
                       sections: seq<string>, parts: seq<ParsedMessage>)
    requires SplitHeaderBody(raw) == Ok((block, body)) && Parsed(block) == Ok(hs)
    requires IsMultipart(TypeOf(hs)) && ParseBoundary(TypeOf(hs)) == Some(b)
    requires Multipart.Sections(body, b) == Ok(sections)
    requires forall i :: 0 <= i < |sections| ==> |sections[i]| < |raw|
    requires ParseAll(sections, |raw|) == Ok(parts)
    ensures ParseMessage(raw) == Ok(ParsedMessage(hs, None, parts, false))
  {
  }

  lemma SectionsReturn(texts: seq<string>, b: string)
    requires '\r' !in b && '\n' !in b && Multipart.Fresh(NormalizedTexts(texts), b)
    ensures var ns := NormalizedTexts(texts);
            Multipart.Sections(NormalizeRaw(FramedCrlf(texts, b)), b) == Ok(ns)
    ensures forall i :: 0 <= i < |texts| ==> |NormalizeRaw(texts[i])| <= |NormalizeRaw(FramedCrlf(texts, b))| + 1
  {
    var ns := NormalizedTexts(texts);
    NormalizeFramed(texts, b);
    forall p | p in ns ensures '\r' !in p {
      var i :| 0 <= i < |ns| && ns[i] == p;
      NormalizeHasNoCr(texts[i]);
    }
    Multipart.SectionsInvertFraming(ns, b);
    Multipart.SectionsBound(Multipart.Framed(ns, b), b);
    forall i | 0 <= i < |texts| ensures |NormalizeRaw(texts[i])| <= |NormalizeRaw(FramedCrlf(texts, b))| + 1 {
      assert ns[i] == NormalizeRaw(texts[i]);
    }
  }

  lemma RenderedMultipart(m: Message, top: bool, texts: seq<string>, head: string)
    requires m.parts != [] && Rendered(MultipartHeaders(m, top)) == Ok(head) && RenderAll(m.parts) == Ok(texts)
    ensures RenderMessage(m, top) == Ok(head + "\r\n" + FramedCrlf(texts, BoundaryOf(m, top)))
  {
  }

  /** What the parser reads of a written multipart node before it splits the body. */
  lemma NodeReads(m: Message, top: bool, texts: seq<string>) returns (raw: string, block: string)
    requires AllComposable(MultipartHeaders(m, top)) && MultipartName(MultipartBase(m, top))
    requires NameCount(TopHeaders(m, top), CONTENT_TYPE) <= 1 && m.parts != [] && RenderAll(m.parts) == Ok(texts)
    ensures RenderMessage(m, top).Ok? && raw == NormalizeRaw(RenderMessage(m, top).value)
    ensures SplitHeaderBody(raw) == Ok((block, NormalizeRaw(FramedCrlf(texts, BoundaryOf(m, top)))))
    ensures Parsed(block) == Ok(MultipartHeaders(m, top))
    ensures IsMultipart(TypeOf(MultipartHeaders(m, top)))
    ensures ParseBoundary(TypeOf(MultipartHeaders(m, top))) == Some(BoundaryOf(m, top))
    ensures '\r' !in BoundaryOf(m, top) && '\n' !in BoundaryOf(m, top)
  {
    var hs, body := MultipartHeaders(m, top), FramedCrlf(texts, BoundaryOf(m, top));
    MultipartTypeReads(m, top);
    block := HeadAndBody(hs, body);
    RenderedMultipart(m, top, texts, Rendered(hs).value);
    raw := NormalizeRaw(Rendered(hs).value + "\r\n" + body);
  }

  /** The sections of a written node are its parts, and short enough to be parsed in turn. */
  lemma PartsReturn(raw: string, block: string, texts: seq<string>, b: string)
    requires SplitHeaderBody(raw) == Ok((block, NormalizeRaw(FramedCrlf(texts, b))))
    requires '\r' !in b && '\n' !in b && Multipart.Fresh(NormalizedTexts(texts), b)
    ensures Multipart.Sections(NormalizeRaw(FramedCrlf(texts, b)), b) == Ok(NormalizedTexts(texts))
    ensures forall i :: 0 <= i < |texts| ==> |NormalizedTexts(texts)[i]| < |raw|
  {
    SectionsReturn(texts, b);
  }

  lemma PartsParse(raw: string, block: string, hs: seq<Header>, body: string, b: string,
                   ns: seq<string>, parts: seq<Message>)
    requires SplitHeaderBody(raw) == Ok((block, body)) && Parsed(block) == Ok(hs)
    requires IsMultipart(TypeOf(hs)) && ParseBoundary(TypeOf(hs)) == Some(b)
    requires Multipart.Sections(body, b) == Ok(ns) && forall i :: 0 <= i < |ns| ==> |ns[i]| < |raw|
    requires |ns| == |parts| && forall i :: 0 <= i < |parts| ==> Readable(parts[i], false)
    requires forall i :: 0 <= i < |ns| ==> ParseMessage(ns[i]) == Ok(Expected(parts[i], false))
    ensures ParseMessage(raw) == Ok(ParsedMessage(hs, None, ExpectedAll(parts), false))
  {
    ParsedParts(ns, parts, |raw|);
    ParseMultipart(raw, block, hs, body, b, ns, ExpectedAll(parts));
  }

  lemma MultipartRoundTrip(m: Message, top: bool, texts: seq<string>)
    requires m.parts != [] && Readable(m, top) && RenderAll(m.parts) == Ok(texts)
    requires Multipart.Fresh(NormalizedTexts(texts), BoundaryOf(m, top))
    requires forall i :: 0 <= i < |m.parts| ==>
               ParseMessage(NormalizedTexts(texts)[i]) == Ok(Expected(m.parts[i], false))
    ensures RenderMessage(m, top).Ok?
    ensures ParseMessage(NormalizeRaw(RenderMessage(m, top).value)) == Ok(Expected(m, top))
  {
    var hs, b, ns := MultipartHeaders(m, top), BoundaryOf(m, top), NormalizedTexts(texts);
    var raw, block := NodeReads(m, top, texts);
    PartsReturn(raw, block, texts, b);
    PartsParse(raw, block, hs, NormalizeRaw(FramedCrlf(texts, b)), b, ns, m.parts);
  }

  /**
   The full round trip: parsing the LF-normalised rendering returns the tree that was composed, with
   the headers it was written with and every leaf's bytes as its transfer encoding carries them.
   */
  lemma {:induction false} MessageRoundTrip(m: Message, top: bool)
    requires Good(m, top)
    ensures RenderMessage(m, top).Ok?
    ensures ParseMessage(NormalizeRaw(RenderMessage(m, top).value)) == Ok(Expected(m, top))
    decreases m
  {
    if m.parts == [] {
      LeafRoundTrip(m, top);
    } else {
      var texts := RenderAll(m.parts).value;
      forall i | 0 <= i < |m.parts|
        ensures ParseMessage(NormalizedTexts(texts)[i]) == Ok(Expected(m.parts[i], false))
      {
        MessageRoundTrip(m.parts[i], false);
      }
      MultipartRoundTrip(m, top, texts);
    }
  }

  // ----- messages from elsewhere -----------------------------------------------------------

  /** A body under no encoding, or one that is unknown, is read as it stands. */
  lemma UnknownReadsPlain(raw: string, block: string, hs: seq<Header>, body: string)
    requires SplitHeaderBody(raw) == Ok((block, body)) && Parsed(block) == Ok(hs) && !IsMultipart(TypeOf(hs))
    requires HeaderValue(hs, TRANSFER_ENCODING).None? || ParseEncoding(HeaderValue(hs, TRANSFER_ENCODING).value).None?
    ensures ParseMessage(raw) == Ok(ParsedMessage(hs, Some(body), [], IsText(TypeOf(hs))))
  {
  }

  /** A multipart message without a boundary is an error. */
  lemma BoundaryNeeded(raw: string, block: string, hs: seq<Header>, body: string)
    requires SplitHeaderBody(raw) == Ok((block, body)) && Parsed(block) == Ok(hs)
    requires IsMultipart(TypeOf(hs)) && ParseBoundary(TypeOf(hs)).None?
    ensures ParseMessage(raw).Err?
  {
  }
}
