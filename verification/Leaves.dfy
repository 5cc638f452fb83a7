/** Which encoding a leaf is given, and what that does to its body. */
module Leaves {
  import opened Wrappers
  import opened Text
  import opened Headers
  import opened MimeTree
  import opened ContentType
  import opened Compose
  import opened RoundTrip
  import opened AddedHeaders
  import opened Presentation
  import QP = QuotedPrintable
  import Collision

  // ----- what the caller supplied ----------------------------------------------------------

  /** The encoding the caller names: by the field, or else by a header. */
  function Named(m: Message): Option<string> {
    if m.encoding.Some? then m.encoding else HeaderValue(m.headers, TRANSFER_ENCODING)
  }

  /** Which bodies each encoding can carry. */
  predicate Carries(e: TransferEncoding, m: Message) {
    match e
    case SevenBit => m.body.None? || IsAscii(m.body.value.Content())
    case EightBit | Binary => m.body.None? || m.body.value.Text?
    case QuotedPrintable | Base64 => true
  }

  /** The body can be written in the encoding named, if one is. */
  predicate Encodable(m: Message) {
    Named(m).None? || (ParseEncoding(Named(m).value).Some? && Carries(ParseEncoding(Named(m).value).value, m))
  }

  /** A leaf judged by what its caller supplied. */
  predicate Supplied(m: Message) {
    && m.parts == [] && AllComposable(m.headers) && Encodable(m)
    && !IsMultipart(TypeOf(m.headers)) && NameCount(m.headers, TRANSFER_ENCODING) <= 1
  }

  lemma VersionIsOther()
    ensures !Matches(MIME_VERSION, CONTENT_TYPE) && !Matches(MIME_VERSION, TRANSFER_ENCODING)
  {
    assert Lower(MIME_VERSION)[0] == 'm' && Lower(CONTENT_TYPE)[0] == 'c' && Lower(TRANSFER_ENCODING)[0] == 'c';
  }

  lemma TopReads(m: Message, top: bool)
    ensures HeaderValue(TopHeaders(m, top), CONTENT_TYPE) == HeaderValue(m.headers, CONTENT_TYPE)
    ensures HeaderValue(TopHeaders(m, top), TRANSFER_ENCODING) == HeaderValue(m.headers, TRANSFER_ENCODING)
    ensures NameCount(TopHeaders(m, top), TRANSFER_ENCODING) == NameCount(m.headers, TRANSFER_ENCODING)
  {
    VersionIsOther();
    var h := Header(MIME_VERSION, "1.0");
    assert ([h] + m.headers)[1..] == m.headers;
  }

  // ----- characters of a text body ---------------------------------------------------------

  lemma AsciiAppend(a: string, b: string)
    ensures IsAscii(a + b) <==> IsAscii(a) && IsAscii(b)
  {
    var s := a + b;
    assert forall i :: 0 <= i < |a| ==> s[i] == a[i];
    assert forall i :: 0 <= i < |b| ==> s[|a| + i] == b[i];
  }

  lemma {:induction false} CollapseAscii(s: string)
    ensures IsAscii(CollapseCrlf(s)) <==> IsAscii(s)
  {
    if |s| >= 2 && s[0] == '\r' && s[1] == '\n' {
      CollapseAscii(s[2..]);
      AsciiAppend("\r\n", s[2..]);
      AsciiAppend("\n", CollapseCrlf(s[2..]));
      assert s == "\r\n" + s[2..];
    } else if s != "" {
      CollapseAscii(s[1..]);
      AsciiAppend([s[0]], s[1..]);
      AsciiAppend([s[0]], CollapseCrlf(s[1..]));
      assert s == [s[0]] + s[1..];
    }
  }

  lemma {:induction false} ExpandAscii(s: string)
    ensures IsAscii(ExpandLf(s)) <==> IsAscii(s)
  {
    if s != "" {
      ExpandAscii(s[1..]);
      AsciiAppend([s[0]], s[1..]);
      AsciiAppend(if s[0] == '\n' then "\r\n" else [s[0]], ExpandLf(s[1..]));
      assert s == [s[0]] + s[1..];
    }
  }

  lemma CrAscii(s: string)
    ensures IsAscii(CrToLf(s)) <==> IsAscii(s)
  {
    assert forall i :: 0 <= i < |s| ==> ((CrToLf(s)[i] as int < 128) <==> (s[i] as int < 128));
  }

  lemma BodyAscii(m: Message)
    ensures IsAscii(BodyBytes(m)) <==> m.body.None? || IsAscii(m.body.value.Content())
  {
    if m.body.Some? && m.body.value.Text? {
      var text := m.body.value.text;
      CollapseAscii(text);
      CrAscii(CollapseCrlf(text));
      ExpandAscii(NormalizeRaw(text));
    }
  }

  // ----- the choice ------------------------------------------------------------------------

  /** How a leaf is to be written: as the field names it, or else a header, or else by its content. */
  function Wanted(m: Message): Option<TransferEncoding> {
    if Named(m).Some? then ParseEncoding(Named(m).value) else Some(ByContent(m.body, IsText(TypeOf(m.headers))))
  }

  function ByContent(body: Option<Body>, ofText: bool): TransferEncoding {
    match body
    case None => SevenBit
    case Some(Bytes(_)) => Base64
    case Some(Text(text)) => if !ofText then Base64 else if IsAscii(text) then SevenBit else QuotedPrintable
  }

  lemma ContentCarried(m: Message, ofText: bool)
    ensures Carries(ByContent(m.body, ofText), m)
  {
  }

  lemma ChoiceIsWanted(m: Message, typed: seq<Header>)
    requires HeaderValue(typed, TRANSFER_ENCODING) == HeaderValue(m.headers, TRANSFER_ENCODING)
    requires TypeOf(typed) == TypeOf(m.headers)
    ensures ChooseEncoding(m, typed).Ok? <==> Wanted(m).Some?
    ensures ChooseEncoding(m, typed).Ok? ==> ChooseEncoding(m, typed).value == Wanted(m).value
  {
  }

  lemma PlanWants(m: Message, top: bool)
    ensures LeafPlan(m, top).Ok? <==> Wanted(m).Some?
    ensures LeafPlan(m, top).Ok? ==> LeafPlan(m, top).value.encoding == Wanted(m).value
  {
    var hs := TopHeaders(m, top);
    var typed := if HeaderValue(hs, CONTENT_TYPE).None? then SetHeader(hs, CONTENT_TYPE, DEFAULT_TEXT) else hs;
    TopReads(m, top);
    NamesDiffer();
    SetOther(hs, CONTENT_TYPE, DEFAULT_TEXT, TRANSFER_ENCODING);
    AbsentName(hs, CONTENT_TYPE);
    SetThenGet(hs, CONTENT_TYPE, DEFAULT_TEXT);
    ChoiceIsWanted(m, typed);
  }

  lemma PlanTyped(m: Message, top: bool)
    requires LeafPlan(m, top).Ok?
    ensures TypeOf(LeafPlan(m, top).value.headers) == TypeOf(m.headers)
  {
    var hs, e := TopHeaders(m, top), LeafPlan(m, top).value.encoding;
    var typed := if HeaderValue(hs, CONTENT_TYPE).None? then SetHeader(hs, CONTENT_TYPE, DEFAULT_TEXT) else hs;
    TopReads(m, top);
    NamesDiffer();
    AbsentName(hs, CONTENT_TYPE);
    SetThenGet(hs, CONTENT_TYPE, DEFAULT_TEXT);
    SetOther(typed, TRANSFER_ENCODING, Token(e), CONTENT_TYPE);
  }

  lemma TextIsUtf8(m: Message)
    requires m.body.None? || m.body.value.Text?
    ensures ValidUtf8(BodyBytes(m))
  {
    if m.body.Some? { NormalizeUtf8(m.body.value.text); }
  }

  lemma CarriesExactly(m: Message, e: TransferEncoding)
    ensures RenderBody(m, e).Ok? <==> Carries(e, m)
  {
    BodyAscii(m);
    if m.body.None? || m.body.value.Text? { TextIsUtf8(m); }
  }

  lemma EncodableRenders(m: Message, e: TransferEncoding)
    requires Wanted(m) == Some(e)
    ensures RenderBody(m, e).Ok? <==> Encodable(m)
  {
    CarriesExactly(m, e);
    if Named(m).None? { ContentCarried(m, IsText(TypeOf(m.headers))); }
  }

  /** A leaf whose own headers survive is composed exactly if its body can be written as its caller asks. */
  lemma LeafComposes(m: Message, top: bool)
    requires m.parts == [] && AllComposable(m.headers)
    ensures RenderMessage(m, top).Ok? <==> Encodable(m)
  {
    PlanWants(m, top);
    if LeafPlan(m, top).Ok? {
      LeafHeadersCompose(m, top);
      ComposableRenders(LeafPlan(m, top).value.headers);
      EncodableRenders(m, LeafPlan(m, top).value.encoding);
    }
  }

  lemma SuppliedIsReadable(m: Message, top: bool)
    requires Supplied(m)
    ensures Readable(m, top)
  {
    PlanWants(m, top);
    LeafHeadersCompose(m, top);
    EncodableRenders(m, LeafPlan(m, top).value.encoding);
    PlanTyped(m, top);
    TopReads(m, top);
  }

  lemma ReadBack(m: Message, top: bool)
    requires Supplied(m)
    ensures RenderMessage(m, top).Ok? && Wanted(m).Some?
    ensures Collision.Reparsed(m, top).Ok?
    ensures var p := Collision.Reparsed(m, top).value;
            && p.parts == [] && p.body == Some(ExpectedBytes(m, Wanted(m).value))
            && p.textBody == IsText(TypeOf(m.headers)) && TypeOf(p.headers) == TypeOf(m.headers)
            && EncodingOf(p.headers) == Wanted(m).value
            && HeaderValue(p.headers, TRANSFER_ENCODING) == Some(Token(Wanted(m).value))
  {
    SuppliedIsReadable(m, top);
    PlanWants(m, top);
    PlanTyped(m, top);
    PlanTells(m, top);
    TopReads(m, top);
    LeafEncodingReads(m, top);
    LeafRoundTrip(m, top);
  }

  lemma PlanTells(m: Message, top: bool)
    requires LeafPlan(m, top).Ok? && NameCount(m.headers, TRANSFER_ENCODING) <= 1
    ensures HeaderValue(LeafPlan(m, top).value.headers, TRANSFER_ENCODING) == Some(Token(LeafPlan(m, top).value.encoding))
  {
    var hs, e := TopHeaders(m, top), LeafPlan(m, top).value.encoding;
    var typed := if HeaderValue(hs, CONTENT_TYPE).None? then SetHeader(hs, CONTENT_TYPE, DEFAULT_TEXT) else hs;
    TopReads(m, top);
    NamesDiffer();
    SetOther(hs, CONTENT_TYPE, DEFAULT_TEXT, TRANSFER_ENCODING);
    SetThenGet(typed, TRANSFER_ENCODING, Token(e));
  }

  /**
   The encoding a leaf is read back with is the one its caller names, by the field before a header; if
   none is named it is base64 for bytes and for anything under a type that is not text, and for text
   7bit or quoted-printable, as it is ASCII or not.
   */
  lemma EncodingReadBack(m: Message, top: bool)
    requires Supplied(m)
    ensures Collision.Reparsed(m, top).Ok?
    ensures var token := HeaderValue(Collision.Reparsed(m, top).value.headers, TRANSFER_ENCODING);
            token.Some? && ParseEncoding(token.value) == Wanted(m)
  {
    ReadBack(m, top);
    TokenParses(Wanted(m).value);
  }

  /** Bytes for which no encoding is named come back as they were, under every type. */
  lemma BytesComeBack(m: Message)
    requires Supplied(m) && Named(m).None? && m.body.Some? && m.body.value.Bytes?
    ensures RenderMessage(m, true).Ok? && Collision.Reparsed(m, true).Ok?
    ensures Collision.Reparsed(m, true).value.body == Some(m.body.value.bytes)
    ensures !IsText(TypeOf(m.headers)) ==>
              var shown := Parse(RenderMessage(m, true).value);
              shown.Ok? && shown.value.ShownBytes? && shown.value.bytes == m.body.value.bytes
  {
    ReadBack(m, true);
    var p := Collision.Reparsed(m, true).value;
    assert Parse(RenderMessage(m, true).value) == Present(p);
  }

  lemma LeafText(m: Message, top: bool)
    requires Supplied(m)
    ensures Wanted(m).Some? && RenderBody(m, Wanted(m).value).Ok? && LeafPlan(m, top).Ok?
    ensures Rendered(LeafPlan(m, top).value.headers).Ok?
    ensures RenderMessage(m, top)
         == Ok(Rendered(LeafPlan(m, top).value.headers).value + "\r\n" + RenderBody(m, Wanted(m).value).value)
  {
    PlanWants(m, top);
    SuppliedIsReadable(m, top);
    ComposableRenders(LeafPlan(m, top).value.headers);
  }

  /**
   A text of a text type for which no encoding is named stands in the message behind its headers: as its
   lines with CRLF ends if it is ASCII, and as their quoted-printable encoding otherwise.
   */
  lemma TextStands(m: Message, top: bool) returns (head: string)
    requires Supplied(m) && Named(m).None? && m.body.Some? && m.body.value.Text? && IsText(TypeOf(m.headers))
    ensures var lines := NormalizeTextLines(m.body.value.text);
            RenderMessage(m, top) == Ok(head + "\r\n" + if IsAscii(lines) then lines else QP.Encoded(lines))
  {
    LeafText(m, top);
    BodyAscii(m);
    head := Rendered(LeafPlan(m, top).value.headers).value;
  }
}
