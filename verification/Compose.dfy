/** Composing a message tree into raw text and parsing raw text into a tree. */
module Compose {
  import opened Wrappers
  import opened Text
  import opened Headers
  import opened MimeTree
  import opened ContentType
  import QP = QuotedPrintable
  import B64 = Base64
  import Multipart
  import Boundary

  const MIME_VERSION := "MIME-Version"
  const CONTENT_TYPE := "Content-Type"
  const TRANSFER_ENCODING := "Content-Transfer-Encoding"
  const DEFAULT_TEXT := "text/plain; charset=utf-8"
  const DEFAULT_MULTIPART := "multipart/mixed"

  // ----- transfer encodings ----------------------------------------------------------------

  datatype TransferEncoding = SevenBit | EightBit | Binary | QuotedPrintable | Base64

  function ParseEncoding(token: string): Option<TransferEncoding> {
    var t := Lower(token);
    if t == "7bit" then Some(SevenBit)
    else if t == "8bit" then Some(EightBit)
    else if t == "binary" then Some(Binary)
    else if t == "quoted-printable" then Some(QuotedPrintable)
    else if t == "base64" then Some(Base64)
    else None
  }

  function Token(e: TransferEncoding): string {
    match e
    case SevenBit => "7bit"
    case EightBit => "8bit"
    case Binary => "binary"
    case QuotedPrintable => "quoted-printable"
    case Base64 => "base64"
  }

  /** An encoding is read from its own token in any case, and from nothing else. */
  lemma TokenParsesExactly(token: string, e: TransferEncoding)
    ensures ParseEncoding(token) == Some(e) <==> Lower(token) == Token(e)
  {
    var t := Lower(token);
    assert |t| == 4 ==> t != "binary";
  }

  lemma TokenParses(e: TransferEncoding)
    ensures ParseEncoding(Token(e)) == Some(e)
  {
    assert Lower(Token(e)) == Token(e);
  }

  function TypeOf(hs: seq<Header>): string {
    match HeaderValue(hs, CONTENT_TYPE)
    case Some(v) => v
    case None => DEFAULT_TEXT
  }

  /** `choose_encoding`: explicit field, then header, then by content. */
  function ChooseEncoding(m: Message, hs: seq<Header>): Result<TransferEncoding> {
    if m.encoding.Some? then
      match ParseEncoding(m.encoding.value)
      case Some(e) => Ok(e)
      case None => Err("MIME encoding must be 7bit, 8bit, binary, quoted-printable, or base64")
    else if HeaderValue(hs, TRANSFER_ENCODING).Some? then
      match ParseEncoding(HeaderValue(hs, TRANSFER_ENCODING).value)
      case Some(e) => Ok(e)
      case None => Err("invalid Content-Transfer-Encoding header")
    else
      match m.body
      case Some(Text(text)) =>
        if !IsText(TypeOf(hs)) then Ok(Base64) else if IsAscii(text) then Ok(SevenBit) else Ok(QuotedPrintable)
      case Some(Bytes(_)) => Ok(Base64)
      case None => Ok(SevenBit)
  }

  lemma {:induction false} CollapseBytes(s: string)
    requires AllBytes(s)
    ensures AllBytes(CollapseCrlf(s))
  {
    if |s| >= 2 && s[0] == '\r' && s[1] == '\n' { CollapseBytes(s[2..]); } else if s != "" { CollapseBytes(s[1..]); }
  }

  lemma {:induction false} ExpandBytes(s: string)
    requires AllBytes(s)
    ensures AllBytes(ExpandLf(s))
  {
    if s != "" { ExpandBytes(s[1..]); }
  }

  /** `body_bytes_and_text`: text goes out with CRLF line endings, bytes as they are. */
  function BodyBytes(m: Message): ByteString {
    match m.body
    case Some(Text(text)) =>
      Utf8IsBytes(text);
      CollapseBytes(text);
      ExpandBytes(NormalizeRaw(text));
      NormalizeTextLines(text)
    case Some(Bytes(bytes)) => bytes
    case None => ""
  }

  /** `render_body` */
  function RenderBody(m: Message, e: TransferEncoding): Result<string> {
    var bytes := BodyBytes(m);
    match e
    case SevenBit => if IsAscii(bytes) then Ok(bytes) else Err("7bit MIME bodies must be ASCII")
    case EightBit | Binary =>
      if m.body.Some? && m.body.value.Bytes?
      then Err("explicit 8bit/binary Uint8Array bodies cannot be represented in a JS string")
      else if ValidUtf8(bytes) then Ok(bytes) else Err("MIME body is not UTF-8")
    case QuotedPrintable => Ok(QP.Encoded(bytes))
    case Base64 => Ok(B64.EncodeWrapped(bytes))
  }

  // ----- composing -------------------------------------------------------------------------

  function TopHeaders(m: Message, top: bool): seq<Header> {
    if top && HeaderValue(m.headers, MIME_VERSION).None? then [Header(MIME_VERSION, "1.0")] + m.headers else m.headers
  }

  datatype Leaf = Leaf(headers: seq<Header>, encoding: TransferEncoding)

  /** The headers and encoding a leaf is written with. */
  function LeafPlan(m: Message, top: bool): Result<Leaf> {
    var hs := TopHeaders(m, top);
    var typed := if HeaderValue(hs, CONTENT_TYPE).None? then SetHeader(hs, CONTENT_TYPE, DEFAULT_TEXT) else hs;
    var e :- ChooseEncoding(m, typed);
    Ok(Leaf(SetHeader(typed, TRANSFER_ENCODING, Token(e)), e))
  }

  /** The boundary of a multipart node: the one its content type names, or a generated one. */
  function BoundaryOf(m: Message, top: bool): string {
    match HeaderValue(TopHeaders(m, top), CONTENT_TYPE)
    case Some(v) => if ParseBoundary(v).Some? then ParseBoundary(v).value else Boundary.Generated(m)
    case None => Boundary.Generated(m)
  }

  function MultipartBase(m: Message, top: bool): string {
    match HeaderValue(TopHeaders(m, top), CONTENT_TYPE)
    case Some(v) => Base(v)
    case None => DEFAULT_MULTIPART
  }

  function MultipartHeaders(m: Message, top: bool): seq<Header> {
    SetHeader(TopHeaders(m, top), CONTENT_TYPE, WithBoundary(MultipartBase(m, top), BoundaryOf(m, top)))
  }

  /** The multipart body as written: CRLF line ends, a delimiter before each part, the closing one last. */
  function FramedCrlf(texts: seq<string>, boundary: string): string {
    if texts == [] then Multipart.CloseMarker(boundary) + "\r\n"
    else Multipart.Marker(boundary) + "\r\n" + (texts[0] + "\r\n" + FramedCrlf(texts[1..], boundary))
  }

  /** `render_message` */
  function RenderMessage(m: Message, top: bool): Result<string>
    decreases m, 0
  {
    if m.parts != [] then
      var head :- Rendered(MultipartHeaders(m, top));
      var texts :- RenderAll(m.parts);
      Ok(head + "\r\n" + FramedCrlf(texts, BoundaryOf(m, top)))
    else
      var leaf :- LeafPlan(m, top);
      var head :- Rendered(leaf.headers);
      var body :- RenderBody(m, leaf.encoding);
      Ok(head + "\r\n" + body)
  }

  function RenderAll(parts: seq<Message>): (r: Result<seq<string>>)
    ensures r.Ok? ==> |r.value| == |parts|
    ensures r.Ok? ==> forall i :: 0 <= i < |parts| ==> RenderMessage(parts[i], false) == Ok(r.value[i])
    decreases parts
  {
    if parts == [] then Ok([])
    else
      var first :- RenderMessage(parts[0], false);
      var rest :- RenderAll(parts[1..]);
      assert forall i :: 1 <= i < |parts| ==> parts[i] == parts[1..][i - 1];
      Ok([first] + rest)
  }

  // ----- parsing ---------------------------------------------------------------------------

  datatype ParsedMessage = ParsedMessage(headers: seq<Header>, body: Option<string>, parts: seq<ParsedMessage>, textBody: bool)

  function EncodingOf(hs: seq<Header>): TransferEncoding {
    match HeaderValue(hs, TRANSFER_ENCODING)
    case Some(v) => if ParseEncoding(v).Some? then ParseEncoding(v).value else SevenBit
    case None => SevenBit
  }

  function DecodeAs(e: TransferEncoding, raw: string): Result<string> {
    match e
    case SevenBit | EightBit | Binary => Ok(raw)
    case QuotedPrintable => QP.Decoded(raw, false)
    case Base64 => B64.DecodeLiberal(raw)
  }

  /** `decode_body` */
  function DecodeBody(raw: string, hs: seq<Header>): Result<string> {
    DecodeAs(EncodingOf(hs), raw)
  }

  /** `parse_message_raw` */
  function ParseMessage(raw: string): Result<ParsedMessage>
    decreases |raw|
  {
    var (block, body) :- SplitHeaderBody(raw);
    var hs :- Parsed(block);
    if IsMultipart(TypeOf(hs)) then
      if ParseBoundary(TypeOf(hs)).None? then Err("multipart MIME message is missing boundary")
      else
        Multipart.SectionsBound(body, ParseBoundary(TypeOf(hs)).value);
        var sections :- Multipart.Sections(body, ParseBoundary(TypeOf(hs)).value);
        var parts :- ParseAll(sections, |raw|);
        Ok(ParsedMessage(hs, None, parts, false))
    else
      var bytes :- DecodeBody(body, hs);
      Ok(ParsedMessage(hs, Some(bytes), [], IsText(TypeOf(hs))))
  }

  function ParseAll(sections: seq<string>, bound: nat): Result<seq<ParsedMessage>>
    requires forall i :: 0 <= i < |sections| ==> |sections[i]| < bound
    decreases bound, |sections|
  {
    if sections == [] then Ok([])
    else
      var first :- ParseMessage(sections[0]);
      var rest :- ParseAll(sections[1..], bound);
      Ok([first] + rest)
  }
}
