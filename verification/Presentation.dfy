/** What a script sees: composing a message and handing the parsed tree back. */
module Presentation {
  import opened Wrappers
  import opened Text
  import opened Headers
  import opened MimeTree
  import opened ContentType
  import opened Compose
  import opened RoundTrip
  import QP = QuotedPrintable
  import Freshness
  import Boundary
  import Multipart

  // ----- UTF-8 and line endings ------------------------------------------------------------

  /** The bytes of a sequence that starts with a high byte are all high. */
  lemma HighHead(s: string)
    requires s != "" && s[0] as int >= 0x80
    ensures forall i :: 0 <= i < Utf8Head(s) ==> s[i] as int >= 0x80
  {
  }

  lemma SameHead(s: string, t: string)
    requires Utf8Head(s) > 0 && s[..Utf8Head(s)] <= t
    ensures Utf8Head(t) == Utf8Head(s)
  {
    var h := s[..Utf8Head(s)];
    assert forall i :: 0 <= i < |h| ==> t[i] == h[i] == s[i];
  }

  lemma {:induction false} CrToLfUtf8(s: string)
    ensures ValidUtf8(CrToLf(s)) <==> ValidUtf8(s)
    decreases |s|
  {
    if s != "" {
      assert Utf8Head(CrToLf(s)) == Utf8Head(s);
      var n := Utf8Head(s);
      if n > 0 {
        assert CrToLf(s)[n..] == CrToLf(s[n..]);
        CrToLfUtf8(s[n..]);
      }
    }
  }

  /** A high head stands before and after collapsing, and the rest is collapsed on its own. */
  lemma HighHeadCollapses(s: string, n: nat)
    requires s != "" && s[0] as int >= 0x80 && n <= |s|
    requires forall i :: 0 <= i < n ==> s[i] as int >= 0x80
    ensures CollapseCrlf(s) == s[..n] + CollapseCrlf(s[n..])
  {
    assert s == s[..n] + s[n..];
    CollapseIdentity(s[..n]);
    CollapseAppend(s[..n], s[n..]);
  }

  lemma CollapseHighHead(s: string)
    requires s != "" && s[0] as int >= 0x80
    ensures CollapseCrlf(s) != "" && CollapseCrlf(s)[0] == s[0]
    ensures Utf8Head(CollapseCrlf(s)) == Utf8Head(s)
    ensures CollapseCrlf(s)[Utf8Head(s)..] == CollapseCrlf(s[Utf8Head(s)..])
  {
    var c, n := CollapseCrlf(s), Utf8Head(s);
    HighHead(s);
    HighHeadCollapses(s, n);
    HighHeadCollapses(s, 1);
    if n > 0 {
      SameHead(s, c);
    } else if Utf8Head(c) > 0 {
      var k := Utf8Head(c);
      HighHead(c);
      Freshness.PrefixThroughCollapse(s, c[..k]);
      SameHead(c, s);
    }
  }

  /** Collapsing line endings neither makes nor breaks well-formed UTF-8. */
  lemma {:induction false} CollapseUtf8(s: string)
    ensures ValidUtf8(CollapseCrlf(s)) <==> ValidUtf8(s)
    decreases |s|
  {
    if s != "" {
      if s[0] as int >= 0x80 {
        CollapseHighHead(s);
        if Utf8Head(s) > 0 { CollapseUtf8(s[Utf8Head(s)..]); }
      } else if |s| >= 2 && s[0] == '\r' && s[1] == '\n' {
        CollapseUtf8(s[2..]);
        assert s[1..][1..] == s[2..];
        assert CollapseCrlf(s)[1..] == CollapseCrlf(s[2..]);
      } else {
        CollapseUtf8(s[1..]);
        assert CollapseCrlf(s)[1..] == CollapseCrlf(s[1..]);
      }
    }
  }

  lemma NormalizeUtf8(s: string)
    ensures ValidUtf8(NormalizeRaw(s)) <==> ValidUtf8(s)
    ensures ValidUtf8(NormalizeTextLines(s)) <==> ValidUtf8(s)
  {
    CollapseUtf8(s);
    CrToLfUtf8(CollapseCrlf(s));
    NormalizeHasNoCr(s);
    CollapseExpand(NormalizeRaw(s));
    CollapseUtf8(NormalizeTextLines(s));
  }

  // ----- presenting ------------------------------------------------------------------------

  datatype Shown =
    | ShownText(headers: seq<Header>, text: string)
    | ShownBytes(headers: seq<Header>, bytes: string)
    | ShownParts(headers: seq<Header>, parts: seq<Shown>)

  const NOT_UTF8 := "MIME text body is not UTF-8"

  /** `parsed_to_js`, with headers kept as a list */
  function Present(p: ParsedMessage): Result<Shown>
    decreases p, 0
  {
    if p.parts != [] then
      var parts :- PresentAll(p.parts);
      Ok(ShownParts(p.headers, parts))
    else
      var body := if p.body.Some? then p.body.value else "";
      if !p.textBody then Ok(ShownBytes(p.headers, body))
      else if ValidUtf8(body) then Ok(ShownText(p.headers, NormalizeRaw(body)))
      else Err(NOT_UTF8)
  }

  function PresentAll(ps: seq<ParsedMessage>): Result<seq<Shown>>
    decreases ps
  {
    if ps == [] then Ok([])
    else
      var first :- Present(ps[0]);
      var rest :- PresentAll(ps[1..]);
      Ok([first] + rest)
  }

  /** `parse` on a raw message */
  function Parse(raw: string): Result<Shown> {
    var parsed :- ParseMessage(NormalizeRaw(raw));
    Present(parsed)
  }

  // ----- what comes back -------------------------------------------------------------------

  /** The leaf holds text, or bytes that its type lets through. */
  predicate PresentableLeaf(m: Message, top: bool)
    requires LeafPlan(m, top).Ok?
  {
    IsText(TypeOf(LeafPlan(m, top).value.headers)) && m.body.Some? && m.body.value.Bytes? ==> ValidUtf8(m.body.value.bytes)
  }

  predicate Presentable(m: Message, top: bool)
    requires Readable(m, top)
    decreases m
  {
    if m.parts == [] then PresentableLeaf(m, top)
    else forall i :: 0 <= i < |m.parts| ==> Presentable(m.parts[i], false)
  }

  /**
   A text leaf of a text type comes back LF-normalised, whatever its encoding; a leaf of another type
   comes back as the bytes its encoding carries, which for base64 are the bytes that went in.
   */
  function ShownLeaf(m: Message, top: bool): Shown
    requires LeafPlan(m, top).Ok?
  {
    var leaf := LeafPlan(m, top).value;
    if !IsText(TypeOf(leaf.headers)) then
      ShownBytes(leaf.headers, if leaf.encoding == Base64 then BodyBytes(m) else ExpectedBytes(m, leaf.encoding))
    else ShownText(leaf.headers, ShownContent(m, leaf.encoding))
  }

  function ShownContent(m: Message, e: TransferEncoding): string {
    match m.body
    case None => ""
    case Some(Text(text)) => NormalizeRaw(text)
    case Some(Bytes(bytes)) => NormalizeRaw(if e == QuotedPrintable then CollapseCrlf(bytes) else bytes)
  }

  function ShownTree(m: Message, top: bool): Shown
    requires Readable(m, top)
    decreases m, 0
  {
    if m.parts == [] then ShownLeaf(m, top) else ShownParts(MultipartHeaders(m, top), ShownAll(m.parts))
  }

  function ShownAll(parts: seq<Message>): seq<Shown>
    requires forall i :: 0 <= i < |parts| ==> Readable(parts[i], false)
    decreases parts
  {
    if parts == [] then [] else [ShownTree(parts[0], false)] + ShownAll(parts[1..])
  }

  lemma NormalizeTwice(s: string)
    ensures NormalizeRaw(NormalizeRaw(s)) == NormalizeRaw(s)
  {
    NormalizeHasNoCr(s);
    NormalizeIdentity(NormalizeRaw(s));
  }

  lemma ExpectedUtf8(m: Message, e: TransferEncoding)
    ensures ValidUtf8(ExpectedBytes(m, e)) <==> (m.body.Some? ==> ValidUtf8(m.body.value.Content()))
  {
    var bytes := BodyBytes(m);
    CollapseUtf8(bytes);
    NormalizeUtf8(bytes);
    if m.body.Some? { NormalizeUtf8(m.body.value.Content()); }
  }

  lemma ContentShown(m: Message, e: TransferEncoding)
    ensures NormalizeRaw(ExpectedBytes(m, e)) == ShownContent(m, e)
  {
    match m.body
    case None => assert CollapseCrlf("") == "" && NormalizeRaw("") == "";
    case Some(Text(text)) => TextComesBack(m, e);
    case Some(Bytes(bytes)) => NormalizeTwice(bytes);
  }

  /** The parse result of a surviving tree. */
  function Outcome(m: Message, top: bool): Result<Shown>
    requires Readable(m, top)
  {
    if Presentable(m, top) then Ok(ShownTree(m, top)) else Err(NOT_UTF8)
  }

  lemma LeafShown(m: Message, top: bool)
    requires m.parts == [] && Readable(m, top)
    ensures Present(Expected(m, top)) == Outcome(m, top)
  {
    var leaf := LeafPlan(m, top).value;
    ExpectedUtf8(m, leaf.encoding);
    ContentShown(m, leaf.encoding);
  }

  predicate AllPresentable(parts: seq<Message>)
    requires forall i :: 0 <= i < |parts| ==> Readable(parts[i], false)
  {
    forall i :: 0 <= i < |parts| ==> Presentable(parts[i], false)
  }

  lemma AllPresentableTail(parts: seq<Message>)
    requires parts != [] && forall i :: 0 <= i < |parts| ==> Readable(parts[i], false)
    ensures forall i :: 0 <= i < |parts[1..]| ==> parts[1..][i] == parts[i + 1]
    ensures AllPresentable(parts) <==> Presentable(parts[0], false) && AllPresentable(parts[1..])
  {
    if Presentable(parts[0], false) && AllPresentable(parts[1..]) {
      forall i | 0 <= i < |parts| ensures Presentable(parts[i], false) {
        if i > 0 { assert parts[i] == parts[1..][i - 1]; }
      }
    }
  }

  lemma {:induction false} PartsShown(parts: seq<Message>)
    requires forall i :: 0 <= i < |parts| ==> Readable(parts[i], false)
    requires forall i :: 0 <= i < |parts| ==> Present(Expected(parts[i], false)) == Outcome(parts[i], false)
    ensures PresentAll(ExpectedAll(parts)) == if AllPresentable(parts) then Ok(ShownAll(parts)) else Err(NOT_UTF8)
  {
    if parts != [] {
      AllPresentableTail(parts);
      PartsShown(parts[1..]);
    }
  }

  lemma NodeShown(m: Message, top: bool)
    requires Readable(m, top) && m.parts != []
    requires PresentAll(ExpectedAll(m.parts)) == if AllPresentable(m.parts) then Ok(ShownAll(m.parts)) else Err(NOT_UTF8)
    ensures Present(Expected(m, top)) == Outcome(m, top)
  {
    assert Presentable(m, top) <==> AllPresentable(m.parts);
  }

  lemma {:induction false} TreeShown(m: Message, top: bool)
    requires Readable(m, top)
    ensures Present(Expected(m, top)) == Outcome(m, top)
    decreases m
  {
    if m.parts == [] {
      LeafShown(m, top);
    } else {
      forall i | 0 <= i < |m.parts| ensures Present(Expected(m.parts[i], false)) == Outcome(m.parts[i], false) {
        TreeShown(m.parts[i], false);
      }
      PartsShown(m.parts);
      NodeShown(m, top);
    }
  }

  /**
   `parse(compose(m))` for every message that survives: the tree comes back with its written headers,
   exactly when every byte body under a text type is UTF-8.
   */
  lemma ParseOfCompose(m: Message)
    requires Good(m, true)
    ensures RenderMessage(m, true).Ok?
    ensures Parse(RenderMessage(m, true).value) == Outcome(m, true)
  {
    MessageRoundTrip(m, true);
    TreeShown(m, true);
  }

  // ----- the composing loop ----------------------------------------------------------------

  /** The body of the parts from some point on. */
  function FramedRest(parts: seq<Message>, boundary: string): Result<string> {
    var texts :- RenderAll(parts);
    Ok(FramedCrlf(texts, boundary))
  }

  /** `render_message` */
  method ComposeMessage(m: Message, top: bool) returns (r: Result<string>)
    requires Size(m) < Boundary.U64_MAX
    ensures r == RenderMessage(m, top)
    decreases m
  {
    if m.parts == [] {
      r := ComposeLeaf(m, top);
      return;
    }
    var boundary := ChooseBoundary(m, top);
    var head := RenderHeaders(MultipartHeaders(m, top));
    if head.Err? { return Err(head.error); }
    var output := head.value + "\r\n";
    MultipartStart(m, top, head.value);
    assert m.parts[0..] == m.parts;
    for k := 0 to |m.parts|
      invariant RenderMessage(m, top) == QP.Prepend(output, FramedRest(m.parts[k..], boundary))
    {
      SizeOfPart(m.parts, k);
      var text := ComposeMessage(m.parts[k], false);
      assert m.parts[k..][1..] == m.parts[k + 1..];
      if text.Err? {
        FramedFails(m.parts[k..], boundary);
        return Err(text.error);
      }
      FramedStep(m.parts[k..], boundary, text.value, output);
      output := output + (Multipart.Marker(boundary) + "\r\n" + (text.value + "\r\n"));
    }
    return Ok(output + (Multipart.CloseMarker(boundary) + "\r\n"));
  }

  method ChooseBoundary(m: Message, top: bool) returns (boundary: string)
    requires Size(m) < Boundary.U64_MAX
    ensures boundary == BoundaryOf(m, top)
  {
    var typed := HeaderValue(TopHeaders(m, top), CONTENT_TYPE);
    if typed.Some? && ParseBoundary(typed.value).Some? {
      boundary := ParseBoundary(typed.value).value;
    } else {
      boundary := Boundary.GenerateBoundary(m);
    }
  }

  method ComposeLeaf(m: Message, top: bool) returns (r: Result<string>)
    requires m.parts == []
    ensures r == RenderMessage(m, top)
  {
    var leaf := LeafPlan(m, top);
    if leaf.Err? { return Err(leaf.error); }
    var head := RenderHeaders(leaf.value.headers);
    if head.Err? { return Err(head.error); }
    var body := RenderBody(m, leaf.value.encoding);
    if body.Err? { return Err(body.error); }
    return Ok(head.value + "\r\n" + body.value);
  }

  lemma MultipartStart(m: Message, top: bool, head: string)
    requires m.parts != [] && Rendered(MultipartHeaders(m, top)) == Ok(head)
    ensures RenderMessage(m, top) == QP.Prepend(head + "\r\n", FramedRest(m.parts, BoundaryOf(m, top)))
  {
  }

  lemma FramedFails(parts: seq<Message>, boundary: string)
    requires parts != [] && RenderMessage(parts[0], false).Err?
    ensures FramedRest(parts, boundary) == Err(RenderMessage(parts[0], false).error)
  {
  }

  lemma FramedStep(parts: seq<Message>, boundary: string, text: string, output: string)
    requires parts != [] && RenderMessage(parts[0], false) == Ok(text)
    ensures QP.Prepend(output, FramedRest(parts, boundary)) ==
            QP.Prepend(output + (Multipart.Marker(boundary) + "\r\n" + (text + "\r\n")), FramedRest(parts[1..], boundary))
  {
    var marker, rest := Multipart.Marker(boundary) + "\r\n", RenderAll(parts[1..]);
    if rest.Ok? {
      var texts := [text] + rest.value;
      assert texts[1..] == rest.value;
      var tail := FramedCrlf(rest.value, boundary);
      assert marker + (text + "\r\n" + tail) == marker + (text + "\r\n") + tail;
      Assoc(output, marker + (text + "\r\n"), tail);
    }
  }
}
