/** Messages judged by what the caller supplied, and exactly which of them come back. */
module Accepted {
  import opened Wrappers
  import opened Text
  import opened Headers
  import opened MimeTree
  import opened ContentType
  import opened Compose
  import opened RoundTrip
  import opened AddedHeaders
  import opened Leaves
  import Boundary
  import Collision
  import Freshness
  import opened Presentation

  // ----- a message that does not come back -------------------------------------------------

  lemma WrapHeaders(p: Message)
    ensures AllComposable(MultipartHeaders(Freshness.Wrap(p), true))
    ensures NameCount(TopHeaders(Freshness.Wrap(p), true), CONTENT_TYPE) <= 1
    ensures BoundaryOf(Freshness.Wrap(p), true) == Boundary.Generated(p)
    ensures MultipartName(MultipartBase(Freshness.Wrap(p), true))
  {
    var m := Freshness.Wrap(p);
    WrapTop(p);
    Freshness.WrapSharesBoundary(p);
    GeneratedIsWord(p);
    MultipartHeadersCompose(m, true);
  }

  lemma DefaultMultipartWord()
    ensures PlainWord(DEFAULT_MULTIPART) && MultipartName(DEFAULT_MULTIPART)
  {
    assert Lower(DEFAULT_MULTIPART) == DEFAULT_MULTIPART;
  }

  lemma WrapTop(p: Message)
    ensures HeaderValue(TopHeaders(Freshness.Wrap(p), true), CONTENT_TYPE).None?
    ensures PlainWord(MultipartBase(Freshness.Wrap(p), true)) && MultipartName(MultipartBase(Freshness.Wrap(p), true))
    ensures NameCount(TopHeaders(Freshness.Wrap(p), true), CONTENT_TYPE) <= 1
  {
    var hs := TopHeaders(Freshness.Wrap(p), true);
    assert hs == [Header(MIME_VERSION, "1.0")] && hs[1..] == [];
    VersionIsOther();
    AbsentName(hs, CONTENT_TYPE);
    DefaultMultipartWord();
  }

  lemma OnePart(p: Message)
    requires RenderMessage(p, false).Ok?
    ensures RenderAll([p]) == Ok([RenderMessage(p, false).value])
  {
    assert [p][1..] == [];
    assert RenderAll([]) == Ok([]);
    assert [RenderMessage(p, false).value] + [] == [RenderMessage(p, false).value];
  }

  /**
   Wrapping a multipart part that names no content type defeats the round trip: the composer accepts the
   message, and parsing what it wrote fails, since the first section is the part's header block alone.
   */
  lemma WrappedMultipartFails(p: Message)
    requires p.parts != [] && HeaderValue(p.headers, CONTENT_TYPE).None? && RenderMessage(p, false).Ok?
    ensures RenderMessage(Freshness.Wrap(p), true).Ok?
    ensures ParseMessage(NormalizeRaw(RenderMessage(Freshness.Wrap(p), true).value)).Err?
  {
    var b, text := Boundary.Generated(p), RenderMessage(p, false).value;
    WrapHeaders(p);
    OnePart(p);
    Freshness.GeneratedIsToken(p);
    ComposableRenders(MultipartHeaders(Freshness.Wrap(p), true));
    forall w: ParsedMessage ensures Collision.Reparsed(Freshness.Wrap(p), true) != Ok(w) {
      Collision.SharedBoundaryCuts(p, b, w.parts, 0);
      Collision.OneCollides(text, b, w.parts);
      Collision.NodeDiffers(Freshness.Wrap(p), true, [text], w);
    }
    assert Collision.Reparsed(Freshness.Wrap(p), true).Err?;
  }

  // ----- what a caller has to see to -------------------------------------------------------

  /**
   A message judged by what its caller supplied: headers that survive, leaves whose body can be written
   as asked and whose type is not multipart, and multipart nodes with a plain multipart type, whose
   boundary, if they name one, is a word.
   */
  predicate Accepts(m: Message, top: bool)
    decreases m
  {
    if m.parts == [] then Supplied(m)
    else
      && AllComposable(m.headers)
      && PlainWord(MultipartBase(m, top)) && MultipartName(MultipartBase(m, top))
      && NameCount(TopHeaders(m, top), CONTENT_TYPE) <= 1
      && (BoundaryOf(m, top) == Boundary.Generated(m) || WordBoundary(BoundaryOf(m, top)))
      && forall i :: 0 <= i < |m.parts| ==> Accepts(m.parts[i], false)
  }

  lemma {:induction false} AcceptedIsReadable(m: Message, top: bool)
    requires Accepts(m, top)
    ensures Readable(m, top)
    decreases m
  {
    if m.parts == [] {
      SuppliedIsReadable(m, top);
    } else {
      GeneratedIsWord(m);
      MultipartHeadersCompose(m, top);
      forall i | 0 <= i < |m.parts| ensures Readable(m.parts[i], false) {
        AcceptedIsReadable(m.parts[i], false);
      }
    }
  }

  /**
   Every accepted message is composed, and parsing the result shows the message again if no line of a
   part is a delimiter of the node around it. If the boundaries stand in no body, that is so if no
   multipart node shares a delimiter with one it is nested in, and parsing is an error if one does.
   */
  lemma AcceptedComesBack(m: Message)
    requires Accepts(m, true)
    ensures Readable(m, true) && RenderMessage(m, true).Ok?
    ensures AllFresh(m, true) ==> Parse(RenderMessage(m, true).value) == Outcome(m, true)
    ensures !AllFresh(m, true) ==> Collision.Reparsed(m, true) != Ok(Expected(m, true))
    ensures Freshness.Bounded(m, true) ==> (AllFresh(m, true) <==> Freshness.PathsApart(m, true))
    ensures Freshness.Bounded(m, true) && !Freshness.PathsApart(m, true) ==> Parse(RenderMessage(m, true).value).Err?
  {
    AcceptedIsReadable(m, true);
    Collision.ComesBackExactly(m, true);
    if AllFresh(m, true) {
      ParseOfCompose(m);
    }
    if Freshness.Bounded(m, true) {
      Freshness.FreshIsApart(m, true);
      Collision.RoundTripExactly(m, true);
    }
  }

  // ----- the headers of a message that came back -------------------------------------------

  lemma TopKeeps(m: Message, top: bool, name: string)
    ensures Matches(MIME_VERSION, name) || HeaderValue(TopHeaders(m, top), name) == HeaderValue(m.headers, name)
    ensures Matches(MIME_VERSION, name) || NameCount(TopHeaders(m, top), name) == NameCount(m.headers, name)
  {
    var h := Header(MIME_VERSION, "1.0");
    assert ([h] + m.headers)[1..] == m.headers && ([h] + m.headers)[0] == h;
  }

  lemma TopVersion(m: Message, top: bool)
    ensures HeaderValue(TopHeaders(m, top), MIME_VERSION)
         == if top && HeaderValue(m.headers, MIME_VERSION).None? then Some("1.0") else HeaderValue(m.headers, MIME_VERSION)
  {
    var h := Header(MIME_VERSION, "1.0");
    assert ([h] + m.headers)[1..] == m.headers && ([h] + m.headers)[0] == h;
  }

  /** The headers a node is written with. */
  function WrittenHeaders(m: Message, top: bool): seq<Header>
    requires Readable(m, top)
  {
    if m.parts == [] then LeafPlan(m, top).value.headers else MultipartHeaders(m, top)
  }

  lemma OthersWritten(m: Message, top: bool, name: string)
    requires Readable(m, top) && !Matches(CONTENT_TYPE, name) && !Matches(TRANSFER_ENCODING, name)
    ensures HeaderValue(WrittenHeaders(m, top), name) == HeaderValue(TopHeaders(m, top), name)
    ensures NameCount(WrittenHeaders(m, top), name) == NameCount(TopHeaders(m, top), name)
  {
    var hs := TopHeaders(m, top);
    if m.parts == [] {
      var typed := if HeaderValue(hs, CONTENT_TYPE).None? then SetHeader(hs, CONTENT_TYPE, DEFAULT_TEXT) else hs;
      SetOther(hs, CONTENT_TYPE, DEFAULT_TEXT, name);
      SetOther(typed, TRANSFER_ENCODING, Token(LeafPlan(m, top).value.encoding), name);
    } else {
      SetOther(hs, CONTENT_TYPE, WithBoundary(MultipartBase(m, top), BoundaryOf(m, top)), name);
    }
  }

  lemma VersionIsNeither()
    ensures !Matches(CONTENT_TYPE, MIME_VERSION) && !Matches(TRANSFER_ENCODING, MIME_VERSION)
  {
    assert Lower(MIME_VERSION)[0] == 'm' && Lower(CONTENT_TYPE)[0] == 'c' && Lower(TRANSFER_ENCODING)[0] == 'c';
  }

  lemma ReadHeaders(m: Message, top: bool)
    requires Readable(m, top) && AllFresh(m, top)
    ensures Collision.Reparsed(m, top).Ok? && Collision.Reparsed(m, top).value.headers == WrittenHeaders(m, top)
  {
    MessageRoundTrip(m, top);
  }

  /**
   A message that comes back has the caller's headers under every other name, as often as they were
   given; the version is 1.0 at the top unless the caller says otherwise, and is added nowhere else.
   */
  lemma HeadersComeBack(m: Message, top: bool, name: string)
    requires Readable(m, top) && AllFresh(m, top)
    requires !Matches(CONTENT_TYPE, name) && !Matches(TRANSFER_ENCODING, name) && !Matches(MIME_VERSION, name)
    ensures Collision.Reparsed(m, top).Ok?
    ensures var hs := Collision.Reparsed(m, top).value.headers;
            && HeaderValue(hs, name) == HeaderValue(m.headers, name) && NameCount(hs, name) == NameCount(m.headers, name)
            && HeaderValue(hs, MIME_VERSION)
            == (if top && HeaderValue(m.headers, MIME_VERSION).None? then Some("1.0") else HeaderValue(m.headers, MIME_VERSION))
  {
    ReadHeaders(m, top);
    OthersWritten(m, top, name);
    TopKeeps(m, top, name);
    VersionIsNeither();
    OthersWritten(m, top, MIME_VERSION);
    TopVersion(m, top);
  }

  /** A multipart node that comes back has its own base type, or multipart/mixed, with its own boundary or a generated one. */
  lemma TypeComesBack(m: Message, top: bool)
    requires Readable(m, top) && AllFresh(m, top) && m.parts != []
    ensures Collision.Reparsed(m, top).Ok?
    ensures var t := HeaderValue(Collision.Reparsed(m, top).value.headers, CONTENT_TYPE);
            && t.Some?
            && ParseBoundary(t.value) == Some(
                 match HeaderValue(m.headers, CONTENT_TYPE)
                 case Some(v) => if ParseBoundary(v).Some? then ParseBoundary(v).value else Boundary.Generated(m)
                 case None => Boundary.Generated(m))
            && Base(t.value) == (if HeaderValue(m.headers, CONTENT_TYPE).None? then "multipart/mixed"
                                 else Base(HeaderValue(m.headers, CONTENT_TYPE).value))
  {
    var base, b := MultipartBase(m, top), BoundaryOf(m, top);
    ReadHeaders(m, top);
    BoundaryShape(m, top);
    ComposedType(base, b);
    SetThenGet(TopHeaders(m, top), CONTENT_TYPE, WithBoundary(base, b));
    TopReads(m, top);
  }

  // ----- one such message ------------------------------------------------------------------

  lemma TextIsNotMultipart()
    ensures !MultipartName("text/plain")
  {
    assert Lower("text/plain")[0] == 't';
  }

  lemma TextPlainTrims()
    ensures Trim("text/plain") == "text/plain"
  {
    TightIsTrimmed("text/plain");
  }

  lemma DefaultTextIsText()
    ensures Base(DEFAULT_TEXT) == "text/plain"
  {
    assert DEFAULT_TEXT == "text/plain" + [';'] + " charset=utf-8";
    SplitOnceAt("text/plain", ';', " charset=utf-8");
    TextPlainTrims();
  }

  lemma EmptyIsText(m: Message)
    requires m.headers == []
    ensures !IsMultipart(TypeOf(m.headers)) && HeaderValue(m.headers, TRANSFER_ENCODING).None?
  {
    DefaultTextIsText();
    TextIsNotMultipart();
    assert HeaderValue([], CONTENT_TYPE) == None;
  }

  lemma EmptyLeafAccepted(m: Message)
    requires m == Message([], None, [], None)
    ensures Accepts(m, false)
  {
    EmptyIsText(m);
  }

  lemma BareNodeAccepted(p: Message, leaf: Message)
    requires p == Message([], None, [leaf], None) && Accepts(leaf, false)
    ensures HeaderValue(p.headers, CONTENT_TYPE).None? && Accepts(p, false)
  {
    DefaultMultipartWord();
    assert TopHeaders(p, false) == [] && HeaderValue([], CONTENT_TYPE) == None && NameCount([], CONTENT_TYPE) == 0;
    assert p.parts[0] == leaf;
  }

  lemma WrapAccepted(p: Message)
    requires Accepts(p, false)
    ensures Accepts(Freshness.Wrap(p), true)
  {
    WrapTop(p);
    Freshness.WrapSharesBoundary(p);
    assert Freshness.Wrap(p).parts[0] == p;
  }

  /** A message that is composed and does not parse: an empty leaf in two bare multipart nodes. */
  lemma WrappedMultipartHappens()
    ensures var p := Message([], None, [Message([], None, [], None)], None);
            Accepts(Freshness.Wrap(p), true) && RenderMessage(Freshness.Wrap(p), true).Ok? &&
            Collision.Reparsed(Freshness.Wrap(p), true).Err?
  {
    var p := Message([], None, [Message([], None, [], None)], None);
    EmptyLeafAccepted(p.parts[0]);
    BareNodeAccepted(p, p.parts[0]);
    AcceptedIsReadable(p, false);
    Freshness.ReadableRenders(p, false);
    WrappedMultipartFails(p);
    WrapAccepted(p);
  }
}
