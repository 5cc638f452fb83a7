/** When the delimiters of a multipart node cannot be confused with a line of its parts. */
module Freshness {
  import opened Wrappers
  import opened Text
  import opened Headers
  import opened MimeTree
  import opened ContentType
  import opened Compose
  import opened RoundTrip
  import QP = QuotedPrintable
  import B64 = Base64
  import Multipart
  import Boundary

  predicate PlainChar(c: char) {
    c != '=' && c != ':' && c != '\r' && c != '\n'
  }

  /** A boundary that no encoded line and no header line can be mistaken for. */
  predicate PlainBoundary(b: string) {
    b != "" && forall i :: 0 <= i < |b| ==> PlainChar(b[i])
  }

  predicate TokenChar(c: char) {
    'a' <= c <= 'z' || '0' <= c <= '9' || c == '-'
  }

  /** Lower-case letters, digits and hyphens, as in every generated boundary. */
  predicate TokenBoundary(b: string) {
    b != "" && forall i :: 0 <= i < |b| ==> TokenChar(b[i])
  }

  predicate Delimiter(l: string, b: string) {
    l == Multipart.Marker(b) || l == Multipart.CloseMarker(b)
  }

  /** None of the lines is a delimiter of `b`. */
  predicate Clean(ls: seq<string>, b: string) {
    forall i :: 0 <= i < |ls| ==> !Delimiter(ls[i], b)
  }

  // ----- containment through line-ending changes -------------------------------------------

  lemma ContainsCons(c: char, s: string, p: string)
    requires p != ""
    ensures Contains([c] + s, p) <==> Contains(s, p) || p <= [c] + s
  {
    var t := [c] + s;
    if Contains(s, p) {
      var i: nat :| i + |p| <= |s| && OccursAt(s, p, i);
      assert t[i + 1..i + 1 + |p|] == s[i..i + |p|];
      assert OccursAt(t, p, i + 1);
    }
    if p <= t { assert OccursAt(t, p, 0); }
    if Contains(t, p) {
      var i: nat :| i + |p| <= |t| && OccursAt(t, p, i);
      if i > 0 {
        assert t[i..i + |p|] == s[i - 1..i - 1 + |p|];
        assert OccursAt(s, p, i - 1);
      }
    }
  }

  lemma ContainsSkip(c: char, s: string, p: string)
    requires p != "" && c !in p
    ensures Contains([c] + s, p) <==> Contains(s, p)
  {
    ContainsCons(c, s, p);
    assert p[0] in p;
  }

  lemma {:induction false} PrefixThroughCollapse(s: string, p: string)
    requires p <= CollapseCrlf(s) && '\n' !in p
    ensures p <= s
  {
    if p != "" {
      assert p[0] == CollapseCrlf(s)[0];
      assert !(|s| >= 2 && s[0] == '\r' && s[1] == '\n');
      assert CollapseCrlf(s)[1..] == CollapseCrlf(s[1..]);
      PrefixThroughCollapse(s[1..], p[1..]);
    }
  }

  lemma {:induction false} ContainsThroughCollapse(s: string, p: string)
    requires p != "" && '\n' !in p && Contains(CollapseCrlf(s), p)
    ensures Contains(s, p)
  {
    if |s| >= 2 && s[0] == '\r' && s[1] == '\n' {
      ContainsSkip('\n', CollapseCrlf(s[2..]), p);
      ContainsThroughCollapse(s[2..], p);
      ContainsSkip('\n', s[2..], p);
      assert s[1..] == ['\n'] + s[2..];
      ContainsCons('\r', s[1..], p);
      assert s == ['\r'] + s[1..];
    } else if s != "" {
      ContainsCons(s[0], CollapseCrlf(s[1..]), p);
      ContainsCons(s[0], s[1..], p);
      assert s == [s[0]] + s[1..];
      if Contains(CollapseCrlf(s[1..]), p) {
        ContainsThroughCollapse(s[1..], p);
      } else {
        PrefixThroughCollapse(s, p);
      }
    }
  }

  lemma ContainsThroughCrToLf(t: string, p: string)
    requires '\n' !in p && Contains(CrToLf(t), p)
    ensures Contains(t, p)
  {
    var u := CrToLf(t);
    var i: nat :| i + |p| <= |u| && OccursAt(u, p, i);
    forall k | 0 <= k < |p| ensures t[i + k] == p[k] {
      assert p[k] == u[i..i + |p|][k] == u[i + k];
      assert p[k] in p;
    }
    assert t[i..i + |p|] == p;
    assert OccursAt(t, p, i);
  }

  lemma ContainsThroughNormalize(s: string, p: string)
    requires p != "" && '\n' !in p && Contains(NormalizeRaw(s), p)
    ensures Contains(s, p)
  {
    ContainsThroughCrToLf(CollapseCrlf(s), p);
    ContainsThroughCollapse(s, p);
  }

  lemma {:induction false} PrefixThroughExpand(s: string, p: string)
    requires p <= ExpandLf(s) && '\n' !in p && '\r' !in p
    ensures p <= s
  {
    if p != "" {
      assert p[0] == ExpandLf(s)[0];
      assert s[0] != '\n';
      assert ExpandLf(s)[1..] == ExpandLf(s[1..]);
      PrefixThroughExpand(s[1..], p[1..]);
    }
  }

  lemma {:induction false} ContainsThroughExpand(s: string, p: string)
    requires p != "" && '\n' !in p && '\r' !in p && Contains(ExpandLf(s), p)
    ensures Contains(s, p)
  {
    if s != "" {
      assert s == [s[0]] + s[1..];
      ContainsCons(s[0], s[1..], p);
      if s[0] == '\n' {
        assert ExpandLf(s) == ['\r'] + (['\n'] + ExpandLf(s[1..]));
        ContainsSkip('\r', ['\n'] + ExpandLf(s[1..]), p);
        ContainsSkip('\n', ExpandLf(s[1..]), p);
        ContainsThroughExpand(s[1..], p);
      } else {
        ContainsCons(s[0], ExpandLf(s[1..]), p);
        if Contains(ExpandLf(s[1..]), p) {
          ContainsThroughExpand(s[1..], p);
        } else {
          PrefixThroughExpand(s, p);
        }
      }
    }
  }

  lemma {:induction false} LineIsContained(text: string, l: string)
    requires l in Lines(text)
    ensures Contains(text, l)
  {
    SplitPieces(text, '\n');
    PieceInJoin(Lines(text), l);
  }

  lemma {:induction false} PieceInJoin(ls: seq<string>, l: string)
    requires l in ls
    ensures Contains(Join(ls, "\n"), l)
  {
    var j := Join(ls, "\n");
    if ls[0] == l {
      assert j[0..|l|] == l;
      assert OccursAt(j, l, 0);
    } else {
      PieceInJoin(ls[1..], l);
      assert |ls| > 1;
      var head := ls[0] + "\n";
      assert j[|head|..] == Join(ls[1..], "\n");
      QP.ContainsInTail(j, |head|, l);
    }
  }

  /** A delimiter contains its boundary. */
  lemma DelimiterContains(l: string, b: string)
    requires Delimiter(l, b)
    ensures Contains(l, b)
  {
    assert l[2..2 + |b|] == b;
    assert OccursAt(l, b, 2);
  }

  lemma ContainsTransitive(s: string, l: string, p: string)
    requires Contains(s, l) && Contains(l, p)
    ensures Contains(s, p)
  {
    var i: nat :| i + |l| <= |s| && OccursAt(s, l, i);
    var j: nat :| j + |p| <= |l| && OccursAt(l, p, j);
    assert s[i..i + |l|] == l && l[j..j + |p|] == p;
    assert forall k :: 0 <= k < |p| ==> s[i + j + k] == l[j + k] == p[k];
    assert s[i + j..i + j + |p|] == p;
    assert OccursAt(s, p, i + j);
  }

  // ----- leaves ----------------------------------------------------------------------------

  /** What the composer makes of a body holds a boundary only if the body does. */
  lemma BodyBytesContain(m: Message, b: string)
    requires PlainBoundary(b) && Contains(BodyBytes(m), b)
    ensures Boundary.MessageContains(m, b)
  {
    match m.body
    case Some(Text(text)) =>
      ContainsThroughExpand(NormalizeRaw(text), b);
      ContainsThroughNormalize(text, b);
    case Some(Bytes(bytes)) =>
    case None =>
  }

  lemma PlainDelimiter(l: string, b: string)
    requires PlainBoundary(b) && Delimiter(l, b)
    ensures '=' !in l && ':' !in l && '-' in l && '\n' !in l && '\r' !in l && l != "" && l[0] == '-'
  {
    assert l[0] == '-' && l[1] == '-';
    forall i | 0 <= i < |l| ensures PlainChar(l[i]) {
      if 2 <= i < 2 + |b| { assert l[i] == b[i - 2]; }
    }
  }

  /** No line of a rendered body, in any transfer encoding, is a delimiter of a boundary its content lacks. */
  lemma BodyHasNoDelimiter(m: Message, e: TransferEncoding, b: string)
    requires PlainBoundary(b) && !Boundary.MessageContains(m, b) && RenderBody(m, e).Ok?
    ensures Clean(Lines(NormalizeRaw(RenderBody(m, e).value)), b)
  {
    var ls := Lines(NormalizeRaw(RenderBody(m, e).value));
    forall i | 0 <= i < |ls| ensures !Delimiter(ls[i], b) {
      if Delimiter(ls[i], b) {
        BodyDelimiterImpossible(m, e, b, ls[i]);
      }
    }
  }

  lemma BodyDelimiterImpossible(m: Message, e: TransferEncoding, b: string, l: string)
    requires PlainBoundary(b) && RenderBody(m, e).Ok? && Delimiter(l, b)
    requires l in Lines(NormalizeRaw(RenderBody(m, e).value))
    ensures Boundary.MessageContains(m, b)
  {
    var bytes := BodyBytes(m);
    PlainDelimiter(l, b);
    match e
    case SevenBit | EightBit | Binary =>
      RawDelimiter(bytes, b, l);
      BodyBytesContain(m, b);
    case QuotedPrintable =>
      QP.LiteralLine(bytes, l);
      DelimiterContains(l, b);
      ContainsTransitive(bytes, l, b);
      BodyBytesContain(m, b);
    case Base64 =>
      Base64Delimiter(bytes, l);
  }

  lemma Base64Delimiter(bytes: ByteString, l: string)
    requires '-' in l
    ensures l !in Lines(NormalizeRaw(B64.EncodeWrapped(bytes)))
  {
    var text := NormalizeRaw(B64.EncodeWrapped(bytes));
    B64.BodyChars(bytes);
    if l in Lines(text) {
      LineIsContained(text, l);
      HyphenContained(text, l);
    }
  }

  lemma RawDelimiter(bytes: string, b: string, l: string)
    requires PlainBoundary(b) && Delimiter(l, b) && l in Lines(NormalizeRaw(bytes))
    ensures Contains(bytes, b)
  {
    LineIsContained(NormalizeRaw(bytes), l);
    DelimiterContains(l, b);
    ContainsTransitive(NormalizeRaw(bytes), l, b);
    ContainsThroughNormalize(bytes, b);
  }

  lemma HyphenContained(s: string, l: string)
    requires Contains(s, l) && '-' in l
    ensures '-' in s
  {
    var i: nat :| i + |l| <= |s| && OccursAt(s, l, i);
    var k :| 0 <= k < |l| && l[k] == '-';
    assert s[i..i + |l|][k] == s[i + k];
  }

  // ----- trees -----------------------------------------------------------------------------

  lemma CleanAppend(a: seq<string>, c: seq<string>, b: string)
    ensures Clean(a + c, b) <==> Clean(a, b) && Clean(c, b)
  {
    if Clean(a + c, b) {
      assert forall i :: 0 <= i < |a| ==> a[i] == (a + c)[i];
      assert forall i :: 0 <= i < |c| ==> c[i] == (a + c)[|a| + i];
    }
  }

  lemma {:induction false} RenderedValid(hs: seq<Header>)
    requires Rendered(hs).Ok?
    ensures forall h :: h in hs ==> Valid(h)
  {
    if hs != [] { RenderedValid(hs[1..]); }
  }

  lemma {:induction false} LinesOfUnlines(ls: seq<string>, rest: string)
    requires forall l :: l in ls ==> '\n' !in l
    ensures Lines(Unlines(ls) + rest) == ls + Lines(rest)
  {
    if ls == [] {
      assert Unlines(ls) + rest == rest;
    } else {
      assert forall l :: l in ls[1..] ==> l in ls;
      LinesOfUnlines(ls[1..], rest);
      SplitNone(ls[0], '\n');
      LinesAppend(ls[0], Unlines(ls[1..]) + rest);
      Assoc(ls[0] + "\n", Unlines(ls[1..]), rest);
      Assoc([ls[0]], ls[1..], Lines(rest));
      assert [ls[0]] + ls[1..] == ls;
    }
  }

  /** The lines of a written message: its header lines, an empty line, and the lines of its body. */
  lemma MessageLines(hs: seq<Header>, body: string)
    requires Rendered(hs).Ok?
    ensures Lines(NormalizeRaw(Rendered(hs).value + "\r\n" + body)) == BlockLines(hs) + ([""] + Lines(NormalizeRaw(body)))
  {
    RenderedValid(hs);
    NormalizeRendered(hs);
    BlockHeaderLines(hs);
    var head, n := Rendered(hs).value, NormalizeRaw(body);
    NormalizeLine(head, body);
    LinesOfUnlines(BlockLines(hs), "\n" + n);
    Assoc(Unlines(BlockLines(hs)), "\n", n);
    LinesAppend("", n);
    assert "" + "\n" + n == "\n" + n;
  }

  lemma HeadersAreClean(hs: seq<Header>, b: string)
    requires Rendered(hs).Ok? && PlainBoundary(b)
    ensures Clean(BlockLines(hs), b)
  {
    RenderedValid(hs);
    BlockHeaderLines(hs);
    forall i | 0 <= i < |BlockLines(hs)| ensures !Delimiter(BlockLines(hs)[i], b) {
      var l := BlockLines(hs)[i];
      assert HeaderLine(l);
      if Delimiter(l, b) { PlainDelimiter(l, b); }
    }
  }

  /** A written message is clean exactly when its body is. */
  lemma CleanBody(hs: seq<Header>, body: string, b: string)
    requires Rendered(hs).Ok? && PlainBoundary(b)
    ensures Clean(Lines(NormalizeRaw(Rendered(hs).value + "\r\n" + body)), b) <==> Clean(Lines(NormalizeRaw(body)), b)
  {
    MessageLines(hs, body);
    HeadersAreClean(hs, b);
    CleanAppend(BlockLines(hs), [""] + Lines(NormalizeRaw(body)), b);
    CleanAppend([""], Lines(NormalizeRaw(body)), b);
    assert !Delimiter("", b);
  }

  /** Neither delimiter of `other` is one of `b`. */
  predicate Apart(b: string, other: string) {
    !Delimiter(Multipart.Marker(other), b) && !Delimiter(Multipart.CloseMarker(other), b)
  }

  lemma ApartMeans(b: string, other: string)
    ensures Apart(b, other) <==> other != b && other != b + "--" && other + "--" != b
  {
    var m, c := Multipart.Marker(other), Multipart.CloseMarker(other);
    assert m[2..] == other && c[2..] == other + "--";
    assert Multipart.Marker(b)[2..] == b && Multipart.CloseMarker(b)[2..] == b + "--";
    assert (other + "--")[..|other|] == other && (b + "--")[..|b|] == b;
  }

  /** Every multipart node of the tree has a boundary apart from `b`. */
  predicate ApartInTree(m: Message, top: bool, b: string)
    decreases m
  {
    m.parts != [] ==>
      Apart(b, BoundaryOf(m, top)) && forall i :: 0 <= i < |m.parts| ==> ApartInTree(m.parts[i], false, b)
  }

  /** So has every multipart node inside `m`, seen from the boundary of `m`. */
  predicate PartsApart(m: Message, top: bool) {
    forall i :: 0 <= i < |m.parts| ==> ApartInTree(m.parts[i], false, BoundaryOf(m, top))
  }

  lemma {:induction false} FramedClean(ns: seq<string>, other: string, b: string)
    ensures Clean(Multipart.FramedLines(ns, other), b) <==>
            && !Delimiter(Multipart.CloseMarker(other), b)
            && (ns != [] ==> !Delimiter(Multipart.Marker(other), b))
            && forall i :: 0 <= i < |ns| ==> Clean(Lines(ns[i]), b)
  {
    if ns == [] {
      assert !Delimiter("", b);
      var ls := Multipart.FramedLines(ns, other);
      assert ls[0] == Multipart.CloseMarker(other);
    } else {
      var marker, rest := Multipart.Marker(other), Multipart.FramedLines(ns[1..], other);
      FramedClean(ns[1..], other, b);
      CleanAppend([marker] + Lines(ns[0]), rest, b);
      CleanAppend([marker], Lines(ns[0]), b);
      assert Clean([marker], b) <==> !Delimiter(marker, b) by { assert [marker][0] == marker; }
      assert forall i :: 1 <= i < |ns| ==> ns[i] == ns[1..][i - 1];
    }
  }

  lemma BoundaryUnbroken(m: Message, top: bool)
    requires Rendered(MultipartHeaders(m, top)).Ok?
    ensures '\r' !in BoundaryOf(m, top) && '\n' !in BoundaryOf(m, top)
  {
    var v := WithBoundary(MultipartBase(m, top), BoundaryOf(m, top));
    RenderedValid(MultipartHeaders(m, top));
    SetPlaces(TopHeaders(m, top), CONTENT_TYPE, v);
    BoundaryShape(m, top);
    ComposedType(MultipartBase(m, top), BoundaryOf(m, top));
    MiddleMember(MultipartBase(m, top) + "; boundary=\"", BoundaryOf(m, top), "\"");
  }

  lemma {:induction false} SetPlaces(hs: seq<Header>, name: string, value: string)
    ensures exists h :: h in SetHeader(hs, name, value) && h.value == value
  {
    var r := SetHeader(hs, name, value);
    if hs == [] || Matches(hs[0].name, name) {
      assert r[0].value == value;
    } else {
      SetPlaces(hs[1..], name, value);
      var h :| h in SetHeader(hs[1..], name, value) && h.value == value;
      assert h in r;
    }
  }

  lemma MultipartClean(m: Message, top: bool, texts: seq<string>, b: string)
    requires m.parts != [] && RenderMessage(m, top).Ok? && RenderAll(m.parts) == Ok(texts) && PlainBoundary(b)
    ensures Clean(Lines(NormalizeRaw(RenderMessage(m, top).value)), b) <==>
            Apart(b, BoundaryOf(m, top)) && forall i :: 0 <= i < |texts| ==> Clean(Lines(NormalizeRaw(texts[i])), b)
  {
    var other := BoundaryOf(m, top);
    var body := FramedCrlf(texts, other);
    var ns := NormalizedTexts(texts);
    CleanBody(MultipartHeaders(m, top), body, b);
    BoundaryUnbroken(m, top);
    NormalizeFramed(texts, other);
    Multipart.LinesOfFramed(ns, other);
    FramedClean(ns, other, b);
  }

  /**
   A boundary that no body of the tree contains stands as a delimiter line in the rendered tree only
   through the delimiters of a nested multipart node.
   */
  lemma {:induction false} TreeClean(m: Message, top: bool, b: string)
    requires RenderMessage(m, top).Ok? && PlainBoundary(b) && !Boundary.MessageContains(m, b)
    ensures Clean(Lines(NormalizeRaw(RenderMessage(m, top).value)), b) <==> ApartInTree(m, top, b)
    decreases m
  {
    if m.parts == [] {
      var leaf := LeafPlan(m, top).value;
      BodyHasNoDelimiter(m, leaf.encoding, b);
      CleanBody(leaf.headers, RenderBody(m, leaf.encoding).value, b);
    } else {
      var texts := RenderAll(m.parts).value;
      MultipartClean(m, top, texts, b);
      forall i | 0 <= i < |m.parts|
        ensures Clean(Lines(NormalizeRaw(texts[i])), b) <==> ApartInTree(m.parts[i], false, b)
      {
        TreeClean(m.parts[i], false, b);
      }
    }
  }

  // ----- generated boundaries --------------------------------------------------------------

  lemma GeneratedIsToken(m: Message)
    ensures TokenBoundary(Boundary.Generated(m)) && PlainBoundary(Boundary.Generated(m))
    ensures !Boundary.MessageContains(m, Boundary.Generated(m))
    ensures Boundary.HexChar(Boundary.Generated(m)[|Boundary.Generated(m)| - 1])
  {
    var b := Boundary.Generated(m);
    var seed := Boundary.Seed(m, Boundary.FNV_OFFSET);
    var k := Boundary.FirstFree(m, seed, 0);
    Boundary.PaddedDenotes(k, 4);
    var digits := Boundary.PaddedHex(k, 4);
    assert b[|b| - 1] == digits[|digits| - 1];
    GeneratedChars(m);
    forall i | 0 <= i < |b| ensures TokenChar(b[i]) {
      assert b[i] in b;
      MechanicsChars(b[i]);
    }
  }

  lemma MechanicsChars(c: char)
    requires Boundary.HexChar(c) || c in "mechanics-"
    ensures TokenChar(c)
  {
  }

  /** Two generated boundaries have no delimiter in common unless they are the same. */
  lemma GeneratedApart(m: Message, n: Message)
    ensures Apart(Boundary.Generated(m), Boundary.Generated(n)) <==> Boundary.Generated(m) != Boundary.Generated(n)
  {
    var b, other := Boundary.Generated(m), Boundary.Generated(n);
    GeneratedIsToken(m);
    GeneratedIsToken(n);
    ApartMeans(b, other);
    assert (b + "--")[|b| + 1] == '-' && (other + "--")[|other| + 1] == '-';
  }

  lemma CleanIsPlain(text: string, b: string)
    ensures Multipart.AllPlain(Lines(NormalizeRaw(text)), Multipart.Marker(b), Multipart.CloseMarker(b))
       <==> Clean(Lines(NormalizeRaw(text)), b)
  {
    var ls := Lines(NormalizeRaw(text));
    NormalizeHasNoCr(text);
    Folding.SplitChars(NormalizeRaw(text), '\n', '\r');
    forall i | 0 <= i < |ls| ensures Multipart.TrimCr(ls[i]) == ls[i] {
      assert ls[i] in ls;
    }
  }

  /**
   With a boundary that no body contains, the rendered parts hold no delimiter of it exactly when the
   boundaries of the multipart nodes among them are apart from it.
   */
  lemma FreshExactly(m: Message, top: bool)
    requires m.parts != [] && RenderAll(m.parts).Ok?
    requires PlainBoundary(BoundaryOf(m, top)) && !Boundary.MessageContains(m, BoundaryOf(m, top))
    ensures Multipart.Fresh(NormalizedTexts(RenderAll(m.parts).value), BoundaryOf(m, top)) <==>
            PartsApart(m, top)
  {
    var b, texts := BoundaryOf(m, top), RenderAll(m.parts).value;
    var ns := NormalizedTexts(texts);
    forall i | 0 <= i < |m.parts|
      ensures Multipart.AllPlain(Lines(ns[i]), Multipart.Marker(b), Multipart.CloseMarker(b))
         <==> ApartInTree(m.parts[i], false, b)
    {
      CleanIsPlain(texts[i], b);
      TreeClean(m.parts[i], false, b);
    }
  }

  // ----- trees whose boundaries are found in no body ---------------------------------------

  /** Every multipart node's boundary, named or generated, is plain and stands in no body of the node. */
  predicate Bounded(m: Message, top: bool)
    decreases m
  {
    m.parts != [] ==>
      && PlainBoundary(BoundaryOf(m, top)) && !Boundary.MessageContains(m, BoundaryOf(m, top))
      && forall i :: 0 <= i < |m.parts| ==> Bounded(m.parts[i], false)
  }

  /** No multipart node shares a delimiter with one it is nested in. */
  predicate PathsApart(m: Message, top: bool)
    decreases m
  {
    PartsApart(m, top) && forall i :: 0 <= i < |m.parts| ==> PathsApart(m.parts[i], false)
  }

  lemma {:induction false} RenderAllOk(parts: seq<Message>)
    requires forall i :: 0 <= i < |parts| ==> RenderMessage(parts[i], false).Ok?
    ensures RenderAll(parts).Ok?
  {
    if parts != [] {
      assert forall i :: 0 <= i < |parts[1..]| ==> parts[1..][i] == parts[i + 1];
      RenderAllOk(parts[1..]);
    }
  }

  lemma {:induction false} ReadableRenders(m: Message, top: bool)
    requires Readable(m, top)
    ensures RenderMessage(m, top).Ok?
    decreases m, 1
  {
    if m.parts == [] {
      ComposableRenders(LeafPlan(m, top).value.headers);
    } else {
      ComposableRenders(MultipartHeaders(m, top));
      PartsRender(m);
    }
  }

  lemma {:induction false} PartsRender(m: Message)
    requires forall i :: 0 <= i < |m.parts| ==> Readable(m.parts[i], false)
    ensures RenderAll(m.parts).Ok?
    decreases m, 0
  {
    forall i | 0 <= i < |m.parts| ensures RenderMessage(m.parts[i], false).Ok? {
      ReadableRenders(m.parts[i], false);
    }
    RenderAllOk(m.parts);
  }

  lemma NodeFresh(m: Message, top: bool)
    requires m.parts != [] && RenderAll(m.parts).Ok?
    requires forall i :: 0 <= i < |m.parts| ==> (AllFresh(m.parts[i], false) <==> PathsApart(m.parts[i], false))
    requires Multipart.Fresh(NormalizedTexts(RenderAll(m.parts).value), BoundaryOf(m, top)) <==> PartsApart(m, top)
    ensures AllFresh(m, top) <==> PathsApart(m, top)
  {
  }

  /** For such trees it can be seen without rendering whether any part holds a delimiter of its parent. */
  lemma {:induction false} FreshIsApart(m: Message, top: bool)
    requires Readable(m, top) && Bounded(m, top)
    ensures AllFresh(m, top) <==> PathsApart(m, top)
    decreases m
  {
    if m.parts != [] {
      PartsRender(m);
      FreshExactly(m, top);
      forall i | 0 <= i < |m.parts| ensures AllFresh(m.parts[i], false) <==> PathsApart(m.parts[i], false) {
        FreshIsApart(m.parts[i], false);
      }
      NodeFresh(m, top);
    }
  }

  // ----- trees that leave their boundaries to the composer ---------------------------------

  predicate AllGenerated(m: Message, top: bool)
    decreases m
  {
    m.parts != [] ==>
      BoundaryOf(m, top) == Boundary.Generated(m) && forall i :: 0 <= i < |m.parts| ==> AllGenerated(m.parts[i], false)
  }

  /** No multipart node of the tree is given the boundary `b`. */
  predicate Unused(m: Message, b: string)
    decreases m
  {
    m.parts != [] ==> Boundary.Generated(m) != b && forall i :: 0 <= i < |m.parts| ==> Unused(m.parts[i], b)
  }

  /** No multipart node is given the boundary of one it is nested in. */
  predicate PathsDiffer(m: Message)
    decreases m
  {
    forall i :: 0 <= i < |m.parts| ==> PathsDiffer(m.parts[i]) && Unused(m.parts[i], Boundary.Generated(m))
  }

  lemma {:induction false} UnusedIsApart(q: Message, top: bool, m: Message)
    requires AllGenerated(q, top)
    ensures Unused(q, Boundary.Generated(m)) <==> ApartInTree(q, top, Boundary.Generated(m))
    decreases q
  {
    if q.parts != [] {
      GeneratedApart(m, q);
      forall i | 0 <= i < |q.parts|
        ensures Unused(q.parts[i], Boundary.Generated(m)) <==> ApartInTree(q.parts[i], false, Boundary.Generated(m))
      {
        UnusedIsApart(q.parts[i], false, m);
      }
    }
  }

  /** Generated boundaries stand in no body, and keep apart exactly if they differ along every path. */
  lemma {:induction false} GeneratedPaths(m: Message, top: bool)
    requires AllGenerated(m, top)
    ensures Bounded(m, top) && (PathsApart(m, top) <==> PathsDiffer(m))
    decreases m
  {
    if m.parts != [] {
      GeneratedIsToken(m);
      forall i | 0 <= i < |m.parts|
        ensures Bounded(m.parts[i], false) && (PathsApart(m.parts[i], false) <==> PathsDiffer(m.parts[i]))
        ensures Unused(m.parts[i], Boundary.Generated(m)) <==> ApartInTree(m.parts[i], false, Boundary.Generated(m))
      {
        GeneratedPaths(m.parts[i], false);
        UnusedIsApart(m.parts[i], false, m);
      }
    }
  }

  // ----- the collision ---------------------------------------------------------------------

  /** A bare wrapper around one part, which the composer seeds like the part itself. */
  function Wrap(p: Message): Message {
    Message([], None, [p], None)
  }

  lemma WrapSharesSeed(p: Message, state: bv64)
    ensures Boundary.Seed(Wrap(p), state) == Boundary.Seed(p, state)
  {
    assert Boundary.SeedAll([p], state) == Boundary.SeedAll([p][1..], Boundary.Seed(p, state));
    assert Boundary.MixHeaders(state, Wrap(p).headers) == state;
  }

  lemma WrapSharesContent(p: Message, b: string)
    ensures Boundary.MessageContains(Wrap(p), b) <==> Boundary.MessageContains(p, b)
  {
    assert Wrap(p).parts[0] == p;
  }

  lemma WrapSharesBoundary(p: Message)
    ensures Boundary.Generated(Wrap(p)) == Boundary.Generated(p)
  {
    var seed := Boundary.Seed(p, Boundary.FNV_OFFSET);
    WrapSharesSeed(p, Boundary.FNV_OFFSET);
    forall b ensures Boundary.MessageContains(Wrap(p), b) <==> Boundary.MessageContains(p, b) {
      WrapSharesContent(p, b);
    }
    Boundary.FirstIsUnique(Wrap(p), seed, Boundary.FirstFree(p, seed, 0));
  }

  lemma PlainUnbroken(b: string)
    requires PlainBoundary(b)
    ensures '\r' !in b && '\n' !in b
  {
  }

  // ----- what the splitter makes of it -----------------------------------------------------

  /** A block of header lines on its own has no separator, so it is not a message. */
  lemma HeadersAloneFail(ls: seq<string>)
    requires forall l :: l in ls ==> HeaderLine(l)
    ensures SplitHeaderBody(Unlines(ls)).Err?
  {
    var s := Unlines(ls);
    NoBreakPair(ls);
    forall i: nat ensures !OccursAt(s, "\n\n", i) {
      if OccursAt(s, "\n\n", i) { PairBreaks(s, i); }
    }
  }

  lemma PairBreaks(s: string, i: nat)
    requires OccursAt(s, "\n\n", i)
    ensures BreakPair(s, i)
  {
    assert s[i..i + 2][0] == s[i] && s[i..i + 2][1] == s[i + 1];
  }
}
