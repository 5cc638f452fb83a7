/** The headers a composer adds survive with the caller's own. */
module AddedHeaders {
  import opened Wrappers
  import opened Text
  import opened Folding
  import opened Headers
  import opened MimeTree
  import opened ContentType
  import opened Compose
  import opened RoundTrip
  import EW = EncodedWords
  import Boundary
  import Freshness

  /** Whitespace-free words separated by single spaces, with no `=?`. */
  predicate Simple(v: string) {
    IsAscii(v) && AllBare(Split(v, ' ')) && !Contains(v, "=?")
  }

  lemma {:induction false} JoinFree(words: seq<string>, c: char)
    requires c != ' ' && forall i :: 0 <= i < |words| ==> c !in words[i]
    ensures c !in Join(words, " ")
  {
    if words != [] { JoinFree(words[1..], c); }
  }

  /** Every simple value survives under every valid header name. */
  lemma SimpleComposes(name: string, v: string)
    requires ValidName(name) && Simple(v)
    ensures Composable(Header(name, v))
  {
    var words := Split(v, ' ');
    SplitPieces(v, ' ');
    forall i | 0 <= i < |words| ensures '\r' !in words[i] && '\n' !in words[i] {
      assert Bare(words[i]);
    }
    JoinFree(words, '\r');
    JoinFree(words, '\n');
    AsciiIsUtf8(v);
    SingleSpaced(name, v);
    EW.NoWordWithoutOpener(v);
  }

  lemma OpenerHasMark(v: string, i: nat)
    requires OccursAt(v, "=?", i)
    ensures '?' in v
  {
    assert v[i..i + 2][1] == v[i + 1];
  }

  lemma NoOpener(v: string)
    requires '?' !in v
    ensures !Contains(v, "=?")
  {
    if Contains(v, "=?") {
      var i: nat :| i + |"=?"| <= |v| && OccursAt(v, "=?", i);
      OpenerHasMark(v, i);
    }
  }

  /** One ASCII word without `?`. */
  predicate PlainWord(w: string) {
    IsAscii(w) && Bare(w) && '?' !in w
  }

  lemma OneWordIsSimple(w: string)
    requires PlainWord(w)
    ensures Simple(w)
  {
    assert ' ' !in w;
    SplitNone(w, ' ');
    NoOpener(w);
  }

  lemma TwoWordsAreSimple(a: string, b: string)
    requires PlainWord(a) && PlainWord(b)
    ensures Simple(a + " " + b)
  {
    SplitAppend(a, b, ' ');
    assert ' ' !in a && ' ' !in b;
    SplitNone(a, ' ');
    SplitNone(b, ' ');
    NoOpener(a + " " + b);
  }

  lemma TokenIsSimple(e: TransferEncoding)
    ensures Simple(Token(e))
  {
    OneWordIsSimple(Token(e));
  }

  lemma DefaultTextWords()
    ensures PlainWord("text/plain;") && PlainWord("charset=utf-8")
  {
  }

  lemma DefaultTextSplits()
    ensures DEFAULT_TEXT == "text/plain;" + " " + "charset=utf-8"
  {
  }

  lemma DefaultTextIsSimple()
    ensures Simple(DEFAULT_TEXT)
  {
    DefaultTextWords();
    DefaultTextSplits();
    TwoWordsAreSimple("text/plain;", "charset=utf-8");
  }

  lemma NamesAreValid()
    ensures ValidName(MIME_VERSION) && ValidName(CONTENT_TYPE) && ValidName(TRANSFER_ENCODING)
  {
  }

  lemma SetComposes(hs: seq<Header>, name: string, value: string)
    requires AllComposable(hs) && ValidName(name) && Simple(value)
    ensures AllComposable(SetHeader(hs, name, value))
  {
    SetMembers(hs, name, value);
    var r := SetHeader(hs, name, value);
    forall i | 0 <= i < |r| ensures Composable(r[i]) {
      var h := r[i];
      if h !in hs {
        assert ValidName(h.name) && h.value == value by {
          if h != Header(name, value) {
            var g :| g in hs && Matches(g.name, name) && h == Header(g.name, value);
            assert Composable(g);
          }
        }
        SimpleComposes(h.name, value);
      }
    }
  }

  lemma TopComposes(m: Message, top: bool)
    requires AllComposable(m.headers)
    ensures AllComposable(TopHeaders(m, top))
  {
    NamesAreValid();
    OneWordIsSimple("1.0");
    SimpleComposes(MIME_VERSION, "1.0");
  }

  /** A leaf whose own headers survive is written with headers that survive. */
  lemma LeafHeadersCompose(m: Message, top: bool)
    requires AllComposable(m.headers) && LeafPlan(m, top).Ok?
    ensures AllComposable(LeafPlan(m, top).value.headers)
  {
    var hs, e := TopHeaders(m, top), LeafPlan(m, top).value.encoding;
    TopComposes(m, top);
    NamesAreValid();
    DefaultTextIsSimple();
    TokenIsSimple(e);
    SetComposes(hs, CONTENT_TYPE, DEFAULT_TEXT);
    var typed := if HeaderValue(hs, CONTENT_TYPE).None? then SetHeader(hs, CONTENT_TYPE, DEFAULT_TEXT) else hs;
    SetComposes(typed, TRANSFER_ENCODING, Token(e));
  }

  /** ASCII characters other than whitespace and `?`. */
  predicate WordBoundary(b: string) {
    forall i :: 0 <= i < |b| ==> b[i] as int < 128 && !AsciiSpace(b[i]) && b[i] != '?'
  }

  lemma ParamIsBare(b: string)
    requires WordBoundary(b)
    ensures PlainWord("boundary=\"" + b + "\"")
  {
    var p := "boundary=\"" + b + "\"";
    var head := "boundary=\"";
    assert IsAscii(head) && Bare(head) && '?' !in head;
    forall i | 0 <= i < |p| ensures p[i] as int < 128 && !AsciiSpace(p[i]) && p[i] != '?' {
      if i < |head| {
        assert p[i] == head[i];
        assert head[i] in head;
      } else if i < |head| + |b| {
        assert p[i] == b[i - |head|];
      } else {
        assert p[i] == '"';
      }
    }
  }

  lemma TypeIsSimple(base: string, b: string)
    requires PlainWord(base) && WordBoundary(b)
    ensures Simple(base + "; boundary=\"" + b + "\"")
  {
    var p := "boundary=\"" + b + "\"";
    ParamIsBare(b);
    TwoWordsAreSimple(base + ";", p);
    assert base + ";" + " " + p == base + "; boundary=\"" + b + "\"";
  }

  lemma GeneratedIsWord(m: Message)
    ensures WordBoundary(Boundary.Generated(m))
  {
    var b := Boundary.Generated(m);
    Freshness.GeneratedIsToken(m);
    assert forall i :: 0 <= i < |b| ==> Freshness.TokenChar(b[i]);
  }

  /** So is a multipart node whose base type is one word and whose boundary, named or generated, is none but a word. */
  lemma MultipartHeadersCompose(m: Message, top: bool)
    requires AllComposable(m.headers) && WordBoundary(BoundaryOf(m, top)) && PlainWord(MultipartBase(m, top))
    ensures AllComposable(MultipartHeaders(m, top))
  {
    var base, b := MultipartBase(m, top), BoundaryOf(m, top);
    TopComposes(m, top);
    BoundaryShape(m, top);
    ComposedType(base, b);
    TypeIsSimple(base, b);
    NamesAreValid();
    SetComposes(TopHeaders(m, top), CONTENT_TYPE, WithBoundary(base, b));
  }
}
