/** RFC 2047 encoded words in header values: the Q encoder and the decoder of both encodings. */
module EncodedWords {
  import opened Wrappers
  import opened Text
  import QP = QuotedPrintable
  import Base64

  // ----- encoding --------------------------------------------------------------------------

  predicate QLiteral(b: char) {
    'A' <= b <= 'Z' || 'a' <= b <= 'z' || '0' <= b <= '9' || b == '!' || b == '*' || b == '+' || b == '-' || b == '/'
  }

  function QToken(b: char): (t: string)
    ensures '?' !in t
  {
    if b == ' ' then "_" else if QLiteral(b) then [b] else "=" + QP.HexPair(b)
  }

  function QText(v: string): (t: string)
    ensures '?' !in t
  {
    if v == "" then "" else QToken(v[0]) + QText(v[1..])
  }

  const Q_PREFIX := "=?UTF-8?Q?"

  function QEncoded(v: string): string {
    Q_PREFIX + QText(v) + "?="
  }

  predicate SafeChar(c: char) {
    c as int < 128 && !AsciiSpace(c)
  }

  /** An encoded word is one ASCII word without whitespace. */
  lemma QEncodedChars(v: string)
    ensures forall c :: c in QEncoded(v) ==> SafeChar(c)
  {
    QTextChars(v);
    assert forall c :: c in Q_PREFIX ==> SafeChar(c);
    assert forall c :: c in "?=" ==> SafeChar(c);
  }

  lemma {:induction false} QTextChars(v: string)
    ensures forall c :: c in QText(v) ==> SafeChar(c)
  {
    if v != "" {
      QTextChars(v[1..]);
      assert forall c :: c in QToken(v[0]) ==> SafeChar(c);
    }
  }

  /** Letters, digits and a few signs stand for themselves. */
  lemma {:induction false} QWordStays(v: string)
    requires forall i :: 0 <= i < |v| ==>
               'A' <= v[i] <= 'Z' || 'a' <= v[i] <= 'z' || '0' <= v[i] <= '9' || v[i] in "!*+-/"
    ensures QText(v) == v
  {
    if v != "" {
      QWordStays(v[1..]);
      assert v == [v[0]] + v[1..];
    }
  }

  method QEncodeHeader(value: ByteString) returns (encoded: string)
    ensures encoded == QEncoded(value)
  {
    encoded := Q_PREFIX;
    assert value[0..] == value;
    for index := 0 to |value|
      invariant encoded + QText(value[index..]) == Q_PREFIX + QText(value)
    {
      ghost var rest := value[index..];
      assert rest[1..] == value[index + 1..];
      Assoc(encoded, QToken(rest[0]), QText(rest[1..]));
      if value[index] == ' ' {
        encoded := encoded + "_";
      } else if QLiteral(value[index]) {
        encoded := encoded + [value[index]];
      } else {
        encoded := encoded + ("=" + QP.HexPair(value[index]));
      }
    }
    encoded := encoded + "?=";
  }

  // ----- decoding --------------------------------------------------------------------------

  /** A complete encoded word `=?charset?encoding?text?=` inside `before =?..?= rest`. */
  datatype Word = Word(before: string, charset: string, encoding: string, text: string, rest: string)

  /** The first `=?` of `v` when it opens a complete encoded word. */
  function FirstWord(v: string): (w: Option<Word>)
    ensures w.Some? ==> |w.value.before| + |w.value.text| + |w.value.rest| + 6 <= |v|
  {
    match Find(v, "=?")
    case None => None
    case Some(start) =>
      match SplitOnce(v[start + 2..], '?')
      case None => None
      case Some((charset, afterCharset)) =>
        match SplitOnce(afterCharset, '?')
        case None => None
        case Some((encoding, afterEncoding)) =>
          match Find(afterEncoding, "?=")
          case None => None
          case Some(end) =>
            Some(Word(v[..start], charset, encoding, afterEncoding[..end], afterEncoding[end + 2..]))
  }

  function DecodeWord(w: Word): Result<string> {
    if Lower(w.charset) != "utf-8" && Lower(w.charset) != "utf8" then Err("unsupported RFC 2047 charset")
    else
      var decoded :-
        if Lower(w.encoding) == "b" then Base64.DecodeLiberal(w.text)
        else if Lower(w.encoding) == "q" then QP.Decoded(w.text, true)
        else Err("unsupported RFC 2047 encoding");
      if ValidUtf8(decoded) then Ok(decoded) else Err("invalid RFC 2047 UTF-8")
  }

  function DecodeWords(v: string): Result<string>
    decreases |v|
  {
    match FirstWord(v)
    case None => Ok(v)
    case Some(w) =>
      var decoded :- DecodeWord(w);
      var rest :- DecodeWords(w.rest);
      Ok(w.before + decoded + rest)
  }

  method FindWord(rest: string) returns (w: Option<Word>)
    ensures w == FirstWord(rest)
  {
    var start := Find(rest, "=?");
    if start.None? { return None; }
    var charset := SplitOnce(rest[start.value + 2..], '?');
    if charset.None? { return None; }
    var encoding := SplitOnce(charset.value.1, '?');
    if encoding.None? { return None; }
    var tail := encoding.value.1;
    var end := Find(tail, "?=");
    if end.None? { return None; }
    w := Some(Word(rest[..start.value], charset.value.0, encoding.value.0, tail[..end.value], tail[end.value + 2..]));
  }

  /** Some `=?` at `i` is followed by two more `?`, at `j` and `k`, and after them by `?=` at `l`. */
  predicate WordAt(v: string, i: nat, j: nat, k: nat, l: nat) {
    OccursAt(v, "=?", i) && i + 2 <= j < k < l && OccursAt(v, "?=", l) && v[j] == '?' && v[k] == '?'
  }

  lemma TailOccurs(v: string, p: string, n: nat, i: nat)
    requires n <= i <= |v|
    ensures OccursAt(v, p, i) <==> OccursAt(v[n..], p, i - n)
  {
    if i + |p| <= |v| { assert v[n..][i - n..i - n + |p|] == v[i..i + |p|]; }
  }

  lemma TailSplits(v: string, n: nat, a: string, c: string)
    requires n <= |v| && v[n..] == a + "?" + c
    ensures n + |a| < |v| && v[n + |a|] == '?' && v[n..n + |a|] == a && v[n + |a| + 1..] == c
  {
    assert v[n..][|a|] == '?' && v[n..][..|a|] == a && v[n..][|a| + 1..] == c;
  }

  /** Where the marks of a word stand, given the pieces it was taken apart into. */
  lemma WordPlaces(v: string, i: nat, charset: string, c: string, encoding: string, u: string, end: nat)
    requires OccursAt(v, "=?", i) && v[i + 2..] == charset + "?" + c && c == encoding + "?" + u && OccursAt(u, "?=", end)
    ensures var j := i + 2 + |charset|;
            var k := j + 1 + |encoding|;
            WordAt(v, i, j, k, k + 1 + end)
  {
    TailSplits(v, i + 2, charset, c);
    var j := i + 2 + |charset|;
    TailSplits(v, j + 1, encoding, u);
    var k := j + 1 + |encoding|;
    TailOccurs(v, "?=", k + 1, k + 1 + end);
  }

  /** The pieces the search takes a value apart into. */
  lemma Pieces(v: string) returns (i: nat, charset: string, c: string, encoding: string, u: string, end: nat)
    requires FirstWord(v).Some?
    ensures Find(v, "=?") == Some(i) && i + 2 <= |v| && SplitOnce(v[i + 2..], '?') == Some((charset, c))
    ensures SplitOnce(c, '?') == Some((encoding, u)) && Find(u, "?=") == Some(end) && end + 2 <= |u|
    ensures FirstWord(v).value == Word(v[..i], charset, encoding, u[..end], u[end + 2..])
  {
    i := Find(v, "=?").value;
    var first := SplitOnce(v[i + 2..], '?').value;
    charset, c := first.0, first.1;
    var second := SplitOnce(c, '?').value;
    encoding, u := second.0, second.1;
    end := Find(u, "?=").value;
  }

  /** The word found stands at its marks, and no opener before it. */
  lemma WordFound(v: string)
    requires FirstWord(v).Some?
    ensures exists j: nat, k: nat, l: nat :: WordAt(v, |FirstWord(v).value.before|, j, k, l)
    ensures forall o: nat :: o < |FirstWord(v).value.before| ==> !OccursAt(v, "=?", o)
  {
    var i, charset, c, encoding, u, end := Pieces(v);
    WordPlaces(v, i, charset, c, encoding, u, end);
  }

  method DecodeEncodedWords(value: string) returns (r: Result<string>)
    ensures r == DecodeWords(value)
  {
    var output := "";
    var rest := value;
    QP.PrependUnit("", DecodeWords(value));
    while true
      invariant DecodeWords(value) == QP.Prepend(output, DecodeWords(rest))
      decreases |rest|
    {
      var word := FindWord(rest);
      if word.None? {
        return Ok(output + rest);
      }
      var w := word.value;
      var decoded := DecodeWord(w);
      if decoded.Err? {
        return decoded;
      }
      QP.PrependAppend(output, w.before + decoded.value, DecodeWords(w.rest));
      output := output + (w.before + decoded.value);
      rest := w.rest;
    }
  }

  // ----- round trip ------------------------------------------------------------------------

  lemma DecodedQToken(b: char, rest: string)
    requires b as int < 256
    ensures QP.Decoded(QToken(b) + rest, true) == QP.Prepend([b], QP.Decoded(rest, true))
  {
    var s := QToken(b) + rest;
    QP.HexPairNamesByte(b);
    if b == ' ' || QLiteral(b) {
      assert s[1..] == rest;
    } else {
      assert s[3..] == rest;
      assert s[1] == QP.HexPair(b)[0] && s[2] == QP.HexPair(b)[1];
    }
  }

  lemma {:induction false} DecodedQText(v: ByteString)
    ensures QP.Decoded(QText(v), true) == Ok(v)
  {
    if v != "" {
      DecodedQText(v[1..]);
      DecodedQToken(v[0], QText(v[1..]));
      assert [v[0]] + v[1..] == v;
    }
  }

  // ----- words within a value --------------------------------------------------------------

  /** An encoded word between other text. */
  function Around(before: string, charset: string, encoding: string, text: string, rest: string): string {
    before + ("=?" + (charset + "?" + (encoding + "?" + (text + "?=" + rest))))
  }

  lemma FindEnd(text: string, rest: string)
    requires '?' !in text
    ensures Find(text + "?=" + rest, "?=") == Some(|text|)
  {
    var s := text + "?=" + rest;
    assert s[|text|..|text| + 2] == "?=";
    forall i: nat | i < |text| ensures !OccursAt(s, "?=", i) {
      assert s[i] == text[i];
      assert i + 2 <= |s| ==> s[i..i + 2][0] == s[i];
    }
    FindUnique(s, "?=", |text|);
  }

  lemma FindOpener(before: string, tail: string)
    requires !Contains(before, "=?")
    ensures Find(before + ("=?" + tail), "=?") == Some(|before|) && (before + ("=?" + tail))[|before| + 2..] == tail
  {
    var s := before + ("=?" + tail);
    assert s[|before|..|before| + 2] == "=?";
    forall i: nat | i < |before| ensures !OccursAt(s, "=?", i) {
      if i + 2 <= |before| {
        assert s[i..i + 2] == before[i..i + 2];
        assert !OccursAt(before, "=?", i);
      } else {
        assert s[i + 1] == '=' && s[i..i + 2][1] == '=';
      }
    }
    FindUnique(s, "=?", |before|);
  }

  lemma WordBetween(before: string, charset: string, encoding: string, text: string, rest: string)
    requires !Contains(before, "=?") && '?' !in charset && '?' !in encoding && '?' !in text
    ensures FirstWord(Around(before, charset, encoding, text, rest)) == Some(Word(before, charset, encoding, text, rest))
  {
    var tail := text + "?=" + rest;
    var middle := encoding + "?" + tail;
    FindOpener(before, charset + "?" + middle);
    assert Around(before, charset, encoding, text, rest)[..|before|] == before;
    SplitOnceAt(charset, '?', middle);
    SplitOnceAt(encoding, '?', tail);
    FindEnd(text, rest);
    assert tail[..|text|] == text && tail[|text| + 2..] == rest;
  }

  lemma WordReads(before: string, charset: string, encoding: string, v: ByteString, text: string, rest: string)
    requires ValidUtf8(v) && (Lower(charset) == "utf-8" || Lower(charset) == "utf8")
    requires Lower(encoding) == "b" || Lower(encoding) == "q"
    requires text == if Lower(encoding) == "b" then Base64.Encode(v) else QText(v)
    ensures '?' !in text && DecodeWord(Word(before, charset, encoding, text, rest)) == Ok(v)
  {
    if Lower(encoding) == "b" { Base64.TextDecodes(v); } else { DecodedQText(v); }
  }

  /**
   A word in base64 or Q, in any case and under either name of the charset, is replaced by the text it
   stands for, wherever it stands; decoding goes on behind it.
   */
  lemma WordsDecode(before: string, charset: string, encoding: string, v: ByteString, rest: string)
    requires ValidUtf8(v) && !Contains(before, "=?") && '?' !in charset && '?' !in encoding
    requires Lower(charset) == "utf-8" || Lower(charset) == "utf8"
    requires Lower(encoding) == "b" || Lower(encoding) == "q"
    ensures var text := if Lower(encoding) == "b" then Base64.Encode(v) else QText(v);
            DecodeWords(Around(before, charset, encoding, text, rest)) == QP.Prepend(before + v, DecodeWords(rest))
  {
    var text := if Lower(encoding) == "b" then Base64.Encode(v) else QText(v);
    WordReads(before, charset, encoding, v, text, rest);
    WordBetween(before, charset, encoding, text, rest);
  }

  lemma QPrefixShape(t: string)
    ensures Q_PREFIX + t == "=?" + ("UTF-8" + "?" + ("Q" + "?" + t))
  {
  }

  lemma QEncodedShape(v: string)
    ensures QEncoded(v) == Around("", "UTF-8", "Q", QText(v), "")
  {
    var t := QText(v) + "?=";
    QPrefixShape(t);
    Assoc(Q_PREFIX, QText(v), "?=");
    assert t + "" == t;
    var s := "=?" + ("UTF-8" + "?" + ("Q" + "?" + t));
    assert "" + s == s;
  }

  /** Decoding inverts the Q encoding of every string. */
  lemma RoundTrip(v: Utf8)
    ensures DecodeWords(QEncoded(v)) == Ok(v)
  {
    Utf8IsBytes(v);
    QEncodedShape(v);
    assert Lower("UTF-8") == "utf-8" && Lower("Q") == "q";
    assert !Contains("", "=?");
    WordsDecode("", "UTF-8", "Q", v, "");
    NoWordWithoutOpener("");
    assert "" + v + "" == v;
  }

  /** A word of another charset or encoding is an error, whatever it holds. */
  lemma OtherWordsFail(before: string, charset: string, encoding: string, text: string, rest: string)
    requires !Contains(before, "=?") && '?' !in charset && '?' !in encoding && '?' !in text
    requires Lower(charset) !in {"utf-8", "utf8"} || Lower(encoding) !in {"b", "q"}
    ensures DecodeWords(Around(before, charset, encoding, text, rest)).Err?
  {
    WordBetween(before, charset, encoding, text, rest);
  }

  lemma DecodeWordShrinks(w: Word)
    ensures DecodeWord(w).Ok? ==> |DecodeWord(w).value| <= |w.text|
  {
    Base64.LiberalShrinks(w.text);
    QP.DecodedLength(w.text, true);
  }

  lemma {:induction false} DecodeWordsShrinks(v: string)
    ensures DecodeWords(v).Ok? ==> |DecodeWords(v).value| <= |v|
    ensures DecodeWords(v).Ok? && FirstWord(v).Some? ==> |DecodeWords(v).value| < |v|
    decreases |v|
  {
    if FirstWord(v).Some? {
      DecodeWordShrinks(FirstWord(v).value);
      DecodeWordsShrinks(FirstWord(v).value.rest);
    }
  }

  /** A value decodes to itself exactly when it holds no complete encoded word. */
  lemma DecodesToItself(v: string)
    ensures DecodeWords(v) == Ok(v) <==> FirstWord(v).None?
    ensures DecodeWords(v) == Ok(v) <==> forall i: nat, j: nat, k: nat, l: nat :: !WordAt(v, i, j, k, l)
  {
    DecodeWordsShrinks(v);
    WordFoundExactly(v);
  }

  lemma MarkThere(s: string, i: nat) returns (a: string, c: string)
    requires i < |s| && s[i] == '?'
    ensures SplitOnce(s, '?') == Some((a, c)) && |a| <= i && c == s[|a| + 1..]
  {
    a, c := SplitOnce(s, '?').value.0, SplitOnce(s, '?').value.1;
    assert forall o :: 0 <= o < |a| ==> s[o] == a[o];
  }

  /** After a second `?` the search for the closing mark succeeds. */
  lemma MarkSplits(c: string, k: nat, l: nat)
    requires k < l && OccursAt(c, "?=", l) && c[k] == '?'
    ensures SplitOnce(c, '?').Some? && Find(SplitOnce(c, '?').value.1, "?=").Some?
  {
    var e, u := MarkThere(c, k);
    TailOccurs(c, "?=", |e| + 1, l);
  }

  lemma MarksSplit(s: string, j: nat, k: nat, l: nat)
    requires j < k < l && OccursAt(s, "?=", l) && s[j] == '?' && s[k] == '?'
    ensures SplitOnce(s, '?').Some? && SplitOnce(SplitOnce(s, '?').value.1, '?').Some?
    ensures Find(SplitOnce(SplitOnce(s, '?').value.1, '?').value.1, "?=").Some?
  {
    var a, c := MarkThere(s, j);
    TailOccurs(s, "?=", |a| + 1, l);
    assert c[k - |a| - 1] == '?';
    MarkSplits(c, k - |a| - 1, l - |a| - 1);
  }

  /** A word anywhere in the value makes the search succeed, though perhaps with an earlier opener. */
  lemma MarksMakeWord(v: string, i: nat, j: nat, k: nat, l: nat)
    requires WordAt(v, i, j, k, l)
    ensures FirstWord(v).Some?
  {
    var n := Find(v, "=?").value + 2;
    TailOccurs(v, "?=", n, l);
    MarksSplit(v[n..], j - n, k - n, l - n);
  }

  /** The search finds a word exactly if there is one, and none opens before the one it finds. */
  lemma WordFoundExactly(v: string)
    ensures FirstWord(v).Some? <==> exists i: nat, j: nat, k: nat, l: nat :: WordAt(v, i, j, k, l)
    ensures FirstWord(v).Some? ==>
              forall i: nat, j: nat, k: nat, l: nat :: WordAt(v, i, j, k, l) ==> |FirstWord(v).value.before| <= i
  {
    if FirstWord(v).Some? {
      WordFound(v);
    }
    if i: nat, j: nat, k: nat, l: nat :| WordAt(v, i, j, k, l) {
      MarksMakeWord(v, i, j, k, l);
    }
  }

  lemma NoWordWithoutOpener(v: string)
    requires !Contains(v, "=?")
    ensures FirstWord(v).None?
  {
  }
}
