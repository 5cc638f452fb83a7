/** The `application/x-www-form-urlencoded` format (sections 5.1 and 5.2 of the WHATWG URL Standard). */
module FormUrlencoded {
  import opened Wrappers
  import opened Text
  import QP = QuotedPrintable

  datatype Pair = Pair(name: Utf8, value: Utf8)

  // ----- lossy UTF-8 -----------------------------------------------------------------------

  const REPLACEMENT := "\U{EF}\U{BF}\U{BD}"

  /** How many bytes of an ill-formed start one replacement character stands for. */
  function BadLength(s: string): (n: nat)
    requires s != "" && Utf8Head(s) == 0
    ensures 1 <= n <= |s|
  {
    var b := s[0] as int;
    if 0xE0 <= b <= 0xF4 && |s| >= 2 && SecondOk(b, s[1] as int) then
      if b >= 0xF0 && |s| >= 3 && Continuation(s[2]) then 3 else 2
    else 1
  }

  lemma JoinUtf8(h: string, t: string)
    requires Utf8Head(h) == |h| > 0 && ValidUtf8(t)
    ensures ValidUtf8(h + t)
  {
    var s := h + t;
    assert forall i :: 0 <= i < |h| ==> s[i] == h[i];
    assert Utf8Head(s) == |h|;
    assert s[|h|..] == t;
  }

  /** `String::from_utf8_lossy` */
  function Lossy(s: string): (r: Utf8)
    decreases |s|
  {
    if s == "" then ""
    else
      var n := Utf8Head(s);
      if n > 0 then
        assert Utf8Head(s[..n]) == n;
        JoinUtf8(s[..n], Lossy(s[n..]));
        s[..n] + Lossy(s[n..])
      else
        assert Utf8Head(REPLACEMENT) == 3;
        JoinUtf8(REPLACEMENT, Lossy(s[BadLength(s)..]));
        REPLACEMENT + Lossy(s[BadLength(s)..])
  }

  lemma {:induction false} LossyKeeps(s: Utf8)
    ensures Lossy(s) == s
    decreases |s|
  {
    if s != "" {
      var n := Utf8Head(s);
      var rest := s[n..];
      LossyKeeps(rest);
      assert Lossy(s) == s[..n] + Lossy(rest);
      assert s[..n] + rest == s;
    }
  }

  // ----- serializing -----------------------------------------------------------------------

  predicate Unreserved(c: char) {
    'a' <= c <= 'z' || 'A' <= c <= 'Z' || '0' <= c <= '9' || c in "*-._"
  }

  function Token(c: char): string {
    if c == ' ' then "+" else if Unreserved(c) then [c] else "%" + QP.HexPair(c)
  }

  function Encode(s: string): string {
    if s == "" then "" else Token(s[0]) + Encode(s[1..])
  }

  function Field(p: Pair): string {
    Encode(p.name) + "=" + Encode(p.value)
  }

  function Fields(pairs: seq<Pair>): (r: seq<string>)
    ensures |r| == |pairs| && forall i :: 0 <= i < |r| ==> r[i] == Field(pairs[i])
  {
    seq(|pairs|, i requires 0 <= i < |pairs| => Field(pairs[i]))
  }

  /** `encode_pairs` */
  function Serialize(pairs: seq<Pair>): string {
    Join(Fields(pairs), "&")
  }

  // ----- parsing ---------------------------------------------------------------------------

  /** Plus signs become spaces and well-formed escapes become bytes; anything else stays. */
  function Decode(s: string): string {
    if s == "" then ""
    else if s[0] == '+' then " " + Decode(s[1..])
    else if s[0] == '%' && |s| >= 3 && QP.HexByte(s[1], s[2]).Some? then [QP.HexByte(s[1], s[2]).value] + Decode(s[3..])
    else [s[0]] + Decode(s[1..])
  }

  function ParseField(field: string): Pair {
    match SplitOnce(field, '=')
    case Some((name, value)) => Pair(Lossy(Decode(name)), Lossy(Decode(value)))
    case None => Pair(Lossy(Decode(field)), "")
  }

  function ParseFields(fields: seq<string>): seq<Pair> {
    if fields == [] then []
    else if fields[0] == "" then ParseFields(fields[1..])
    else [ParseField(fields[0])] + ParseFields(fields[1..])
  }

  function Parse(input: string): seq<Pair> {
    ParseFields(Split(input, '&'))
  }

  // ----- round trip ------------------------------------------------------------------------

  predicate Safe(c: char) {
    Unreserved(c) || c == '+' || c == '%'
  }

  predicate AllSafe(s: string) {
    forall i :: 0 <= i < |s| ==> Safe(s[i])
  }

  lemma TokenSafe(c: char)
    ensures AllSafe(Token(c))
  {
  }

  lemma {:induction false} EncodeSafe(s: string)
    ensures AllSafe(Encode(s))
  {
    if s != "" {
      EncodeSafe(s[1..]);
      TokenSafe(s[0]);
    }
  }

  lemma DecodeToken(c: char, rest: string)
    requires c as int < 256
    ensures Decode(Token(c) + rest) == [c] + Decode(rest)
  {
    var s := Token(c) + rest;
    if c == ' ' || Unreserved(c) {
      assert s[1..] == rest;
    } else {
      QP.HexPairNamesByte(c);
      assert s[1] == QP.HexPair(c)[0] && s[2] == QP.HexPair(c)[1];
      assert s[3..] == rest;
    }
  }

  lemma {:induction false} DecodeEncode(s: ByteString)
    ensures Decode(Encode(s)) == s
  {
    if s != "" {
      DecodeEncode(s[1..]);
      DecodeToken(s[0], Encode(s[1..]));
      assert [s[0]] + s[1..] == s;
    }
  }

  lemma EncodedPlain(s: string)
    ensures '=' !in Encode(s) && '&' !in Encode(s)
  {
    EncodeSafe(s);
  }

  lemma DecodedBack(s: Utf8)
    ensures Lossy(Decode(Encode(s))) == s
  {
    Utf8IsBytes(s);
    DecodeEncode(s);
    LossyKeeps(s);
  }

  lemma FieldPlain(p: Pair)
    ensures Field(p) != "" && '&' !in Field(p)
  {
    EncodedPlain(p.name);
    EncodedPlain(p.value);
  }

  lemma FieldRoundTrip(p: Pair)
    ensures ParseField(Field(p)) == p
  {
    EncodedPlain(p.name);
    SplitOnceAt(Encode(p.name), '=', Encode(p.value));
    DecodedBack(p.name);
    DecodedBack(p.value);
  }

  lemma {:induction false} FieldsRoundTrip(pairs: seq<Pair>)
    ensures ParseFields(Fields(pairs)) == pairs
  {
    if pairs != [] {
      FieldsRoundTrip(pairs[1..]);
      FieldRoundTrip(pairs[0]);
      FieldPlain(pairs[0]);
      assert Fields(pairs)[1..] == Fields(pairs[1..]);
      assert [pairs[0]] + pairs[1..] == pairs;
    }
  }

  /** Parsing a serialized list gives the list back, whatever its names and values hold. */
  lemma ParseSerialize(pairs: seq<Pair>)
    requires pairs != []
    ensures Parse(Serialize(pairs)) == pairs
  {
    forall f | f in Fields(pairs) ensures '&' !in f {
      var i :| 0 <= i < |pairs| && Fields(pairs)[i] == f;
      FieldPlain(pairs[i]);
    }
    SplitJoin(Fields(pairs), '&');
    FieldsRoundTrip(pairs);
  }

  // ----- other queries ---------------------------------------------------------------------

  lemma {:induction false} FieldsAppend(a: seq<string>, b: seq<string>)
    ensures ParseFields(a + b) == ParseFields(a) + ParseFields(b)
    decreases |a|
  {
    if a == [] {
      assert a + b == b;
    } else {
      FieldsAppend(a[1..], b);
      TailAppend(a, b);
    }
  }

  /** The fields of a query are read one by one, and empty ones left out. */
  lemma QueriesJoin(a: string, b: string)
    ensures Parse(a + "&" + b) == Parse(a) + Parse(b) && Parse("") == []
  {
    SplitAppend(a, b, '&');
    assert a + "&" + b == a + ['&'] + b;
    FieldsAppend(Split(a, '&'), Split(b, '&'));
    assert Split("", '&') == [""] && [""][1..] == [];
  }

  /** A field without an equals sign is a name with an empty value. */
  lemma LoneName(name: Utf8)
    requires name != ""
    ensures Parse(Encode(name)) == [Pair(name, "")]
  {
    EncodedPlain(name);
    SplitNone(Encode(name), '&');
    DecodedBack(name);
    var f := Encode(name);
    assert f != "" && SplitOnce(f, '=').None?;
    assert Split(f, '&') == [f] && [f][1..] == [] && ParseFields([]) == [];
    assert ParseField(f) == Pair(name, "");
  }

  /** Letters, digits and `*-._` stand for themselves, and a space is written as a plus sign. */
  lemma {:induction false} WordsStay(s: string)
    requires forall i :: 0 <= i < |s| ==>
               'a' <= s[i] <= 'z' || 'A' <= s[i] <= 'Z' || '0' <= s[i] <= '9' || s[i] in "*-._ "
    ensures |Encode(s)| == |s| && forall i :: 0 <= i < |s| ==> Encode(s)[i] == if s[i] == ' ' then '+' else s[i]
  {
    if s != "" { WordsStay(s[1..]); }
  }
}
