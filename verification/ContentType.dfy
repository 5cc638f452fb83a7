/** Content types and their boundary parameter. */
module ContentType {
  import opened Wrappers
  import opened Text
  import opened Folding

  /** `content_type_base` */
  function Base(contentType: string): string {
    match SplitOnce(contentType, ';')
    case Some((base, _)) => Trim(base)
    case None => Trim(contentType)
  }

  predicate IsText(contentType: string) {
    StartsWith(Lower(Base(contentType)), "text/")
  }

  predicate IsMultipart(contentType: string) {
    MultipartName(Base(contentType))
  }

  predicate MultipartName(base: string) {
    StartsWith(Lower(base), "multipart/")
  }

  function Unquoted(v: string): string {
    if |v| >= 2 && v[0] == '"' && v[|v| - 1] == '"' then v[1..|v| - 1] else v
  }

  /** The value of a parameter named `boundary`. */
  function BoundaryValue(param: string): Option<string> {
    match SplitOnce(Trim(param), '=')
    case None => None
    case Some((name, value)) => if Lower(Trim(name)) == "boundary" then Some(Unquoted(Trim(value))) else None
  }

  /** The value of the first such parameter. */
  function BoundaryParam(params: seq<string>): Option<string> {
    if params == [] then None
    else if BoundaryValue(params[0]).Some? then BoundaryValue(params[0])
    else BoundaryParam(params[1..])
  }

  /** `parse_boundary` */
  function ParseBoundary(contentType: string): Option<string> {
    BoundaryParam(Split(contentType, ';')[1..])
  }

  /** `content_type_with_boundary` */
  function WithBoundary(contentType: string, boundary: string): string {
    if ParseBoundary(contentType).Some? then contentType
    else contentType + "; boundary=\"" + boundary + "\""
  }

  lemma BaseShape(contentType: string)
    ensures ';' !in Base(contentType) && Trimmed(Base(contentType))
    ensures forall c :: c in Base(contentType) ==> c in contentType
  {
    match SplitOnce(contentType, ';')
    case Some((base, _)) => TrimTrims(base);
    case None => TrimTrims(contentType);
  }

  lemma BoundaryValueChars(param: string, bad: char)
    requires bad !in param
    ensures BoundaryValue(param).Some? ==> bad !in BoundaryValue(param).value
  {
    var trimmed := Trim(param);
    TrimTrims(param);
    match SplitOnce(trimmed, '=')
    case None =>
    case Some((name, value)) =>
      assert forall c :: c in value ==> c in trimmed;
      TrimTrims(value);
      assert bad !in Unquoted(Trim(value));
  }

  lemma {:induction false} BoundaryChars(params: seq<string>, bad: char)
    requires forall i :: 0 <= i < |params| ==> bad !in params[i]
    ensures BoundaryParam(params).Some? ==> bad !in BoundaryParam(params).value
  {
    if params != [] {
      BoundaryValueChars(params[0], bad);
      BoundaryChars(params[1..], bad);
    }
  }

  /** A boundary read from a content type holds no `;` and only characters of the content type. */
  lemma ParsedBoundaryChars(contentType: string, bad: char)
    requires bad == ';' || bad !in contentType
    ensures ParseBoundary(contentType).Some? ==> bad !in ParseBoundary(contentType).value
  {
    SplitPieces(contentType, ';');
    if bad != ';' { SplitChars(contentType, ';', bad); }
    BoundaryChars(Split(contentType, ';')[1..], bad);
  }

  lemma TightIsTrimmed(s: string)
    requires s != "" && s[0] as int < 128 && s[|s| - 1] as int < 128
    requires StartsTight(s) && EndsTight(s)
    ensures Trim(s) == s
  {
    TrimFixed(s);
  }

  lemma BoundaryValueIs(param: string, quoted: string, boundary: string)
    requires Trim(param) == "boundary" + "=" + quoted
    requires Trim(quoted) == quoted && Unquoted(quoted) == boundary
    ensures BoundaryValue(param) == Some(boundary)
  {
    SplitOnceAt("boundary", '=', quoted);
    BoundaryName();
  }

  lemma BoundaryName()
    ensures Lower(Trim("boundary")) == "boundary"
  {
    TightIsTrimmed("boundary");
    assert Lower("boundary") == "boundary";
  }

  lemma QuotedParam(boundary: string)
    ensures BoundaryParam([" boundary=\"" + boundary + "\""]) == Some(boundary)
  {
    var quoted := "\"" + boundary + "\"";
    var param := "boundary" + "=" + quoted;
    assert " boundary=\"" + boundary + "\"" == " " + param;
    TightIsTrimmed(param);
    TrimIndent(param);
    TightIsTrimmed(quoted);
    assert quoted[1..|quoted| - 1] == boundary;
    BoundaryValueIs(" " + param, quoted, boundary);
  }

  /** A composed multipart type has the given base and boundary. */
  lemma ComposedType(base: string, boundary: string)
    requires ';' !in base && Trimmed(base) && ';' !in boundary
    ensures WithBoundary(base, boundary) == base + "; boundary=\"" + boundary + "\""
    ensures Base(WithBoundary(base, boundary)) == base
    ensures ParseBoundary(WithBoundary(base, boundary)) == Some(boundary)
  {
    SplitNone(base, ';');
    var param := " boundary=\"" + boundary + "\"";
    var full := base + "; boundary=\"" + boundary + "\"";
    assert full == base + [';'] + param;
    SplitOnceAt(base, ';', param);
    TrimFixed(base);
    SplitAppend(base, param, ';');
    SplitNone(param, ';');
    assert Split(full, ';')[1..] == [param];
    QuotedParam(boundary);
  }

  lemma {:induction false} FirstBoundary(others: seq<string>, param: string, more: seq<string>)
    requires (forall i :: 0 <= i < |others| ==> BoundaryValue(others[i]).None?) && BoundaryValue(param).Some?
    ensures BoundaryParam(others + ([param] + more)) == BoundaryValue(param)
    decreases |others|
  {
    if others == [] {
      assert others + ([param] + more) == [param] + more;
    } else {
      TailAppend(others, [param] + more);
      FirstBoundary(others[1..], param, more);
    }
  }

  lemma NamedValue(name: string, value: string)
    requires '=' !in name && Lower(Trim(name)) == "boundary" && Trimmed(name + "=" + value)
    ensures BoundaryValue(name + "=" + value) == Some(Unquoted(Trim(value)))
  {
    TrimFixed(name + "=" + value);
    assert name + "=" + value == name + ['='] + value;
    SplitOnceAt(name, '=', value);
  }

  /**
   The boundary of any content type is the value of its first parameter of that name, in whatever case
   and place it stands, without the quotes around it.
   */
  lemma BoundaryReads(base: string, others: seq<string>, name: string, value: string, more: seq<string>)
    requires ';' !in base && ';' !in name && ';' !in value
    requires (forall p :: p in others ==> ';' !in p && BoundaryValue(p).None?) && (forall p :: p in more ==> ';' !in p)
    requires '=' !in name && Lower(Trim(name)) == "boundary" && Trimmed(name + "=" + value)
    ensures var t, v := Join([base] + (others + ([name + "=" + value] + more)), ";"), Trim(value);
            && ((v == "" || v[0] != '"') ==> ParseBoundary(t) == Some(v))
            && (|v| >= 2 && v[0] == '"' && v[|v| - 1] == '"' ==> ParseBoundary(t) == Some(v[1..|v| - 1]))
  {
    var param := name + "=" + value;
    var pieces := [base] + (others + ([param] + more));
    NamedValue(name, value);
    assert forall i :: 0 <= i < |others| ==> others[i] in others;
    FirstBoundary(others, param, more);
    SplitJoin(pieces, ';');
    assert pieces[1..] == others + ([param] + more);
  }

  lemma LowerPrefix(s: string, p: string)
    ensures StartsWith(Lower(s), p) <==> |s| >= |p| && Lower(s[..|p|]) == p
  {
    if |s| >= |p| { assert Lower(s)[..|p|] == Lower(s[..|p|]); }
  }

  /** A type is text, or multipart, by how it begins, in any case, whatever parameters follow. */
  lemma KindOfType(base: string, params: string)
    requires ';' !in base && Trimmed(base)
    ensures var t := base + ";" + params;
            && (IsText(t) <==> |base| >= 5 && Lower(base[..5]) == "text/")
            && (IsMultipart(t) <==> |base| >= 10 && Lower(base[..10]) == "multipart/")
  {
    assert base + ";" + params == base + [';'] + params;
    SplitOnceAt(base, ';', params);
    TrimFixed(base);
    LowerPrefix(base, "text/");
    LowerPrefix(base, "multipart/");
  }
}
