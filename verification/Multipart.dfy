/** Multipart framing (section 5.1.1 of RFC 2046) and the splitter that takes it apart. */
module Multipart {
  import opened Wrappers
  import opened Text
  import opened Headers
  import opened Folding

  function Marker(boundary: string): string { "--" + boundary }

  function CloseMarker(boundary: string): string { "--" + boundary + "--" }

  /** `line.trim_end_matches('\r')` */
  function TrimCr(line: string): string {
    if line != "" && line[|line| - 1] == '\r' then TrimCr(line[..|line| - 1]) else line
  }

  function StripSuffix(s: string, c: char): string {
    if s != "" && s[|s| - 1] == c then s[..|s| - 1] else s
  }

  /** `trim_part_section` */
  function TrimPart(section: string): (r: string)
    ensures |r| <= |section|
  {
    StripSuffix(StripSuffix(section, '\n'), '\r')
  }

  const UNCLOSED := "malformed multipart MIME body: missing closing boundary"

  function SectionsFrom(lines: seq<string>, marker: string, close: string, inside: bool, current: string): Result<seq<string>>
    decreases |lines|
  {
    if lines == [] then Err(UNCLOSED)
    else if TrimCr(lines[0]) == marker then
      PrependSections(Section(inside, current), SectionsFrom(lines[1..], marker, close, true, if inside then "" else current))
    else if TrimCr(lines[0]) == close then Ok(Section(inside, current))
    else SectionsFrom(lines[1..], marker, close, inside, if inside then current + (lines[0] + "\n") else current)
  }

  /** The section that a delimiter completes. */
  function Section(inside: bool, current: string): seq<string> {
    if inside then [TrimPart(current)] else []
  }

  /** `multipart_sections` */
  function Sections(body: string, boundary: string): Result<seq<string>> {
    SectionsFrom(Lines(body), Marker(boundary), CloseMarker(boundary), false, "")
  }

  lemma {:induction false} SectionsFromBound(lines: seq<string>, marker: string, close: string, inside: bool, current: string)
    ensures var r := SectionsFrom(lines, marker, close, inside, current);
            r.Ok? ==> forall i :: 0 <= i < |r.value| ==> |r.value[i]| <= |current| + Sum(lines)
    decreases |lines|
  {
    if lines != [] {
      if TrimCr(lines[0]) == marker {
        SectionsFromBound(lines[1..], marker, close, true, if inside then "" else current);
      } else if TrimCr(lines[0]) != close {
        SectionsFromBound(lines[1..], marker, close, inside, if inside then current + (lines[0] + "\n") else current);
      }
    }
  }

  /** A section is no longer than the body it was cut from. */
  lemma SectionsBound(body: string, boundary: string)
    ensures var r := Sections(body, boundary);
            r.Ok? ==> forall i :: 0 <= i < |r.value| ==> |r.value[i]| <= |body| + 1
  {
    SumSplit(body, '\n');
    SectionsFromBound(Lines(body), Marker(boundary), CloseMarker(boundary), false, "");
  }

  function PrependSections(a: seq<string>, r: Result<seq<string>>): Result<seq<string>> {
    if r.Ok? then Ok(a + r.value) else r
  }

  lemma PrependSectionsTwice(a: seq<string>, b: seq<string>, r: Result<seq<string>>)
    ensures PrependSections(a, PrependSections(b, r)) == PrependSections(a + b, r)
    ensures PrependSections([], r) == r
  {
    if r.Ok? {
      Assoc(a, b, r.value);
      assert [] + r.value == r.value;
    }
  }

  method MultipartSections(body: string, boundary: string) returns (r: Result<seq<string>>)
    ensures r == Sections(body, boundary)
  {
    var marker, close := Marker(boundary), CloseMarker(boundary);
    var sections: seq<string> := [];
    var current := "";
    var inside := false;
    var lines := Lines(body);
    assert lines[0..] == lines;
    PrependSectionsTwice([], [], Sections(body, boundary));
    for k := 0 to |lines|
      invariant Sections(body, boundary) == PrependSections(sections, SectionsFrom(lines[k..], marker, close, inside, current))
    {
      assert lines[k..][1..] == lines[k + 1..];
      var trimmed := TrimCr(lines[k]);
      if trimmed == marker {
        ghost var after := SectionsFrom(lines[k + 1..], marker, close, true, if inside then "" else current);
        PrependSectionsTwice(sections, Section(inside, current), after);
        if inside {
          sections := sections + [TrimPart(current)];
          current := "";
        } else {
          assert sections + [] == sections;
        }
        inside := true;
        continue;
      }
      if trimmed == close {
        if inside {
          sections := sections + [TrimPart(current)];
        } else {
          assert sections + [] == sections;
        }
        return Ok(sections);
      }
      if inside {
        current := current + (lines[k] + "\n");
      }
    }
    r := Err(UNCLOSED);
  }

  // ----- framing ---------------------------------------------------------------------------

  /** The LF-normalised multipart body the composer writes for `parts`. */
  function Framed(parts: seq<string>, boundary: string): string {
    if parts == [] then CloseMarker(boundary) + "\n"
    else Marker(boundary) + "\n" + (parts[0] + "\n" + Framed(parts[1..], boundary))
  }

  function FramedLines(parts: seq<string>, boundary: string): seq<string> {
    if parts == [] then [CloseMarker(boundary), ""]
    else [Marker(boundary)] + Lines(parts[0]) + FramedLines(parts[1..], boundary)
  }

  lemma {:induction false} LinesOfFramed(parts: seq<string>, boundary: string)
    requires '\n' !in boundary
    ensures Lines(Framed(parts, boundary)) == FramedLines(parts, boundary)
  {
    if parts == [] {
      SplitNone(CloseMarker(boundary), '\n');
      LinesAppend(CloseMarker(boundary), "");
      assert CloseMarker(boundary) + "\n" + "" == CloseMarker(boundary) + "\n";
    } else {
      LinesOfFramed(parts[1..], boundary);
      SplitNone(Marker(boundary), '\n');
      LinesAppend(parts[0], Framed(parts[1..], boundary));
      LinesAppend(Marker(boundary), parts[0] + "\n" + Framed(parts[1..], boundary));
      Assoc([Marker(boundary)], Lines(parts[0]), FramedLines(parts[1..], boundary));
    }
  }

  /** A line that the splitter keeps. */
  predicate Plain(line: string, marker: string, close: string) {
    TrimCr(line) != marker && TrimCr(line) != close
  }

  predicate AllPlain(ls: seq<string>, marker: string, close: string) {
    forall i :: 0 <= i < |ls| ==> Plain(ls[i], marker, close)
  }

  /** No line of any part is a delimiter. */
  predicate Fresh(parts: seq<string>, boundary: string) {
    forall i :: 0 <= i < |parts| ==> AllPlain(Lines(parts[i]), Marker(boundary), CloseMarker(boundary))
  }

  lemma {:induction false} PlainLinesGather(ls: seq<string>, rest: seq<string>, marker: string, close: string, current: string)
    requires AllPlain(ls, marker, close)
    ensures SectionsFrom(ls + rest, marker, close, true, current)
         == SectionsFrom(rest, marker, close, true, current + Unlines(ls))
    decreases |ls|
  {
    if ls == [] {
      assert ls + rest == rest && current + "" == current;
    } else {
      assert Plain(ls[0], marker, close);
      TailAppend(ls, rest);
      PlainLinesGather(ls[1..], rest, marker, close, current + (ls[0] + "\n"));
      Assoc(current, ls[0] + "\n", Unlines(ls[1..]));
    }
  }

  lemma GatheredPart(part: string)
    requires '\r' !in part
    ensures TrimPart(Unlines(Lines(part))) == part
  {
    SplitPieces(part, '\n');
    UnlinesIsJoin(Lines(part));
    assert (part + "\n")[..|part|] == part;
  }

  lemma MarkersAreThemselves(boundary: string)
    requires '\r' !in boundary
    ensures TrimCr(Marker(boundary)) == Marker(boundary) && TrimCr(CloseMarker(boundary)) == CloseMarker(boundary)
    ensures Marker(boundary) != CloseMarker(boundary)
  {
    assert |Marker(boundary)| < |CloseMarker(boundary)|;
  }

  /** Splitting one framed part and what follows. */
  lemma SectionsOfPart(part: string, rest: seq<string>, marker: string, close: string, inside: bool, current: string)
    requires '\r' !in part && AllPlain(Lines(part), marker, close) && TrimCr(marker) == marker
    requires !inside ==> current == ""
    ensures SectionsFrom([marker] + Lines(part) + rest, marker, close, inside, current)
         == PrependSections(Section(inside, current), SectionsFrom(rest, marker, close, true, Unlines(Lines(part))))
  {
    var all := [marker] + Lines(part) + rest;
    assert all[1..] == Lines(part) + rest;
    PlainLinesGather(Lines(part), rest, marker, close, "");
    assert "" + Unlines(Lines(part)) == Unlines(Lines(part));
  }

  lemma {:induction false} SectionsOfFramed(parts: seq<string>, boundary: string, inside: bool, current: string)
    requires '\r' !in boundary && (forall p :: p in parts ==> '\r' !in p) && Fresh(parts, boundary)
    requires !inside ==> current == ""
    ensures SectionsFrom(FramedLines(parts, boundary), Marker(boundary), CloseMarker(boundary), inside, current)
         == Ok(Section(inside, current) + parts)
    decreases |parts|
  {
    MarkersAreThemselves(boundary);
    if parts == [] {
      assert Section(inside, current) + parts == Section(inside, current);
    } else {
      var part := parts[0];
      assert '\r' !in part && AllPlain(Lines(part), Marker(boundary), CloseMarker(boundary));
      assert forall p :: p in parts[1..] ==> p in parts;
      SectionsOfFramed(parts[1..], boundary, true, Unlines(Lines(part)));
      GatheredPart(part);
      assert [part] + parts[1..] == parts;
      SectionsOfPart(part, FramedLines(parts[1..], boundary), Marker(boundary), CloseMarker(boundary), inside, current);
    }
  }

  /** A section gathered from kept lines. */
  ghost predicate FromPlain(section: string, marker: string, close: string) {
    exists ls: seq<string> :: section == TrimPart(Unlines(ls)) && AllPlain(ls, marker, close) && NoBreaks(ls)
  }

  predicate NoBreaks(ls: seq<string>) {
    forall i :: 0 <= i < |ls| ==> '\n' !in ls[i] && '\r' !in ls[i]
  }

  lemma UnlinesSnoc(ls: seq<string>, l: string)
    ensures Unlines(ls + [l]) == Unlines(ls) + (l + "\n")
  {
    UnlinesAppend(ls, [l]);
    assert l + "\n" + "" == l + "\n";
  }

  ghost predicate AllFromPlain(sections: seq<string>, marker: string, close: string) {
    forall i :: 0 <= i < |sections| ==> FromPlain(sections[i], marker, close)
  }

  /** The line gathered last, with the lines kept before it. */
  lemma KeepLine(kept: seq<string>, line: string, marker: string, close: string)
    requires NoBreaks(kept) && AllPlain(kept, marker, close)
    requires '\n' !in line && '\r' !in line && Plain(line, marker, close)
    ensures NoBreaks(kept + [line]) && AllPlain(kept + [line], marker, close)
    ensures Unlines(kept + [line]) == Unlines(kept) + (line + "\n")
  {
    UnlinesSnoc(kept, line);
  }

  lemma KeptSection(inside: bool, current: string, kept: seq<string>, marker: string, close: string)
    requires NoBreaks(kept) && AllPlain(kept, marker, close) && current == Unlines(kept)
    ensures AllFromPlain(Section(inside, current), marker, close)
  {
    assert FromPlain(TrimPart(current), marker, close);
  }

  /** Everything the splitter returns was gathered from kept lines. */
  lemma {:induction false} SectionsArePlain(
      lines: seq<string>, marker: string, close: string, inside: bool, current: string, kept: seq<string>)
    requires NoBreaks(lines) && NoBreaks(kept) && AllPlain(kept, marker, close)
    requires current == Unlines(kept) && (!inside ==> kept == [])
    ensures var r := SectionsFrom(lines, marker, close, inside, current);
            r.Ok? ==> AllFromPlain(r.value, marker, close)
    decreases |lines|
  {
    if lines != [] {
      var line := lines[0];
      KeptSection(inside, current, kept, marker, close);
      if TrimCr(line) == marker {
        SectionsArePlain(lines[1..], marker, close, true, if inside then "" else current, []);
      } else if TrimCr(line) != close {
        KeepLine(kept, line, marker, close);
        SectionsArePlain(lines[1..], marker, close, inside,
                         if inside then current + (line + "\n") else current, if inside then kept + [line] else kept);
      }
    }
  }

  lemma PlainSection(section: string, marker: string, close: string)
    requires FromPlain(section, marker, close) && marker != "" && close != ""
    ensures AllPlain(Lines(section), marker, close)
  {
    var ls :| section == TrimPart(Unlines(ls)) && AllPlain(ls, marker, close) && NoBreaks(ls);
    if ls == [] {
      assert section == "";
      assert TrimCr("") == "";
    } else {
      var j := Join(ls, "\n");
      UnlinesIsJoin(ls);
      assert StripSuffix(j + "\n", '\n') == j;
      JoinHasNoCr(ls);
      SplitJoin(ls, '\n');
    }
  }

  lemma {:induction false} JoinHasNoCr(ls: seq<string>)
    requires NoBreaks(ls)
    ensures '\r' !in Join(ls, "\n")
  {
    if ls != [] { JoinHasNoCr(ls[1..]); }
  }

  lemma {:induction false} FramedLinesUnbroken(parts: seq<string>, boundary: string)
    requires '\n' !in boundary && '\r' !in boundary && forall p :: p in parts ==> '\r' !in p
    ensures NoBreaks(FramedLines(parts, boundary))
  {
    if parts != [] {
      FramedLinesUnbroken(parts[1..], boundary);
      SplitPieces(parts[0], '\n');
      SplitChars(parts[0], '\n', '\r');
    }
  }

  lemma FreshIfInverted(parts: seq<string>, lines: seq<string>, boundary: string)
    requires NoBreaks(lines)
    requires SectionsFrom(lines, Marker(boundary), CloseMarker(boundary), false, "") == Ok(parts)
    ensures Fresh(parts, boundary)
  {
    SectionsArePlain(lines, Marker(boundary), CloseMarker(boundary), false, "", []);
    forall i | 0 <= i < |parts| ensures AllPlain(Lines(parts[i]), Marker(boundary), CloseMarker(boundary)) {
      PlainSection(parts[i], Marker(boundary), CloseMarker(boundary));
    }
  }

  /** Splitting inverts framing exactly when no line of a part is a delimiter. */
  lemma SectionsInvertFraming(parts: seq<string>, boundary: string)
    requires '\n' !in boundary && '\r' !in boundary && forall p :: p in parts ==> '\r' !in p
    ensures Sections(Framed(parts, boundary), boundary) == Ok(parts) <==> Fresh(parts, boundary)
  {
    LinesOfFramed(parts, boundary);
    if Fresh(parts, boundary) {
      SectionsOfFramed(parts, boundary, false, "");
      assert [] + parts == parts;
    }
    if Sections(Framed(parts, boundary), boundary) == Ok(parts) {
      FramedLinesUnbroken(parts, boundary);
      FreshIfInverted(parts, FramedLines(parts, boundary), boundary);
    }
  }

  lemma {:induction false} PreambleSkipped(pre: seq<string>, lines: seq<string>, marker: string, close: string)
    requires AllPlain(pre, marker, close)
    ensures SectionsFrom(pre + lines, marker, close, false, "") == SectionsFrom(lines, marker, close, false, "")
    decreases |pre|
  {
    if pre == [] {
      assert pre + lines == lines;
    } else {
      assert Plain(pre[0], marker, close);
      TailAppend(pre, lines);
      PreambleSkipped(pre[1..], lines, marker, close);
    }
  }

  lemma {:induction false} EpilogueSkipped(lines: seq<string>, post: seq<string>, marker: string, close: string,
                                           inside: bool, current: string)
    requires SectionsFrom(lines, marker, close, inside, current).Ok?
    ensures SectionsFrom(lines + post, marker, close, inside, current) == SectionsFrom(lines, marker, close, inside, current)
    decreases |lines|
  {
    TailAppend(lines, post);
    if TrimCr(lines[0]) == marker {
      EpilogueSkipped(lines[1..], post, marker, close, true, if inside then "" else current);
    } else if TrimCr(lines[0]) != close {
      EpilogueSkipped(lines[1..], post, marker, close, inside, if inside then current + (lines[0] + "\n") else current);
    }
  }

  /** What stands before the first delimiter and after the closing one does not matter. */
  lemma SurroundingsIgnored(pre: seq<string>, parts: seq<string>, boundary: string, post: seq<string>)
    requires '\r' !in boundary && (forall p :: p in parts ==> '\r' !in p) && Fresh(parts, boundary)
    requires AllPlain(pre, Marker(boundary), CloseMarker(boundary))
    ensures SectionsFrom(pre + (FramedLines(parts, boundary) + post), Marker(boundary), CloseMarker(boundary), false, "")
         == Ok(parts)
  {
    PreambleSkipped(pre, FramedLines(parts, boundary) + post, Marker(boundary), CloseMarker(boundary));
    SectionsOfFramed(parts, boundary, false, "");
    EpilogueSkipped(FramedLines(parts, boundary), post, Marker(boundary), CloseMarker(boundary), false, "");
    assert [] + parts == parts;
  }
}
