/** Header folding (section 2.2.3 of RFC 5322) as the composer does it, and what unfolding recovers. */
module Folding {
  import opened Wrappers
  import opened Text

  // ----- folding ---------------------------------------------------------------------------

  /** `current` cannot take `word` without passing column 78. */
  predicate Breaks(current: string, word: string) {
    current != "" && |current| + 1 + |word| > 78
  }

  function Extend(current: string, word: string): string {
    if current == "" then word else current + " " + word
  }

  /** Greedy packing of words into lines, starting from the unfinished line `current`. */
  function Pack(words: seq<string>, current: string): (ps: seq<string>)
    ensures |ps| >= 1
  {
    if words == [] then [current]
    else if Breaks(current, words[0]) then [current] + Pack(words[1..], words[0])
    else Pack(words[1..], Extend(current, words[0]))
  }

  function Indented(ps: seq<string>): (r: seq<string>)
    ensures |r| == |ps|
    ensures forall i :: 0 <= i < |ps| ==> r[i] == " " + ps[i]
  {
    seq(|ps|, i requires 0 <= i < |ps| => " " + ps[i])
  }

  /** The physical lines of a list of packed lines: every line after the first is indented. */
  function Physical(ps: seq<string>): (r: seq<string>)
    requires ps != []
    ensures |r| == |ps| && r[0] == ps[0]
  {
    [ps[0]] + Indented(ps[1..])
  }

  function FoldedLines(name: string, value: string): (r: seq<string>)
    ensures |r| >= 1
  {
    var line := name + ": " + value;
    var ps := Pack(Split(line, ' '), "");
    if |line| <= 78 || |ps| == 1 then [line] else Physical(ps)
  }

  /** `fold_header_line` */
  function Folded(name: string, value: string): string {
    Join(FoldedLines(name, value), "\r\n")
  }

  lemma {:induction false} JoinSnoc(ls: seq<string>, x: string, d: string)
    requires ls != []
    ensures Join(ls + [x], d) == Join(ls, d) + d + x
  {
    if |ls| == 1 {
      assert (ls + [x])[1..] == [x];
    } else {
      JoinSnoc(ls[1..], x, d);
      assert (ls + [x])[1..] == ls[1..] + [x];
      assert ls[0] + d + (Join(ls[1..], d) + d + x) == ls[0] + d + Join(ls[1..], d) + d + x;
    }
  }

  lemma PhysicalSnoc(ps: seq<string>, x: string)
    requires ps != []
    ensures Physical(ps + [x]) == Physical(ps) + [" " + x]
    ensures Join(Physical(ps + [x]), "\r\n") == Join(Physical(ps), "\r\n") + "\r\n " + x
  {
    assert (ps + [x])[1..] == ps[1..] + [x];
    JoinSnoc(Physical(ps), " " + x, "\r\n");
    var j := Join(Physical(ps), "\r\n");
    assert j + "\r\n" + (" " + x) == j + "\r\n " + x;
  }

  method FoldHeaderLine(name: string, value: string) returns (r: string)
    ensures r == Folded(name, value)
  {
    var line := name + ": " + value;
    if |line| <= 78 {
      return line;
    }
    var words := Split(line, ' ');
    var folded, current := "", "";
    ghost var flushed: seq<string> := [];
    assert words[0..] == words;
    for k := 0 to |words|
      invariant flushed + Pack(words[k..], current) == Pack(words, "")
      invariant folded == if flushed == [] then "" else Join(Physical(flushed), "\r\n")
      invariant folded == "" <==> flushed == []
    {
      var word := words[k];
      assert words[k..][1..] == words[k + 1..];
      if current != "" && |current| + 1 + |word| > 78 {
        if folded == "" {
          folded := current;
          assert Physical([current]) == [current];
        } else {
          PhysicalSnoc(flushed, current);
          folded := folded + "\r\n " + current;
        }
        Assoc(flushed, [current], Pack(words[k + 1..], word));
        flushed := flushed + [current];
        current := word;
      } else {
        current := Extend(current, word);
      }
    }
    if folded == "" {
      return line;
    }
    PhysicalSnoc(flushed, current);
    r := folded + "\r\n " + current;
  }

  // ----- line lengths ----------------------------------------------------------------------

  lemma {:induction false} PackBound(words: seq<string>, current: string)
    requires forall w :: w in words ==> ' ' !in w
    requires |current| <= 78 || ' ' !in current
    ensures forall p :: p in Pack(words, current) ==> |p| <= 78 || ' ' !in p
  {
    if words != [] {
      if Breaks(current, words[0]) {
        PackBound(words[1..], words[0]);
      } else {
        PackBound(words[1..], Extend(current, words[0]));
      }
    }
  }

  lemma OneLineIsShort(words: seq<string>, current: string)
    requires words != [] && forall w :: w in words ==> ' ' !in w
    requires current != "" && ' ' !in current && |Pack(words, current)| == 1
    ensures |current| + 1 + |Join(words, " ")| <= 78
  {
    var ps := Pack(words, current);
    PackKeepsAll(words, current);
    PackBound(words, current);
    assert ps[0] in ps && ps[0][|current|] == ' ';
  }

  /** A line past column 78 is broken at least once, and its words are those of the value. */
  lemma LongLineBreaks(name: string, value: string)
    requires ' ' !in name && |name + ": " + value| > 78
    ensures var ps := Pack(Split(value, ' '), name + ":");
            |ps| >= 2 && FoldedLines(name, value) == Physical(ps)
  {
    var line := name + ": " + value;
    var words := Split(value, ' ');
    var ps := Pack(words, name + ":");
    FirstWordOfLine(name, value);
    PackFromFirst(Split(line, ' '));
    assert Split(line, ' ')[1..] == words;
    SplitPieces(value, ' ');
    if |ps| == 1 { OneLineIsShort(words, name + ":"); }
  }

  /**
   A folded line is longer than 78 characters (79 with its indent) only when a single word is:
   the line has no space to break at.
   */
  lemma LineBound(name: string, value: string, i: nat)
    requires ' ' !in name
    requires i < |FoldedLines(name, value)|
    ensures var l := FoldedLines(name, value)[i];
            if i == 0 then |l| <= 78 || ' ' !in l else |l| <= 79 || ' ' !in l[1..]
  {
    if |name + ": " + value| > 78 {
      var words := Split(value, ' ');
      var ps := Pack(words, name + ":");
      LongLineBreaks(name, value);
      SplitPieces(value, ' ');
      PackBound(words, name + ":");
      assert ps[i] in ps;
      if i > 0 { assert FoldedLines(name, value)[i] == " " + ps[i]; }
    }
  }

  /** The second line begins with a word that the first could not have taken without passing column 78. */
  ghost predicate Overflows(first: string, second: string) {
    exists word :: ' ' !in word && word <= second && |first| + 1 + |word| > 78
  }

  lemma {:induction false} PackTight(words: seq<string>, current: string)
    requires forall w :: w in words ==> ' ' !in w
    ensures current <= Pack(words, current)[0]
    ensures var ps := Pack(words, current); forall i :: 0 <= i < |ps| - 1 ==> Overflows(ps[i], ps[i + 1])
    decreases |words|
  {
    if words != [] {
      if Breaks(current, words[0]) {
        var rest := Pack(words[1..], words[0]);
        PackTight(words[1..], words[0]);
        var r := [current] + rest;
        forall i | 0 <= i < |r| - 1 ensures Overflows(r[i], r[i + 1]) {
          if i == 0 {
            assert ' ' !in words[0] && words[0] <= r[1] && |r[0]| + 1 + |words[0]| > 78;
          } else {
            assert r[i] == rest[i - 1] && r[i + 1] == rest[i];
          }
        }
      } else {
        PackTight(words[1..], Extend(current, words[0]));
      }
    }
  }

  /** A header is folded only where it must be; the indent of a continuation does not count. */
  lemma FoldsOnlyWhenNeeded(name: string, value: string, i: nat)
    requires ' ' !in name && i + 1 < |FoldedLines(name, value)|
    ensures var ls := FoldedLines(name, value);
            && |name + ": " + value| > 78 && ls[i] != "" && ls[i + 1] != ""
            && Overflows(if i == 0 then ls[i] else ls[i][1..], ls[i + 1][1..])
  {
    var words, ls := Split(value, ' '), FoldedLines(name, value);
    var ps := Pack(words, name + ":");
    LongLineBreaks(name, value);
    SplitPieces(value, ' ');
    PackTight(words, name + ":");
    assert Overflows(ps[i], ps[i + 1]);
    assert ls[i + 1] == " " + ps[i + 1] && ls[i + 1][1..] == ps[i + 1];
    if i > 0 { assert ls[i] == " " + ps[i] && ls[i][1..] == ps[i]; }
  }

  lemma PackFromFirst(words: seq<string>)
    requires words != []
    ensures Pack(words, "") == Pack(words[1..], words[0])
  {
  }

  lemma FirstWordOfLine(name: string, value: string)
    requires ' ' !in name
    ensures Split(name + ": " + value, ' ') == [name + ":"] + Split(value, ' ')
  {
    SplitNone(name + ":", ' ');
    SplitAppend(name + ":", value, ' ');
    assert name + ": " + value == name + ":" + [' '] + value;
  }

  /** Packing that ends in one line has joined everything with single spaces. */
  lemma {:induction false} PackKeepsAll(words: seq<string>, current: string)
    requires current != "" && |Pack(words, current)| == 1
    ensures Pack(words, current)[0] == if words == [] then current else current + " " + Join(words, " ")
  {
    if words != [] {
      var next := Extend(current, words[0]);
      PackKeepsAll(words[1..], next);
      if |words| > 1 {
        assert next + " " + Join(words[1..], " ") == current + " " + (words[0] + " " + Join(words[1..], " "));
      }
    }
  }

  // ----- unfolding -------------------------------------------------------------------------

  /** What `parse_headers` makes of a value and its continuation lines. */
  function Accumulated(value: string, lines: seq<string>): string
    decreases |lines|
  {
    if lines == [] then value else Accumulated(value + " " + Trim(lines[0]), lines[1..])
  }

  /** The value gathered from the physical lines of `name: value`. */
  function Gathered(name: string, value: string): string
    requires ' ' !in name
  {
    var ls := FoldedLines(name, value);
    FirstLineHoldsName(name, value);
    Accumulated(Trim(ls[0][|name| + 1..]), ls[1..])
  }

  /** The value read back from those lines, before encoded words are decoded. */
  function Unfolded(name: string, value: string): string
    requires ' ' !in name
  {
    Trim(Gathered(name, value))
  }

  lemma FirstLineHoldsName(name: string, value: string)
    requires ' ' !in name
    ensures name + ":" <= FoldedLines(name, value)[0]
  {
    if |name + ": " + value| > 78 {
      LongLineBreaks(name, value);
      PackPrefix(Split(value, ' '), name + ":");
    }
  }

  lemma {:induction false} PackPrefix(words: seq<string>, current: string)
    requires current != ""
    ensures current <= Pack(words, current)[0]
    ensures Pack(words, current)[0] == current || (words != [] && current + " " + words[0] <= Pack(words, current)[0])
  {
    if words != [] && !Breaks(current, words[0]) {
      PackPrefix(words[1..], Extend(current, words[0]));
    }
  }

  // ----- values that survive ---------------------------------------------------------------

  predicate StartsTight(s: string) {
    s != "" && !AsciiSpace(s[0])
  }

  predicate EndsTight(s: string) {
    s != "" && !AsciiSpace(s[|s| - 1])
  }

  predicate Trimmed(s: string) {
    SpaceHead(s) == 0 && SpaceTail(s) == 0
  }

  /** No break falls next to further whitespace. */
  predicate CleanBreaks(words: seq<string>, current: string) {
    words == [] ||
    if Breaks(current, words[0])
    then EndsTight(current) && StartsTight(words[0]) && CleanBreaks(words[1..], words[0])
    else CleanBreaks(words[1..], Extend(current, words[0]))
  }

  /** The space at each fold stands between two non-blank characters of the value. */
  predicate FoldsCleanly(name: string, value: string) {
    value == "" || |name + ": " + value| <= 78 || CleanBreaks(Split(value, ' '), name + ":")
  }

  lemma AsciiEnds(s: string)
    requires IsAscii(s) && s != ""
    ensures SpaceHead(s) == (if AsciiSpace(s[0]) then 1 else 0)
    ensures SpaceTail(s) == (if AsciiSpace(s[|s| - 1]) then 1 else 0)
  {
  }

  lemma TrimIndent(s: string)
    ensures Trim(" " + s) == Trim(s)
  {
    assert (" " + s)[1..] == s;
  }

  /** What clean packing leaves: the line can be joined again, and every seam is tight. */
  ghost predicate CleanlyPacked(ps: seq<string>, whole: string) {
    && ps != []
    && Join(ps, " ") == whole
    && (forall i :: 0 <= i < |ps| - 1 ==> EndsTight(ps[i]))
    && (forall i :: 1 <= i < |ps| ==> StartsTight(ps[i]))
  }

  /** `current` and `words` written with single spaces. */
  function Spaced(current: string, words: seq<string>): string {
    if words == [] then current else current + " " + Join(words, " ")
  }

  lemma SpacedStep(current: string, words: seq<string>)
    requires words != []
    ensures Spaced(current, words) == current + " " + Spaced(words[0], words[1..])
    ensures current != "" ==> Spaced(current, words) == Spaced(Extend(current, words[0]), words[1..])
  {
    var w := words[0];
    assert Join(words, " ") == Spaced(w, words[1..]);
    if |words| > 1 {
      var tail := " " + Join(words[1..], " ");
      assert w + " " + Join(words[1..], " ") == w + tail;
      Assoc(current + " ", w, tail);
      assert current + " " + w + " " + Join(words[1..], " ") == current + " " + w + tail;
    }
  }

  lemma CleanCons(current: string, qs: seq<string>, whole: string)
    requires CleanlyPacked(qs, whole) && EndsTight(current) && StartsTight(qs[0])
    ensures CleanlyPacked([current] + qs, current + " " + whole)
  {
    var ps := [current] + qs;
    assert ps[1..] == qs;
    assert forall i :: 1 <= i < |ps| ==> ps[i] == qs[i - 1];
  }

  lemma {:induction false} CleanPack(words: seq<string>, current: string)
    requires current != "" && CleanBreaks(words, current)
    ensures CleanlyPacked(Pack(words, current), Spaced(current, words))
  {
    if words != [] {
      SpacedStep(current, words);
      if Breaks(current, words[0]) {
        CleanPack(words[1..], words[0]);
        PackPrefix(words[1..], words[0]);
        CleanCons(current, Pack(words[1..], words[0]), Spaced(words[0], words[1..]));
      } else {
        CleanPack(words[1..], Extend(current, words[0]));
      }
    }
  }

  lemma AccumulateStep(value: string, qs: seq<string>)
    requires qs != [] && Trimmed(qs[0])
    ensures Accumulated(value, Indented(qs)) == Accumulated(value + " " + qs[0], Indented(qs[1..]))
  {
    var lines := Indented(qs);
    assert Trim(lines[0]) == qs[0] by {
      TrimIndent(qs[0]);
      TrimFixed(qs[0]);
    }
    assert lines[1..] == Indented(qs[1..]);
  }

  /** Unfolding tight lines joins them with single spaces. */
  lemma {:induction false} AccumulateTight(value: string, qs: seq<string>)
    requires forall q :: q in qs ==> Trimmed(q)
    ensures Accumulated(value, Indented(qs)) == Spaced(value, qs)
    decreases |qs|
  {
    if qs != [] {
      AccumulateTight(value + " " + qs[0], qs[1..]);
      AccumulateStep(value, qs);
      SpacedShift(value, qs);
    }
  }

  lemma SpacedShift(value: string, qs: seq<string>)
    requires qs != []
    ensures Spaced(value + " " + qs[0], qs[1..]) == Spaced(value, qs)
  {
    SpacedStep(value, qs);
    if |qs| > 1 {
      Assoc(value + " ", qs[0], " " + Join(qs[1..], " "));
      Assoc(qs[0], " ", Join(qs[1..], " "));
      Assoc(value + " " + qs[0], " ", Join(qs[1..], " "));
    }
  }

  lemma {:induction false} JoinEnds(qs: seq<string>)
    requires qs != [] && qs[|qs| - 1] != ""
    ensures Join(qs, " ") != "" && Join(qs, " ")[|Join(qs, " ")| - 1] == qs[|qs| - 1][|qs[|qs| - 1]| - 1]
    ensures forall q, i :: q in qs && 0 <= i < |q| ==> q[i] in Join(qs, " ")
  {
    if |qs| > 1 {
      JoinEnds(qs[1..]);
      var j := Join(qs, " ");
      assert j == qs[0] + " " + Join(qs[1..], " ");
      forall q, i | q in qs && 0 <= i < |q| ensures q[i] in j {
        if q == qs[0] { assert j[i] == q[i]; } else { assert q in qs[1..]; }
      }
    }
  }

  /** The continuation lines of a cleanly folded trimmed value are trimmed. */
  lemma ContinuationsTrimmed(ps: seq<string>, whole: string, value: string)
    requires |ps| >= 2 && CleanlyPacked(ps, whole)
    requires value != "" && IsAscii(whole) && Trimmed(value)
    requires |value| <= |whole| && whole[|whole| - |value|..] == value
    ensures forall q :: q in ps[1..] ==> Trimmed(q)
  {
    JoinEnds(ps);
    assert !AsciiSpace(value[|value| - 1]);
    assert whole[|whole| - 1] == value[|value| - 1];
    forall i | 1 <= i < |ps| ensures Trimmed(ps[i]) {
      forall k | 0 <= k < |ps[i]| ensures ps[i][k] as int < 128 {
        assert ps[i] in ps;
        assert ps[i][k] in whole;
      }
      AsciiEnds(ps[i]);
    }
  }

  lemma UnfoldEmpty(name: string)
    requires ' ' !in name && |name + ": "| > 78
    ensures Unfolded(name, "") == ""
  {
    assert name + ": " + "" == name + ": ";
    LongLineBreaks(name, "");
    assert Split("", ' ') == [""];
    var ps := Pack([""], name + ":");
    assert [""][1..] == [];
    assert ps == [name + ":"] + Pack([], "");
    var ls := FoldedLines(name, "");
    assert ps[1..] == [""];
    assert " " + "" == " ";
    assert ls[1..] == Indented([""]) && Indented([""])[0] == " ";
    assert ls[0][|name| + 1..] == "";
    TrimIndent("");
    assert Trim("") == "";
    assert Accumulated("", [" "]) == Accumulated("" + " " + Trim(" "), [" "][1..]);
  }

  /** The value read back from packed lines whose first starts with `n` characters of name and colon. */
  function ReadBack(ps: seq<string>, n: nat): string
    requires ps != [] && n <= |ps[0]|
  {
    Trim(Accumulated(Trim(ps[0][n..]), Indented(ps[1..])))
  }

  lemma UnfoldParts(name: string, value: string, ps: seq<string>)
    requires ' ' !in name && |ps| >= 1 && FoldedLines(name, value) == Physical(ps) && name + ":" <= ps[0]
    ensures Unfolded(name, value) == ReadBack(ps, |name| + 1)
  {
    assert Physical(ps)[1..] == Indented(ps[1..]);
  }

  lemma ReadBackClean(head: string, value: string, ps: seq<string>)
    requires IsAscii(head) && IsAscii(value) && value != "" && Trimmed(value)
    requires |ps| >= 2 && head <= ps[0] && EndsTight(head) && CleanlyPacked(ps, head + " " + value)
    ensures ReadBack(ps, |head|) == value
  {
    var a, rest, whole := ps[0][|head|..], Join(ps[1..], " "), head + " " + value;
    assert whole[|whole| - |value|..] == value;
    ContinuationsTrimmed(ps, whole, value);
    AccumulateTight(Trim(a), ps[1..]);
    HeadAndRest(head, ps[0], rest, value);
    assert EndsTight(ps[0]);
    assert a == "" || a[|a| - 1] == ps[0][|ps[0]| - 1];
    TrimSpaced(a, rest, value);
  }

  /** A line past column 78 is read back from its packed lines. */
  lemma LongLineReads(name: string, value: string)
    requires ' ' !in name && |name + ": " + value| > 78
    ensures var ps := Pack(Split(value, ' '), name + ":");
            |ps| >= 2 && name + ":" <= ps[0] && Unfolded(name, value) == ReadBack(ps, |name + ":"|)
  {
    var ps := Pack(Split(value, ' '), name + ":");
    LongLineBreaks(name, value);
    PackPrefix(Split(value, ' '), name + ":");
    UnfoldParts(name, value, ps);
  }

  lemma ReadBackOfClean(head: string, value: string)
    requires EndsTight(head) && IsAscii(head) && IsAscii(value) && value != "" && Trimmed(value)
    requires CleanBreaks(Split(value, ' '), head) && |Pack(Split(value, ' '), head)| >= 2
    requires head <= Pack(Split(value, ' '), head)[0]
    ensures ReadBack(Pack(Split(value, ' '), head), |head|) == value
  {
    SplitPieces(value, ' ');
    CleanPack(Split(value, ' '), head);
    ReadBackClean(head, value, Pack(Split(value, ' '), head));
  }

  /** The first packed line cut after the name: what is left and the rest of the lines make up the value. */
  lemma HeadAndRest(head: string, first: string, rest: string, value: string)
    requires head <= first && first + " " + rest == head + " " + value
    ensures first[|head|..] + " " + rest == " " + value
  {
    var all := head + " " + value;
    assert (first + " " + rest)[|head|..] == first[|head|..] + " " + rest;
    assert all[|head|..] == " " + value;
  }

  lemma TrimSpaced(a: string, rest: string, value: string)
    requires a + " " + rest == " " + value && value != "" && IsAscii(value) && Trimmed(value)
    requires a == "" || EndsTight(a)
    ensures Trim(Trim(a) + " " + rest) == value
  {
    TrimFixed(value);
    if a == "" {
      TrimIndent(value);
      assert Trim("") == "";
    } else {
      var x := a[1..];
      CutLeadingSpace(a, rest, value);
      AsciiEnds(x);
      AsciiEnds(value);
      assert Trim(a) == x by {
        TrimFixed(x);
        TrimIndent(x);
      }
    }
  }

  lemma CutLeadingSpace(a: string, rest: string, value: string)
    requires a + " " + rest == " " + value && EndsTight(a) && IsAscii(value) && value != ""
    ensures a[0] == ' ' && a == " " + a[1..] && a[1..] != ""
    ensures value == a[1..] + " " + rest
    ensures a[1..][0] == value[0] && EndsTight(a[1..]) && IsAscii(a[1..])
  {
    var t := a + " " + rest;
    assert t[0] == a[0] && t[1..] == a[1..] + " " + rest;
    assert (" " + value)[0] == ' ' && (" " + value)[1..] == value;
    assert |a| > 1;
    assert forall i :: 0 <= i < |a[1..]| ==> a[1..][i] == value[i];
  }

  // ----- and only those --------------------------------------------------------------------

  /** Characters held by lines, counting one separator for each. */
  function Sum(ls: seq<string>): nat {
    if ls == [] then 0 else 1 + |ls[0]| + Sum(ls[1..])
  }

  lemma {:induction false} SumSplit(v: string, d: char)
    ensures Sum(Split(v, d)) == |v| + 1
  {
    if v != "" {
      SumSplit(v[1..], d);
      var rest := Split(v[1..], d);
      if v[0] == d {
        assert Split(v, d)[1..] == rest;
      } else {
        assert Split(v, d)[1..] == rest[1..];
      }
    }
  }

  /** Packing never adds a character, and loses the space after an empty word that starts a line. */
  lemma {:induction false} PackSum(words: seq<string>, current: string)
    ensures Sum(Pack(words, current)) <= 1 + |current| + Sum(words)
    ensures current == "" && words != [] ==> Sum(Pack(words, current)) <= Sum(words)
  {
    if words == [] {
      assert [current][1..] == [];
    } else if Breaks(current, words[0]) {
      PackSum(words[1..], words[0]);
      var qs := Pack(words[1..], words[0]);
      assert ([current] + qs)[1..] == qs;
    } else {
      PackSum(words[1..], Extend(current, words[0]));
    }
  }

  /** Line `i` starts (unless it is the first) or ends with whitespace. */
  predicate Loose(ps: seq<string>, i: nat)
    requires i < |ps|
  {
    SpaceTail(ps[i]) != 0 || (i > 0 && SpaceHead(ps[i]) != 0)
  }

  /** Packing lost a character or left a loose line. */
  ghost predicate Lossy(ps: seq<string>, total: nat) {
    Sum(ps) < total || exists i: nat :: i < |ps| && Loose(ps, i)
  }

  lemma LossyCons(current: string, qs: seq<string>, total: nat)
    requires qs != [] && (Lossy(qs, total) || SpaceTail(current) != 0 || SpaceHead(qs[0]) != 0)
    requires Sum(qs) <= total
    ensures Lossy([current] + qs, 1 + |current| + total)
  {
    var ps := [current] + qs;
    assert ps[1..] == qs;
    if SpaceTail(current) != 0 {
      assert Loose(ps, 0);
    } else if SpaceHead(qs[0]) != 0 {
      assert Loose(ps, 1);
    } else if Sum(qs) >= total {
      var i: nat :| i < |qs| && Loose(qs, i);
      assert Loose(ps, i + 1);
    }
  }

  lemma {:induction false} DirtyPack(words: seq<string>, current: string)
    requires current != "" && !CleanBreaks(words, current)
    requires words != [] ==> words[|words| - 1] != ""
    ensures Lossy(Pack(words, current), 1 + |current| + Sum(words))
  {
    var w, ws := words[0], words[1..];
    if Breaks(current, w) {
      var qs := Pack(ws, w);
      PackSum(ws, w);
      if w != "" {
        PackPrefix(ws, w);
        if EndsTight(current) && StartsTight(w) { DirtyPack(ws, w); }
        assert qs[0][0] == w[0];
      }
      LossyCons(current, qs, 1 + |w| + Sum(ws));
    } else {
      DirtyPack(ws, Extend(current, w));
    }
  }

  lemma {:induction false} AccumulatedLength(value: string, qs: seq<string>)
    ensures |Accumulated(value, Indented(qs))| <= |value| + Sum(qs)
    ensures (exists q :: q in qs && !Trimmed(q)) ==> |Accumulated(value, Indented(qs))| < |value| + Sum(qs)
    decreases |qs|
  {
    if qs != [] {
      var lines := Indented(qs);
      var next := value + " " + Trim(lines[0]);
      TrimIndent(qs[0]);
      TrimFixed(qs[0]);
      assert lines[1..] == Indented(qs[1..]);
      AccumulatedLength(next, qs[1..]);
      if q :| q in qs && !Trimmed(q) && q != qs[0] { assert q in qs[1..]; }
    }
  }

  /** Reading back loses nothing but the breaks, and more than that where a line is loose. */
  lemma ReadBackLength(ps: seq<string>, head: string)
    requires |ps| >= 2 && head <= ps[0] && EndsTight(head) && IsAscii(head)
    requires |ps[0]| > |head| ==> ps[0][|head|] == ' '
    ensures |ReadBack(ps, |head|)| <= Sum(ps) - |head| - 2
    ensures (exists i: nat :: 0 < i < |ps| && Loose(ps, i)) ==> |ReadBack(ps, |head|)| < Sum(ps) - |head| - 2
    ensures |ps[0]| > |head| + 1 && SpaceTail(ps[0]) != 0 && IsAscii(ps[0]) ==>
              |ReadBack(ps, |head|)| < Sum(ps) - |head| - 2
  {
    var a := ps[0][|head|..];
    AccumulatedLength(Trim(a), ps[1..]);
    TrimTrims(Accumulated(Trim(a), Indented(ps[1..])));
    if i: nat :| 0 < i < |ps| && Loose(ps, i) {
      assert ps[i] in ps[1..] && !Trimmed(ps[i]);
    }
    if a == "" {
      assert Trim("") == "";
      AccumulatedHead(ps[1..]);
    } else {
      FirstLineLength(a);
      if |a| > 1 && SpaceTail(ps[0]) != 0 && IsAscii(ps[0]) {
        AsciiEnds(ps[0]);
        assert a[|a| - 1] == ps[0][|ps[0]| - 1];
      }
    }
  }

  lemma FirstLineLength(a: string)
    requires a != "" && a[0] == ' '
    ensures |Trim(a)| <= |a| - 1
    ensures |a| > 1 && AsciiSpace(a[|a| - 1]) ==> |Trim(a)| < |a| - 1
  {
    assert a == " " + a[1..];
    TrimIndent(a[1..]);
    TrimFixed(a[1..]);
  }

  /** Continuation lines alone leave a leading space, which the final trim takes away. */
  lemma AccumulatedHead(qs: seq<string>)
    requires qs != []
    ensures |Trim(Accumulated("", Indented(qs)))| <= |Accumulated("", Indented(qs))| - 1
  {
    var r := Accumulated("", Indented(qs));
    assert Indented(qs)[1..] == Indented(qs[1..]);
    AccumulatedStart("" + " " + Trim(Indented(qs)[0]), Indented(qs[1..]));
    FirstLineLength(r);
  }

  lemma {:induction false} AccumulatedStart(value: string, lines: seq<string>)
    requires value != ""
    ensures Accumulated(value, lines) != "" && Accumulated(value, lines)[0] == value[0]
    decreases |lines|
  {
    if lines != [] {
      var next := value + " " + Trim(lines[0]);
      assert next[0] == value[0];
      AccumulatedStart(next, lines[1..]);
    }
  }

  lemma {:induction false} PackAscii(words: seq<string>, current: string)
    requires IsAscii(current) && forall w :: w in words ==> IsAscii(w)
    ensures forall p :: p in Pack(words, current) ==> IsAscii(p)
  {
    if words != [] {
      assert IsAscii(words[0]) && IsAscii(Extend(current, words[0]));
      if Breaks(current, words[0]) {
        PackAscii(words[1..], words[0]);
      } else {
        PackAscii(words[1..], Extend(current, words[0]));
      }
    }
  }

  lemma {:induction false} SplitAscii(v: string)
    requires IsAscii(v)
    ensures forall w :: w in Split(v, ' ') ==> IsAscii(w)
  {
    if v != "" {
      SplitAscii(v[1..]);
      var rest := Split(v[1..], ' ');
      assert IsAscii(rest[0]) && IsAscii([v[0]] + rest[0]);
      assert forall w :: w in rest[1..] ==> w in rest;
    }
  }

  lemma LastWord(v: string)
    requires v != "" && IsAscii(v) && Trimmed(v)
    ensures Split(v, ' ')[0] != ""
    ensures var words := Split(v, ' '); words[|words| - 1] != ""
  {
    var words := Split(v, ' ');
    SplitPieces(v, ' ');
    AsciiEnds(v);
    if words[|words| - 1] == "" { EmptyLastWord(words); }
  }

  lemma {:induction false} EmptyLastWord(words: seq<string>)
    requires words != [] && words[|words| - 1] == ""
    ensures Join(words, " ") == "" || Join(words, " ")[|Join(words, " ")| - 1] == ' '
  {
    if |words| > 1 { EmptyLastWord(words[1..]); }
  }

  /** Reading back gives at most the value's length, and less when a break was not clean. */
  lemma ReadBackOfDirty(head: string, value: string)
    requires EndsTight(head) && IsAscii(head) && IsAscii(value)
    requires |Pack(Split(value, ' '), head)| >= 2 && head <= Pack(Split(value, ' '), head)[0]
    ensures |ReadBack(Pack(Split(value, ' '), head), |head|)| <= |value|
    ensures value != "" && Trimmed(value) && !CleanBreaks(Split(value, ' '), head) ==>
              |ReadBack(Pack(Split(value, ' '), head), |head|)| < |value|
  {
    var words := Split(value, ' ');
    var ps := Pack(words, head);
    PackPrefix(words, head);
    SumSplit(value, ' ');
    PackSum(words, head);
    ReadBackLength(ps, head);
    if value != "" && Trimmed(value) && !CleanBreaks(words, head) {
      LastWord(value);
      DirtyPack(words, head);
      SplitAscii(value);
      PackAscii(words, head);
      assert ps[0] in ps;
      AsciiEnds(head);
      DirtyLength(ps, head, words[0], 1 + |head| + Sum(words), |ReadBack(ps, |head|)|);
    }
  }

  lemma DirtyLength(ps: seq<string>, head: string, w: string, total: nat, n: nat)
    requires |ps| >= 2 && w != "" && SpaceTail(head) == 0
    requires ps[0] == head || head + " " + w <= ps[0]
    requires Lossy(ps, total) && Sum(ps) <= total
    requires n <= Sum(ps) - |head| - 2
    requires (exists i: nat :: 0 < i < |ps| && Loose(ps, i)) ==> n < Sum(ps) - |head| - 2
    requires |ps[0]| > |head| + 1 && SpaceTail(ps[0]) != 0 ==> n < Sum(ps) - |head| - 2
    ensures n < total - |head| - 2
  {
  }

  lemma ReadBackExact(head: string, value: string)
    requires EndsTight(head) && IsAscii(head) && IsAscii(value) && value != ""
    requires |Pack(Split(value, ' '), head)| >= 2 && head <= Pack(Split(value, ' '), head)[0]
    ensures var r := ReadBack(Pack(Split(value, ' '), head), |head|);
            && |r| <= |value|
            && (r == value <==> Trimmed(value) && CleanBreaks(Split(value, ' '), head))
  {
    var ps := Pack(Split(value, ' '), head);
    ReadBackOfDirty(head, value);
    TrimTrims(Accumulated(Trim(ps[0][|head|..]), Indented(ps[1..])));
    if Trimmed(value) && CleanBreaks(Split(value, ' '), head) { ReadBackOfClean(head, value); }
  }

  lemma UnfoldShort(name: string, value: string)
    requires ' ' !in name && |name + ": " + value| <= 78
    ensures Unfolded(name, value) == Trim(value)
  {
    var line := name + ": " + value;
    assert line[|name| + 1..] == " " + value;
    TrimIndent(value);
    TrimTrims(value);
    TrimFixed(Trim(value));
  }

  /** Folding and unfolding give back an ASCII value exactly when it is trimmed and folds cleanly. */
  lemma UnfoldExact(name: string, value: string)
    requires ' ' !in name && IsAscii(name) && IsAscii(value)
    ensures Unfolded(name, value) == value <==> Trimmed(value) && FoldsCleanly(name, value)
    ensures |Unfolded(name, value)| <= |value|
  {
    if |name + ": " + value| <= 78 {
      UnfoldShort(name, value);
      TrimFixed(value);
    } else if value == "" {
      UnfoldEmpty(name);
    } else {
      UnfoldExactLong(name, value, name + ":");
    }
  }

  lemma UnfoldExactLong(name: string, value: string, head: string)
    requires ' ' !in name && IsAscii(name) && IsAscii(value) && value != ""
    requires |name + ": " + value| > 78 && head == name + ":"
    ensures Unfolded(name, value) == value <==> Trimmed(value) && CleanBreaks(Split(value, ' '), head)
    ensures |Unfolded(name, value)| <= |value|
  {
    assert EndsTight(head) && IsAscii(head) by { assert head[|head| - 1] == ':'; }
    LongLineReads(name, value);
    ReadBackExact(head, value);
  }

  /** A non-empty word without whitespace. */
  predicate Bare(w: string) {
    w != "" && forall i :: 0 <= i < |w| ==> !AsciiSpace(w[i])
  }

  predicate AllBare(words: seq<string>) {
    forall i :: 0 <= i < |words| ==> Bare(words[i])
  }

  /** Words separated by single spaces always survive folding. */
  lemma SingleSpaced(name: string, value: string)
    requires IsAscii(value) && AllBare(Split(value, ' '))
    ensures Trimmed(value) && FoldsCleanly(name, value)
  {
    var words := Split(value, ' ');
    SplitPieces(value, ' ');
    assert Bare(words[0]) && Bare(words[|words| - 1]);
    BareWords(words, name + ":");
    JoinStart(words);
    JoinEnds(words);
    AsciiEnds(value);
  }

  lemma {:induction false} BareWords(words: seq<string>, current: string)
    requires EndsTight(current) && AllBare(words)
    ensures CleanBreaks(words, current)
  {
    if words != [] {
      assert Bare(words[0]);
      if Breaks(current, words[0]) {
        BareWords(words[1..], words[0]);
      } else {
        BareWords(words[1..], Extend(current, words[0]));
      }
    }
  }

  lemma JoinStart(words: seq<string>)
    requires words != [] && words[0] != ""
    ensures Join(words, " ") != "" && Join(words, " ")[0] == words[0][0]
  {
  }

  // ----- the characters of folded lines ----------------------------------------------------

  lemma {:induction false} PackChars(words: seq<string>, current: string, bad: char)
    requires bad != ' ' && bad !in current && forall w :: w in words ==> bad !in w
    ensures forall p :: p in Pack(words, current) ==> bad !in p
  {
    if words != [] {
      if Breaks(current, words[0]) {
        PackChars(words[1..], words[0], bad);
      } else {
        PackChars(words[1..], Extend(current, words[0]), bad);
      }
    }
  }

  lemma {:induction false} SplitChars(s: string, d: char, bad: char)
    requires bad !in s
    ensures forall w :: w in Split(s, d) ==> bad !in w
  {
    if s != "" {
      SplitChars(s[1..], d, bad);
      var rest := Split(s[1..], d);
      assert bad !in rest[0];
      assert forall w :: w in rest[1..] ==> w in rest;
    }
  }

  lemma {:induction false} IndentedChars(ps: seq<string>, bad: char)
    requires bad != ' ' && forall p :: p in ps ==> bad !in p
    ensures forall l :: l in Indented(ps) ==> bad !in l
  {
    if ps != [] {
      assert bad !in ps[0];
      IndentedChars(ps[1..], bad);
    }
  }

  /** Folding brings in no character but spaces. */
  lemma FoldedChars(name: string, value: string, bad: char)
    requires bad != ' ' && bad != ':' && bad !in name && bad !in value
    ensures forall l :: l in FoldedLines(name, value) ==> bad !in l
  {
    var line := name + ": " + value;
    SplitChars(line, ' ', bad);
    PackChars(Split(line, ' '), "", bad);
    var ps := Pack(Split(line, ' '), "");
    assert bad !in ps[0];
    IndentedChars(ps[1..], bad);
  }
}
