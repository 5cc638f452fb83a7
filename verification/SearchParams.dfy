/** Search parameters backed by their own list or by the query of a URL. */
module SearchParams {
  import opened Wrappers
  import opened Text
  import opened FormUrlencoded
  import QP = QuotedPrintable

  // ----- operations on a list --------------------------------------------------------------

  datatype Op =
    | Append(name: Utf8, value: Utf8)
    | Delete(name: Utf8, only: Option<Utf8>)
    | Set(name: Utf8, value: Utf8)
    | Sort

  predicate Kept(p: Pair, name: string, only: Option<Utf8>) {
    p.name != name || (only.Some? && p.value != only.value)
  }

  function Deleted(pairs: seq<Pair>, name: string, only: Option<Utf8>): seq<Pair> {
    if pairs == [] then []
    else if Kept(pairs[0], name, only) then [pairs[0]] + Deleted(pairs[1..], name, only)
    else Deleted(pairs[1..], name, only)
  }

  /** The pairs after the first match has been replaced: later matches go. */
  function Replaced(pairs: seq<Pair>, name: Utf8, value: Utf8): seq<Pair> {
    if pairs == [] then [Pair(name, value)]
    else if pairs[0].name == name then [Pair(name, value)] + Deleted(pairs[1..], name, None)
    else [pairs[0]] + Replaced(pairs[1..], name, value)
  }

  /** Byte order of strings, as `str::cmp` */
  predicate AtMost(a: string, b: string) {
    a == "" || (b != "" && (a[0] < b[0] || (a[0] == b[0] && AtMost(a[1..], b[1..]))))
  }

  function Inserted(p: Pair, sorted: seq<Pair>): seq<Pair> {
    if sorted == [] || AtMost(p.name, sorted[0].name) then [p] + sorted else [sorted[0]] + Inserted(p, sorted[1..])
  }

  /** A stable sort by name. */
  function Ordered(pairs: seq<Pair>): seq<Pair> {
    if pairs == [] then [] else Inserted(pairs[0], Ordered(pairs[1..]))
  }

  function Apply(pairs: seq<Pair>, op: Op): seq<Pair> {
    match op
    case Append(name, value) => pairs + [Pair(name, value)]
    case Delete(name, only) => Deleted(pairs, name, only)
    case Set(name, value) => Replaced(pairs, name, value)
    case Sort => Ordered(pairs)
  }

  // ----- the query of a URL ----------------------------------------------------------------

  /** The special-query percent-encode set (section 1.3 of the WHATWG URL Standard). */
  predicate QueryEscaped(c: char) {
    c <= ' ' || c >= '\U{7F}' || c in "\"#<>'"
  }

  /** Writing a query: tabs and line breaks go, and characters of the set are escaped. */
  function WrittenQuery(s: string): string {
    if s == "" then ""
    else if s[0] in "\t\r\n" then WrittenQuery(s[1..])
    else (if QueryEscaped(s[0]) then "%" + QP.HexPair(s[0]) else [s[0]]) + WrittenQuery(s[1..])
  }

  /** `read_query_pairs` */
  function ReadQuery(query: Option<string>): seq<Pair> {
    if query.None? then [] else Parse(query.value)
  }

  /** `write_query_pairs` */
  function WriteQuery(pairs: seq<Pair>): Option<string> {
    if pairs == [] then None else Some(WrittenQuery(Serialize(pairs)))
  }

  /** The characters of a serialized list. */
  predicate ListChar(c: char) {
    Safe(c) || c == '=' || c == '&'
  }

  predicate AllListChars(s: string) {
    forall i :: 0 <= i < |s| ==> ListChar(s[i])
  }

  lemma ListCharStays(c: char)
    requires ListChar(c)
    ensures !QueryEscaped(c) && c !in "\t\r\n"
  {
  }

  lemma {:induction false} ListQuery(s: string)
    requires AllListChars(s)
    ensures WrittenQuery(s) == s
  {
    if s != "" {
      ListQuery(s[1..]);
      assert ListChar(s[0]);
      ListCharStays(s[0]);
      assert [s[0]] + s[1..] == s;
    }
  }

  lemma ListCharsAppend(a: string, b: string)
    requires AllListChars(a) && AllListChars(b)
    ensures AllListChars(a + b)
  {
  }

  lemma FieldChars(p: Pair)
    ensures AllListChars(Field(p))
  {
    EncodeSafe(p.name);
    EncodeSafe(p.value);
    ListCharsAppend(Encode(p.name), "=");
    ListCharsAppend(Encode(p.name) + "=", Encode(p.value));
  }

  lemma {:induction false} JoinedChars(fields: seq<string>)
    requires forall i :: 0 <= i < |fields| ==> AllListChars(fields[i])
    ensures AllListChars(Join(fields, "&"))
  {
    if fields != [] {
      JoinedChars(fields[1..]);
      ListCharsAppend(fields[0], "&");
      ListCharsAppend(fields[0] + "&", Join(fields[1..], "&"));
    }
  }

  /** What is written is what was serialized, and reading it gives the pairs back. */
  lemma ReadWrite(pairs: seq<Pair>)
    ensures ReadQuery(WriteQuery(pairs)) == pairs
    ensures pairs != [] ==> WriteQuery(pairs) == Some(Serialize(pairs))
  {
    if pairs != [] {
      forall i | 0 <= i < |pairs| ensures AllListChars(Fields(pairs)[i]) {
        FieldChars(pairs[i]);
      }
      JoinedChars(Fields(pairs));
      ListQuery(Serialize(pairs));
      ParseSerialize(pairs);
    }
  }

  // ----- refinement ------------------------------------------------------------------------

  function ApplyAll(pairs: seq<Pair>, ops: seq<Op>): seq<Pair>
    decreases |ops|
  {
    if ops == [] then pairs else ApplyAll(Apply(pairs, ops[0]), ops[1..])
  }

  /** The query after each operation has read, changed and written it back. */
  function QueryAfter(query: Option<string>, ops: seq<Op>): Option<string>
    decreases |ops|
  {
    if ops == [] then query else QueryAfter(WriteQuery(Apply(ReadQuery(query), ops[0])), ops[1..])
  }

  /**
   After any operations a URL-backed object shows what a plain list would that began with the same
   pairs, although it parses and rewrites the query each time.
   */
  lemma {:induction false} UrlRefinesList(query: Option<string>, ops: seq<Op>)
    ensures ReadQuery(QueryAfter(query, ops)) == ApplyAll(ReadQuery(query), ops)
    decreases |ops|
  {
    if ops != [] {
      var pairs := Apply(ReadQuery(query), ops[0]);
      ReadWrite(pairs);
      UrlRefinesList(WriteQuery(pairs), ops[1..]);
    }
  }

  // ----- what the operations do ------------------------------------------------------------

  function Named(pairs: seq<Pair>, name: string): seq<Pair> {
    if pairs == [] then []
    else if pairs[0].name == name then [pairs[0]] + Named(pairs[1..], name)
    else Named(pairs[1..], name)
  }

  function Others(pairs: seq<Pair>, name: string): seq<Pair> {
    if pairs == [] then []
    else if pairs[0].name == name then Others(pairs[1..], name)
    else [pairs[0]] + Others(pairs[1..], name)
  }

  lemma {:induction false} DeletedNamed(pairs: seq<Pair>, name: string)
    ensures Deleted(pairs, name, None) == Others(pairs, name)
    ensures Named(Deleted(pairs, name, None), name) == []
    ensures Others(Deleted(pairs, name, None), name) == Others(pairs, name)
  {
    if pairs != [] { DeletedNamed(pairs[1..], name); }
  }

  /** What is left of a list once some of its pairs are taken out. */
  predicate Subsequence(a: seq<Pair>, b: seq<Pair>) {
    a == [] || (b != [] && (if a[0] == b[0] then Subsequence(a[1..], b[1..]) else Subsequence(a, b[1..])))
  }

  lemma CountFirst(pairs: seq<Pair>, q: Pair)
    requires pairs != []
    ensures multiset(pairs)[q] == (if pairs[0] == q then 1 else 0) + multiset(pairs[1..])[q]
  {
    assert pairs == [pairs[0]] + pairs[1..];
  }

  /**
   Deleting takes out every pair of the name, or of the name with the value given, and nothing else;
   what is left stays in order.
   */
  lemma {:induction false} DeleteTouchesOnly(pairs: seq<Pair>, name: string, only: Option<Utf8>, q: Pair, other: string)
    ensures multiset(Deleted(pairs, name, only))[q] ==
            if q.name == name && (only.None? || only.value == q.value) then 0 else multiset(pairs)[q]
    ensures Subsequence(Deleted(pairs, name, only), pairs)
    ensures other != name ==> Named(Deleted(pairs, name, only), other) == Named(pairs, other)
  {
    var r := Deleted(pairs, name, only);
    if pairs != [] {
      DeleteTouchesOnly(pairs[1..], name, only, q, other);
      CountFirst(pairs, q);
      if Kept(pairs[0], name, only) {
        CountFirst(r, q);
        assert r[1..] == Deleted(pairs[1..], name, only);
      } else {
        SkippedFirst(r, pairs);
      }
    }
  }

  lemma {:induction false} SubsequenceLater(a: seq<Pair>, b: seq<Pair>)
    requires a != [] && Subsequence(a, b)
    ensures Subsequence(a[1..], b)
    decreases |b|
  {
    if a[0] == b[0] {
      if |a| > 1 && a[1] == b[0] { SubsequenceLater(a[1..], b[1..]); }
    } else {
      SubsequenceLater(a, b[1..]);
      if |a| > 1 && a[1] == b[0] { SubsequenceLater(a[1..], b[1..]); }
    }
  }

  lemma SkippedFirst(a: seq<Pair>, b: seq<Pair>)
    requires b != [] && Subsequence(a, b[1..])
    ensures Subsequence(a, b)
  {
    if a != [] && a[0] == b[0] { SubsequenceLater(a, b[1..]); }
  }

  /** An appended pair stands last, behind all others unchanged, and so it does in a URL. */
  lemma AppendStandsLast(query: Option<string>, name: Utf8, value: Utf8)
    ensures var r := ReadQuery(QueryAfter(query, [Append(name, value)]));
            |r| == |ReadQuery(query)| + 1 && r[|r| - 1] == Pair(name, value) && r[..|r| - 1] == ReadQuery(query)
  {
    UrlRefinesList(query, [Append(name, value)]);
    assert ApplyAll(Apply(ReadQuery(query), Append(name, value)), []) == Apply(ReadQuery(query), Append(name, value));
  }

  /** Setting puts the pair where the first of its name stood, or last, and keeps everything before it. */
  lemma {:induction false} SetStandsFirst(pairs: seq<Pair>, name: Utf8, value: Utf8, i: nat)
    requires i <= |pairs| && (forall k :: 0 <= k < i ==> pairs[k].name != name)
    requires i < |pairs| ==> pairs[i].name == name
    ensures var r := Replaced(pairs, name, value);
            |r| > i && r[..i] == pairs[..i] && r[i] == Pair(name, value)
            && r[i + 1..] == if i < |pairs| then Others(pairs[i + 1..], name) else []
    decreases |pairs|
  {
    var r := Replaced(pairs, name, value);
    if i == 0 {
      if pairs != [] {
        DeletedNamed(pairs[1..], name);
        assert r[1..] == Deleted(pairs[1..], name, None);
      }
    } else {
      SetStandsFirst(pairs[1..], name, value, i - 1);
      assert r[1..] == Replaced(pairs[1..], name, value);
      assert r[..i] == [r[0]] + r[1..][..i - 1] && pairs[..i] == [pairs[0]] + pairs[1..][..i - 1];
      assert r[i + 1..] == r[1..][i..];
      assert i < |pairs| ==> pairs[i + 1..] == pairs[1..][i..];
    }
  }

  /** Setting a name leaves one pair of that name, with the value, and the other pairs as they were. */
  lemma {:induction false} SetLeavesOne(pairs: seq<Pair>, name: Utf8, value: Utf8)
    ensures Named(Replaced(pairs, name, value), name) == [Pair(name, value)]
    ensures Others(Replaced(pairs, name, value), name) == Others(pairs, name)
  {
    var r := Replaced(pairs, name, value);
    if pairs == [] {
    } else if pairs[0].name == name {
      DeletedNamed(pairs[1..], name);
      assert r[1..] == Deleted(pairs[1..], name, None);
    } else {
      SetLeavesOne(pairs[1..], name, value);
      assert r[1..] == Replaced(pairs[1..], name, value);
    }
  }

  // ----- sorting ---------------------------------------------------------------------------

  predicate InOrder(pairs: seq<Pair>) {
    forall i, j :: 0 <= i < j < |pairs| ==> AtMost(pairs[i].name, pairs[j].name)
  }

  lemma {:induction false} AtMostTotal(a: string, b: string)
    ensures AtMost(a, b) || AtMost(b, a)
    ensures AtMost(a, b) && AtMost(b, a) ==> a == b
  {
    if a != "" && b != "" && a[0] == b[0] {
      AtMostTotal(a[1..], b[1..]);
      assert a == [a[0]] + a[1..] && b == [b[0]] + b[1..];
    }
  }

  lemma {:induction false} AtMostOn(a: string, b: string, c: string)
    requires AtMost(a, b) && AtMost(b, c)
    ensures AtMost(a, c)
  {
    if a != "" && a[0] == b[0] && b[0] == c[0] { AtMostOn(a[1..], b[1..], c[1..]); }
  }

  lemma {:induction false} AtMostSelf(a: string)
    ensures AtMost(a, a)
  {
    if a != "" { AtMostSelf(a[1..]); }
  }

  /** The first pair stands before all others, and the rest is in order. */
  predicate Chain(pairs: seq<Pair>) {
    |pairs| <= 1 || (AtMost(pairs[0].name, pairs[1].name) && Chain(pairs[1..]))
  }

  lemma {:induction false} ChainBelow(pairs: seq<Pair>, i: nat)
    requires Chain(pairs) && i < |pairs|
    ensures AtMost(pairs[0].name, pairs[i].name)
  {
    if i == 0 {
      AtMostSelf(pairs[0].name);
    } else {
      ChainBelow(pairs[1..], i - 1);
      assert pairs[1..][0] == pairs[1] && pairs[1..][i - 1] == pairs[i];
      AtMostOn(pairs[0].name, pairs[1].name, pairs[i].name);
    }
  }

  lemma {:induction false} ChainInOrder(pairs: seq<Pair>)
    requires Chain(pairs)
    ensures InOrder(pairs)
  {
    if |pairs| > 1 {
      ChainInOrder(pairs[1..]);
      forall i, j | 0 <= i < j < |pairs| ensures AtMost(pairs[i].name, pairs[j].name) {
        if i == 0 {
          ChainBelow(pairs, j);
        } else {
          assert pairs[i] == pairs[1..][i - 1] && pairs[j] == pairs[1..][j - 1];
        }
      }
    }
  }

  lemma {:induction false} InOrderChain(pairs: seq<Pair>)
    requires InOrder(pairs)
    ensures Chain(pairs) && (pairs != [] ==> InOrder(pairs[1..]))
  {
    if pairs != [] { InOrderChain(pairs[1..]); }
  }

  lemma {:induction false} InsertedChain(p: Pair, sorted: seq<Pair>)
    requires Chain(sorted)
    ensures Chain(Inserted(p, sorted))
    ensures Inserted(p, sorted)[0] == p || (sorted != [] && Inserted(p, sorted)[0] == sorted[0])
  {
    var r := Inserted(p, sorted);
    if sorted == [] || AtMost(p.name, sorted[0].name) {
      assert r[1..] == sorted;
    } else {
      InsertedChain(p, sorted[1..]);
      AtMostTotal(p.name, sorted[0].name);
      assert r[1..] == Inserted(p, sorted[1..]);
    }
  }

  lemma {:induction false} InsertedNamed(p: Pair, sorted: seq<Pair>, name: string)
    requires Chain(sorted)
    ensures Named(Inserted(p, sorted), name) == if p.name == name then [p] + Named(sorted, name) else Named(sorted, name)
  {
    var r := Inserted(p, sorted);
    if sorted == [] || AtMost(p.name, sorted[0].name) {
      assert r[1..] == sorted;
    } else {
      InsertedNamed(p, sorted[1..], name);
      assert r[1..] == Inserted(p, sorted[1..]);
      AtMostTotal(p.name, sorted[0].name);
    }
  }

  /** Sorting puts names in order and keeps, for each name, its pairs in the order they had. */
  lemma {:induction false} SortIsStable(pairs: seq<Pair>, name: string)
    ensures InOrder(Ordered(pairs)) && Named(Ordered(pairs), name) == Named(pairs, name)
    ensures Chain(Ordered(pairs))
  {
    if pairs != [] {
      SortIsStable(pairs[1..], name);
      InsertedChain(pairs[0], Ordered(pairs[1..]));
      InsertedNamed(pairs[0], Ordered(pairs[1..]), name);
    }
    ChainInOrder(Ordered(pairs));
  }

  lemma {:induction false} InsertedMembers(p: Pair, sorted: seq<Pair>)
    ensures multiset(Inserted(p, sorted)) == multiset(sorted) + multiset{p}
  {
    if sorted != [] && !AtMost(p.name, sorted[0].name) {
      InsertedMembers(p, sorted[1..]);
      assert sorted == [sorted[0]] + sorted[1..];
    }
  }

  lemma {:induction false} SortPermutes(pairs: seq<Pair>)
    ensures multiset(Ordered(pairs)) == multiset(pairs)
  {
    if pairs != [] {
      SortPermutes(pairs[1..]);
      InsertedMembers(pairs[0], Ordered(pairs[1..]));
      assert pairs == [pairs[0]] + pairs[1..];
    }
  }

  lemma NamedFirst(pairs: seq<Pair>)
    ensures pairs != [] ==> Named(pairs, pairs[0].name) == [pairs[0]] + Named(pairs[1..], pairs[0].name)
  {
  }

  lemma {:induction false} NamedAtLeast(pairs: seq<Pair>, name: string)
    requires Chain(pairs) && Named(pairs, name) != []
    ensures AtMost(pairs[0].name, name)
  {
    if pairs[0].name == name {
      AtMostSelf(name);
    } else {
      NamedAtLeast(pairs[1..], name);
      AtMostOn(pairs[0].name, pairs[1].name, name);
    }
  }

  lemma SameFirst(a: seq<Pair>, b: seq<Pair>)
    requires Chain(a) && Chain(b) && a != [] && b != [] && forall name :: Named(a, name) == Named(b, name)
    ensures a[0] == b[0]
  {
    NamedFirst(a);
    NamedFirst(b);
    var x, y := a[0].name, b[0].name;
    assert Named(a, x) == Named(b, x) && Named(a, y) == Named(b, y);
    assert x == y by {
      NamedAtLeast(b, x);
      NamedAtLeast(a, y);
      AtMostTotal(x, y);
    }
    assert Named(a, x)[0] == a[0] && Named(b, x)[0] == b[0];
  }

  /** There is only one way to order names and keep each name's pairs: any stable sort gives this list. */
  lemma {:induction false} StableSortIsUnique(a: seq<Pair>, b: seq<Pair>)
    requires InOrder(a) && InOrder(b) && forall name :: Named(a, name) == Named(b, name)
    ensures a == b
    decreases |a|
  {
    InOrderChain(a);
    InOrderChain(b);
    NamedFirst(a);
    NamedFirst(b);
    if a != [] && b != [] {
      SameFirst(a, b);
      forall name ensures Named(a[1..], name) == Named(b[1..], name) {
        if a[0].name == name {
          assert Named(a, name)[1..] == Named(a[1..], name) && Named(b, name)[1..] == Named(b[1..], name);
        }
      }
      StableSortIsUnique(a[1..], b[1..]);
      assert a == [a[0]] + a[1..] && b == [b[0]] + b[1..];
    }
  }

  // ----- the objects -----------------------------------------------------------------------

  class PairList {
    var pairs: seq<Pair>

    constructor (pairs: seq<Pair>)
      ensures this.pairs == pairs
    {
      this.pairs := pairs;
    }
  }

  /** A URL as far as its query goes. */
  class UrlRecord {
    var query: Option<string>

    constructor (query: Option<string>)
      ensures this.query == query
    {
      this.query := query;
    }
  }

  /** `ParamsBacking` */
  datatype Backing = Owned(list: PairList) | Url(url: UrlRecord)

  ghost function Cells(b: Backing): set<object> {
    match b
    case Owned(list) => {list}
    case Url(url) => {url}
  }

  /** `snapshot_pairs` */
  function Snapshot(b: Backing): seq<Pair>
    reads Cells(b)
  {
    match b
    case Owned(list) => list.pairs
    case Url(url) => ReadQuery(url.query)
  }

  method RetainOthers(pairs: seq<Pair>, name: string, only: Option<Utf8>) returns (kept: seq<Pair>)
    ensures kept == Deleted(pairs, name, only)
  {
    kept := [];
    assert pairs[0..] == pairs;
    for k := 0 to |pairs|
      invariant Deleted(pairs, name, only) == kept + Deleted(pairs[k..], name, only)
    {
      assert pairs[k..][1..] == pairs[k + 1..];
      if Kept(pairs[k], name, only) {
        Assoc(kept, [pairs[k]], Deleted(pairs[k + 1..], name, only));
        kept := kept + [pairs[k]];
      }
    }
  }

  method SetFirst(pairs: seq<Pair>, name: Utf8, value: Utf8) returns (kept: seq<Pair>)
    ensures kept == Replaced(pairs, name, value)
  {
    kept := [];
    var seen := false;
    assert pairs[0..] == pairs;
    for k := 0 to |pairs|
      invariant Replaced(pairs, name, value) ==
                kept + if seen then Deleted(pairs[k..], name, None) else Replaced(pairs[k..], name, value)
    {
      assert pairs[k..][1..] == pairs[k + 1..];
      if pairs[k].name == name {
        if !seen {
          Assoc(kept, [Pair(name, value)], Deleted(pairs[k + 1..], name, None));
          kept := kept + [Pair(name, value)];
          seen := true;
        }
      } else {
        Assoc(kept, [pairs[k]], if seen then Deleted(pairs[k + 1..], name, None) else Replaced(pairs[k + 1..], name, value));
        kept := kept + [pairs[k]];
      }
    }
    if !seen {
      kept := kept + [Pair(name, value)];
    }
  }

  method Changed(pairs: seq<Pair>, op: Op) returns (r: seq<Pair>)
    ensures r == Apply(pairs, op)
  {
    match op
    case Append(name, value) => r := pairs + [Pair(name, value)];
    case Delete(name, only) => r := RetainOthers(pairs, name, only);
    case Set(name, value) => r := SetFirst(pairs, name, value);
    case Sort => r := Ordered(pairs);
  }

  /** `with_pairs`: both kinds of object change alike. */
  method WithPairs(b: Backing, op: Op)
    modifies Cells(b)
    ensures Snapshot(b) == Apply(old(Snapshot(b)), op)
    ensures b.Url? ==> b.url.query == WriteQuery(Apply(old(Snapshot(b)), op))
  {
    match b
    case Owned(list) =>
      var changed := Changed(list.pairs, op);
      list.pairs := changed;
    case Url(url) =>
      var pairs := ReadQuery(url.query);
      var changed := Changed(pairs, op);
      url.query := WriteQuery(changed);
      ReadWrite(changed);
  }

  /** A whole sequence of operations on an object, seen through its snapshots. */
  method WithAll(b: Backing, ops: seq<Op>)
    modifies Cells(b)
    ensures Snapshot(b) == ApplyAll(old(Snapshot(b)), ops)
  {
    assert ops[0..] == ops;
    for k := 0 to |ops|
      invariant ApplyAll(Snapshot(b), ops[k..]) == ApplyAll(old(Snapshot(b)), ops)
    {
      assert ops[k..][1..] == ops[k + 1..];
      WithPairs(b, ops[k]);
    }
  }
}
