/** Configuration of the agent, taken as parameters instead of environment
    variables, and the parsing of the two domain lists: the raw value is split
    at every comma, each piece is stripped of surrounding whitespace, and empty
    pieces are dropped. */
module Settings {

  /** The values the agent reads at start-up. `allowedDomains` and
      `ignoredDomains` are the raw comma-separated lists; `maxRetries`,
      `backoffFactor` and `refreshInterval` are taken as integers. */
  datatype Config = Config(
    traefikHostname: string,
    allowedDomains: string,
    ignoredDomains: string,
    defaultTtl: string,
    maxRetries: int,
    backoffFactor: int,
    refreshInterval: int)

  /** The characters Python's `str.isspace` accepts, which `str.strip` removes. */
  predicate IsSpace(c: char) {
    var n := c as int;
    (9 <= n <= 13) || (28 <= n <= 32) || n == 0x85 || n == 0xA0 || n == 0x1680
    || (0x2000 <= n <= 0x200A) || n == 0x2028 || n == 0x2029 || n == 0x202F
    || n == 0x205F || n == 0x3000
  }

  /** The position of the first occurrence of `sep` in `s`. */
  function IndexOf(s: string, sep: char): (i: nat)
    requires sep in s
    ensures i < |s| && s[i] == sep && sep !in s[..i]
  {
    if s[0] == sep then 0
    else
      assert sep in s[1..] by { var k :| 0 <= k < |s| && s[k] == sep; assert s[1..][k - 1] == sep; }
      var i := 1 + IndexOf(s[1..], sep);
      assert s[..i] == [s[0]] + s[1..][..i - 1];
      i
  }

  /** `sep.join(parts)`. */
  function Join(parts: seq<string>, sep: char): string
    decreases |parts|
  {
    if parts == [] then ""
    else if |parts| == 1 then parts[0]
    else parts[0] + [sep] + Join(parts[1..], sep)
  }

  /** `s.split(sep)`: the pieces between the separators, empty ones included. */
  function Split(s: string, sep: char): (parts: seq<string>)
    ensures |parts| >= 1
    ensures forall i :: 0 <= i < |parts| ==> sep !in parts[i]
    ensures Join(parts, sep) == s
    decreases |s|
  {
    if sep !in s then [s]
    else
      var i := IndexOf(s, sep);
      var rest := Split(s[i + 1..], sep);
      var parts := [s[..i]] + rest;
      assert parts[1..] == rest;
      assert s == s[..i] + [sep] + s[i + 1..];
      parts
  }

  lemma {:induction false} FirstSeparatorAfterPiece(a: string, b: string, sep: char)
    requires sep !in a
    ensures sep in a + [sep] + b && IndexOf(a + [sep] + b, sep) == |a|
    decreases |a|
  {
    var s := a + [sep] + b;
    assert s[|a|] == sep;
    if a != [] {
      assert a[0] in a;
      assert s[1..] == a[1..] + [sep] + b;
      assert sep !in a[1..] by { AbsentFromSlice(a, 1, |a|, sep); }
      FirstSeparatorAfterPiece(a[1..], b, sep);
    }
  }

  lemma SplitAtFirstSeparator(a: string, b: string, sep: char)
    requires sep !in a
    ensures Split(a + [sep] + b, sep) == [a] + Split(b, sep)
  {
    var s := a + [sep] + b;
    FirstSeparatorAfterPiece(a, b, sep);
    assert s[..|a|] == a;
    assert s[|a| + 1..] == b;
  }

  /** Splitting a joined list gives the list back when no piece holds the separator. */
  lemma {:induction false} SplitJoin(parts: seq<string>, sep: char)
    requires parts != []
    requires forall i :: 0 <= i < |parts| ==> sep !in parts[i]
    ensures Split(Join(parts, sep), sep) == parts
    decreases |parts|
  {
    if |parts| > 1 {
      var tail := Join(parts[1..], sep);
      assert Join(parts, sep) == parts[0] + [sep] + tail;
      SplitAtFirstSeparator(parts[0], tail, sep);
      SplitJoin(parts[1..], sep);
      assert parts == [parts[0]] + parts[1..];
    } else {
      assert Join(parts, sep) == parts[0];
    }
  }

  /** Index of the first character that is not whitespace (`|s|` if none). */
  function LeadingEnd(s: string): (a: nat)
    ensures a <= |s|
    ensures forall k :: 0 <= k < a ==> IsSpace(s[k])
    ensures a < |s| ==> !IsSpace(s[a])
  {
    if s == [] || !IsSpace(s[0]) then 0
    else
      var a := 1 + LeadingEnd(s[1..]);
      assert forall k :: 1 <= k < a ==> s[k] == s[1..][k - 1];
      a
  }

  /** One past the last character at or after `a` that is not whitespace (`a` if none). */
  function TrailingStart(s: string, a: nat): (b: nat)
    requires a <= |s|
    ensures a <= b <= |s|
    ensures forall k :: b <= k < |s| ==> IsSpace(s[k])
    ensures b > a ==> !IsSpace(s[b - 1])
    decreases |s|
  {
    if |s| == a || !IsSpace(s[|s| - 1]) then |s|
    else TrailingStart(s[..|s| - 1], a)
  }

  /** `s.strip()`. */
  function Strip(s: string): string {
    var a := LeadingEnd(s);
    s[a..TrailingStart(s, a)]
  }

  /** `strip` removes exactly the surrounding whitespace: what remains is a
      stretch of `s` that neither starts nor ends with whitespace, and everything
      cut away around it is whitespace. */
  lemma StripRemovesSurroundingSpace(s: string)
    ensures var r := Strip(s);
      && (r != [] ==> !IsSpace(r[0]) && !IsSpace(r[|r| - 1]))
      && (forall k :: 0 <= k < |r| ==> r[k] == s[LeadingEnd(s) + k])
      && (forall k :: 0 <= k < LeadingEnd(s) ==> IsSpace(s[k]))
      && (forall k :: LeadingEnd(s) + |r| <= k < |s| ==> IsSpace(s[k]))
  {
    var a := LeadingEnd(s);
    var b := TrailingStart(s, a);
    var r := s[a..b];
    assert |r| == b - a;
    assert forall k :: 0 <= k < |r| ==> r[k] == s[a + k];
  }

  lemma StripKeepsStripped(s: string)
    requires s != [] ==> !IsSpace(s[0]) && !IsSpace(s[|s| - 1])
    ensures Strip(s) == s
  {
    var a := LeadingEnd(s);
    if s != [] {
      assert a == 0;
      assert TrailingStart(s, 0) == |s|;
    }
  }

  /** A string with no whitespace at either end that is not empty. */
  predicate IsStripped(d: string) {
    d != [] && !IsSpace(d[0]) && !IsSpace(d[|d| - 1])
  }

  lemma AbsentFromSlice(s: string, a: nat, b: nat, c: char)
    requires a <= b <= |s| && c !in s
    ensures c !in s[a..b]
  {
    forall k | 0 <= k < b - a ensures s[a..b][k] != c {
      assert s[a..b][k] == s[a + k];
    }
  }

  /** The stripped, non-empty pieces, in order. */
  function NonBlank(pieces: seq<string>): (r: seq<string>)
    requires forall i :: 0 <= i < |pieces| ==> ',' !in pieces[i]
    ensures forall i :: 0 <= i < |r| ==> IsStripped(r[i])
    ensures forall i :: 0 <= i < |r| ==> ',' !in r[i]
    ensures |r| <= |pieces|
  {
    if pieces == [] then []
    else
      var d := Strip(pieces[0]);
      StripRemovesSurroundingSpace(pieces[0]);
      AbsentFromSlice(pieces[0], LeadingEnd(pieces[0]), TrailingStart(pieces[0], LeadingEnd(pieces[0])), ',');
      (if d != [] then [d] else []) + NonBlank(pieces[1..])
  }

  /** `[d.strip() for d in raw.split(",") if d.strip()]`. */
  function ParseList(raw: string): (r: seq<string>)
    ensures forall i :: 0 <= i < |r| ==> IsStripped(r[i])
    ensures forall i :: 0 <= i < |r| ==> ',' !in r[i]
  {
    NonBlank(Split(raw, ','))
  }

  lemma {:induction false} NonBlankKeepsEntries(xs: seq<string>)
    requires forall i :: 0 <= i < |xs| ==> IsStripped(xs[i])
    requires forall i :: 0 <= i < |xs| ==> ',' !in xs[i]
    ensures NonBlank(xs) == xs
    decreases |xs|
  {
    if xs != [] {
      StripKeepsStripped(xs[0]);
      NonBlankKeepsEntries(xs[1..]);
      assert xs == [xs[0]] + xs[1..];
    }
  }

  /** Parsing a comma-joined list of stripped, comma-free, non-empty domains gives
      exactly that list back; an unset variable (the empty string) gives the empty
      list. */
  lemma ParseListOfJoin(xs: seq<string>)
    requires forall i :: 0 <= i < |xs| ==> IsStripped(xs[i])
    requires forall i :: 0 <= i < |xs| ==> ',' !in xs[i]
    ensures ParseList(Join(xs, ',')) == xs
  {
    if xs == [] {
      assert Split("", ',') == [""];
      assert Strip("") == "";
      assert NonBlank([""]) == [] + NonBlank([]);
    } else {
      SplitJoin(xs, ',');
      NonBlankKeepsEntries(xs);
    }
  }

  /** Blank pieces are dropped: a list made only of commas and whitespace parses
      to no domains at all. */
  lemma {:induction false} BlankPiecesDropped(pieces: seq<string>)
    requires forall i :: 0 <= i < |pieces| ==> ',' !in pieces[i]
    requires forall i, k :: 0 <= i < |pieces| && 0 <= k < |pieces[i]| ==> IsSpace(pieces[i][k])
    ensures NonBlank(pieces) == []
    decreases |pieces|
  {
    if pieces != [] {
      StripRemovesSurroundingSpace(pieces[0]);
      BlankPiecesDropped(pieces[1..]);
    }
  }

  /** A string made only of whitespace. */
  predicate AllSpace(w: string) {
    forall k :: 0 <= k < |w| ==> IsSpace(w[k])
  }

  /** Whitespace holds no comma. */
  lemma SpaceHasNoComma(w: string)
    requires AllSpace(w)
    ensures ',' !in w
  {
    assert !IsSpace(',');
  }

  /** `strip` of a stripped word with whitespace on both sides is the word. */
  lemma StripPadded(l: string, x: string, r: string)
    requires AllSpace(l) && IsStripped(x) && AllSpace(r)
    ensures Strip(l + x + r) == x
  {
    var s := l + x + r;
    var a := LeadingEnd(s);
    assert forall k :: 0 <= k < |l| ==> s[k] == l[k];
    assert forall k :: 0 <= k < |x| ==> s[|l| + k] == x[k];
    assert forall k :: 0 <= k < |r| ==> s[|l| + |x| + k] == r[k];
    assert !IsSpace(s[|l|]);
    assert a == |l|;
    var b := TrailingStart(s, a);
    assert !IsSpace(s[|l| + |x| - 1]);
    assert b == |l| + |x|;
    assert s[a..b] == x;
  }

  /** `NonBlank` keeps every piece whose stripped form is a domain, in order. */
  lemma {:induction false} NonBlankOfPadded(pieces: seq<string>, xs: seq<string>)
    requires |pieces| == |xs|
    requires forall i :: 0 <= i < |pieces| ==> ',' !in pieces[i]
    requires forall i :: 0 <= i < |xs| ==> IsStripped(xs[i]) && Strip(pieces[i]) == xs[i]
    ensures NonBlank(pieces) == xs
    decreases |xs|
  {
    if xs != [] {
      NonBlankOfPadded(pieces[1..], xs[1..]);
      assert xs == [xs[0]] + xs[1..];
    }
  }

  /** Whitespace around the domains, as in `"a.com, b.com"`, is removed: the
      entries come back exactly, in order. */
  lemma ParseListOfPaddedJoin(xs: seq<string>, l: seq<string>, r: seq<string>)
    requires |l| == |xs| && |r| == |xs|
    requires forall i :: 0 <= i < |xs| ==> IsStripped(xs[i]) && ',' !in xs[i]
    requires forall i :: 0 <= i < |xs| ==> AllSpace(l[i]) && AllSpace(r[i])
    ensures ParseList(Join(seq(|xs|, i requires 0 <= i < |xs| => l[i] + xs[i] + r[i]), ',')) == xs
  {
    var pieces := seq(|xs|, i requires 0 <= i < |xs| => l[i] + xs[i] + r[i]);
    if xs == [] {
      ParseListOfJoin(xs);
    } else {
      forall i | 0 <= i < |xs| ensures ',' !in pieces[i] && Strip(pieces[i]) == xs[i] {
        SpaceHasNoComma(l[i]);
        SpaceHasNoComma(r[i]);
        StripPadded(l[i], xs[i], r[i]);
      }
      SplitJoin(pieces, ',');
      NonBlankOfPadded(pieces, xs);
    }
  }
}
