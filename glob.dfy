/** Shell-style wildcard matching as Python's `fnmatch.fnmatch` performs it on a
    POSIX host, where no case folding takes place. A pattern is first cut into
    tokens the way `fnmatch.translate` reads it, and the whole name must then
    match the whole token sequence:
    - `*` matches any run of characters, `?` exactly one character;
    - `[...]` is a character class and `[!...]` its complement. A `]` right after
      `[` or `[!` belongs to the class, and `a-z` inside it is a range; a range
      whose bounds are reversed matches nothing;
    - a `[` with no closing `]` is an ordinary character, like every other one. */
module Glob {
  import opened Text

  datatype ClassItem = Single(c: char) | Span(lo: char, hi: char)

  datatype Token =
    | Star
    | AnyChar
    | CharClass(negated: bool, items: seq<ClassItem>)
    | Literal(c: char)

  predicate ItemAccepts(item: ClassItem, c: char) {
    match item
    case Single(x) => c == x
    case Span(lo, hi) => lo <= c <= hi
  }

  predicate ClassAccepts(items: seq<ClassItem>, c: char) {
    exists i :: 0 <= i < |items| && ItemAccepts(items[i], c)
  }

  /** The members of a class body, read left to right: a character followed by
      `-` and one more character is a range, anything else a single character
      (so a `-` at either end of the body stands for itself). */
  function ClassItems(body: string): seq<ClassItem>
    decreases |body|
  {
    if body == [] then []
    else if |body| >= 3 && body[1] == '-' then [Span(body[0], body[2])] + ClassItems(body[3..])
    else [Single(body[0])] + ClassItems(body[1..])
  }

  function ClassToken(body: string): Token {
    if body != [] && body[0] == '!' then CharClass(true, ClassItems(body[1..]))
    else CharClass(false, ClassItems(body))
  }

  /** Where the class opened by the `[` just before index `i` ends: a leading `!`
      and then a leading `]` are part of the body, the next `]` closes it. */
  function ClassEnd(p: string, i: nat): (j: nat)
    requires i <= |p|
    ensures i <= j <= |p|
  {
    var k := if i < |p| && p[i] == '!' then i + 1 else i;
    var m := if k < |p| && p[k] == ']' then k + 1 else k;
    NextIndex(p, m, ']')
  }

  function Compile(p: string): seq<Token>
    decreases |p|
  {
    if p == [] then []
    else if p[0] == '*' then [Star] + Compile(p[1..])
    else if p[0] == '?' then [AnyChar] + Compile(p[1..])
    else if p[0] == '[' && ClassEnd(p, 1) < |p| then
      var j := ClassEnd(p, 1);
      [ClassToken(p[1..j])] + Compile(p[j + 1..])
    else [Literal(p[0])] + Compile(p[1..])
  }

  /** Whether the whole of `s` matches the whole token sequence. */
  predicate MatchTokens(ts: seq<Token>, s: string)
    decreases |ts|, |s|
  {
    if ts == [] then s == []
    else
      match ts[0]
      case Star => MatchTokens(ts[1..], s) || (s != [] && MatchTokens(ts, s[1..]))
      case AnyChar => s != [] && MatchTokens(ts[1..], s[1..])
      case CharClass(negated, items) =>
        s != [] && ClassAccepts(items, s[0]) != negated && MatchTokens(ts[1..], s[1..])
      case Literal(c) => s != [] && s[0] == c && MatchTokens(ts[1..], s[1..])
  }

  predicate FnMatch(name: string, pattern: string) {
    MatchTokens(Compile(pattern), name)
  }

  /** A pattern with none of the characters `*`, `?`, `[`. */
  predicate IsPlain(p: string) {
    forall i :: 0 <= i < |p| ==> p[i] != '*' && p[i] != '?' && p[i] != '['
  }

  function Literals(p: string): (ts: seq<Token>)
    ensures |ts| == |p|
    ensures forall i :: 0 <= i < |p| ==> ts[i] == Literal(p[i])
  {
    seq(|p|, i requires 0 <= i < |p| => Literal(p[i]))
  }

  lemma {:induction false} CompilePlain(p: string)
    requires IsPlain(p)
    ensures Compile(p) == Literals(p)
    decreases |p|
  {
    if p != [] {
      assert IsPlain(p[1..]) by {
        forall i | 0 <= i < |p[1..]| ensures p[1..][i] != '*' && p[1..][i] != '?' && p[1..][i] != '[' {
          assert p[1..][i] == p[i + 1];
        }
      }
      CompilePlain(p[1..]);
      assert Compile(p) == [Literal(p[0])] + Literals(p[1..]);
    }
  }

  lemma {:induction false} MatchLiterals(p: string, s: string)
    ensures MatchTokens(Literals(p), s) <==> s == p
    decreases |p|
  {
    if p == [] {
      assert Literals(p) == [];
    } else {
      var ts := Literals(p);
      assert ts[1..] == Literals(p[1..]);
      if s != [] {
        MatchLiterals(p[1..], s[1..]);
        if s[0] == p[0] && s[1..] == p[1..] {
          assert s == [s[0]] + s[1..] && p == [p[0]] + p[1..];
        }
      }
    }
  }

  /** A pattern without wildcards matches exactly the name equal to it. */
  lemma PlainPatternMatchesItself(name: string, pattern: string)
    requires IsPlain(pattern)
    ensures FnMatch(name, pattern) <==> name == pattern
  {
    CompilePlain(pattern);
    MatchLiterals(pattern, name);
  }

  lemma {:induction false} StarThenTokens(ts: seq<Token>, s: string)
    ensures MatchTokens([Star] + ts, s) <==> exists k :: 0 <= k <= |s| && MatchTokens(ts, s[k..])
    decreases |s|
  {
    var st := [Star] + ts;
    assert st[1..] == ts;
    if s == [] {
      assert s[0..] == s;
    } else {
      StarThenTokens(ts, s[1..]);
      if MatchTokens(st, s[1..]) {
        var k :| 0 <= k <= |s[1..]| && MatchTokens(ts, s[1..][k..]);
        assert s[1..][k..] == s[k + 1..];
      }
      if k :| 0 <= k <= |s| && MatchTokens(ts, s[k..]) {
        if k > 0 {
          assert s[1..][k - 1..] == s[k..];
        } else {
          assert s[0..] == s;
        }
      } else {
        assert s[0..] == s;
      }
    }
  }

  /** `*` matches every name. */
  lemma StarMatchesEverything(name: string)
    ensures FnMatch(name, "*")
  {
    assert Compile("*") == [Star] + Compile("");
    StarThenTokens([], name);
    assert name[|name|..] == [];
  }

  /** `*` followed by a plain suffix, such as `*.example.com`, matches exactly the
      names that end with that suffix. */
  lemma StarSuffixMatchesEndings(name: string, suffix: string)
    requires IsPlain(suffix)
    ensures FnMatch(name, "*" + suffix) <==> |suffix| <= |name| && name[|name| - |suffix|..] == suffix
  {
    var p := "*" + suffix;
    assert p[1..] == suffix;
    CompilePlain(suffix);
    assert Compile(p) == [Star] + Literals(suffix);
    StarThenTokens(Literals(suffix), name);
    if FnMatch(name, p) {
      var k :| 0 <= k <= |name| && MatchTokens(Literals(suffix), name[k..]);
      MatchLiterals(suffix, name[k..]);
    }
    if |suffix| <= |name| && name[|name| - |suffix|..] == suffix {
      MatchLiterals(suffix, name[|name| - |suffix|..]);
    }
  }

  /** A pattern that is one whole class compiles to that class alone. */
  lemma CompileWholeClass(p: string)
    requires |p| >= 2 && p[0] == '[' && ClassEnd(p, 1) == |p| - 1
    ensures Compile(p) == [ClassToken(p[1..|p| - 1])]
  {
    assert p[|p|..] == [];
  }

  /** The positions of `[x]`. */
  lemma BracketedAt(x: string)
    ensures var p := "[" + x + "]";
      && |p| == |x| + 2 && p[0] == '[' && p[|x| + 1] == ']'
      && (forall k :: 1 <= k <= |x| ==> p[k] == x[k - 1])
      && p[1..|x| + 1] == x
  {
    var p := "[" + x + "]";
    assert p[1..|x| + 1] == x;
  }

  /** `[x]` where `x` holds no `]` and does not open with `!` or `]` is one class. */
  lemma SimpleClassCompiles(x: string)
    requires x != [] && x[0] != '!' && ']' !in x
    ensures Compile("[" + x + "]") == [ClassToken(x)]
  {
    var p := "[" + x + "]";
    var j := |x| + 1;
    BracketedAt(x);
    assert x[0] in x;
    forall k | 1 <= k < j ensures p[k] != ']' {
      assert x[k - 1] in x;
    }
    NextIndexAt(p, 1, ']', j);
    CompileWholeClass(p);
  }

  /** `[x]` where `x` is `!` and at least one more character, none of them `]`, is one class. */
  lemma NegatedSimpleClassCompiles(x: string)
    requires |x| >= 2 && x[0] == '!' && ']' !in x
    ensures Compile("[" + x + "]") == [ClassToken(x)]
  {
    var p := "[" + x + "]";
    var j := |x| + 1;
    BracketedAt(x);
    assert x[1] in x;
    forall k | 1 <= k < j ensures p[k] != ']' {
      assert x[k - 1] in x;
    }
    NextIndexAt(p, 2, ']', j);
    assert ClassEnd(p, 1) == j;
    CompileWholeClass(p);
  }

  lemma NegatedClassCompiles(body: string)
    requires body != [] && body[0] != '!' && ']' !in body
    ensures Compile("[!" + body + "]") == [CharClass(true, ClassItems(body))]
  {
    var x := "!" + body;
    assert "[!" + body + "]" == "[" + x + "]";
    assert x[0] == '!' && x[1..] == body;
    forall k | 0 <= k < |x| ensures x[k] != ']' {
      if k > 0 {
        assert x[k] == body[k - 1];
      }
    }
    NegatedSimpleClassCompiles(x);
  }

  /** For one character, a class and its `!` complement over the same body never
      agree. */
  lemma NegatedClassComplements(c: char, body: string)
    requires body != [] && body[0] != '!' && ']' !in body
    ensures FnMatch([c], "[!" + body + "]") <==> !FnMatch([c], "[" + body + "]")
  {
    SimpleClassCompiles(body);
    NegatedClassCompiles(body);
    assert [c][1..] == [];
    var tp, tn := CharClass(false, ClassItems(body)), CharClass(true, ClassItems(body));
    assert [tp][1..] == [] && [tn][1..] == [];
    assert MatchTokens([tp], [c]) <==> ClassAccepts(ClassItems(body), c);
    assert MatchTokens([tn], [c]) <==> !ClassAccepts(ClassItems(body), c);
  }

  /** A one-token class on a one-character name: it matches exactly when the
      class accepts the character, or, negated, when it does not. */
  lemma OneClassOnOneChar(c: char, negated: bool, items: seq<ClassItem>)
    ensures MatchTokens([CharClass(negated, items)], [c]) <==> ClassAccepts(items, c) != negated
  {
    assert [CharClass(negated, items)][1..] == [];
    assert [c][1..] == [];
  }

  /** A body without `-` is a list of single characters. */
  lemma {:induction false} ClassItemsWithoutDash(body: string)
    requires '-' !in body
    ensures |ClassItems(body)| == |body|
    ensures forall i :: 0 <= i < |body| ==> ClassItems(body)[i] == Single(body[i])
    decreases |body|
  {
    if body != [] {
      assert |body| >= 3 ==> body[1] in body;
      assert forall k :: 0 <= k < |body[1..]| ==> body[1..][k] in body;
      ClassItemsWithoutDash(body[1..]);
    }
  }

  /** `?` matches exactly one character: `?` followed by a plain pattern
      matches the names one character longer that end with it. */
  lemma QuestionMarkMatchesOneChar(name: string, s: string)
    requires IsPlain(s)
    ensures FnMatch(name, "?" + s) <==> |name| == |s| + 1 && name[1..] == s
  {
    var p := "?" + s;
    assert p[0] == '?' && p[1..] == s;
    CompilePlain(s);
    var ts := [AnyChar] + Literals(s);
    assert Compile(p) == ts;
    assert ts[1..] == Literals(s);
    if name != [] {
      MatchLiterals(s, name[1..]);
    }
  }

  /** A class of plain characters (no `-`, no `]`, no leading `!`) matches a
      single character exactly when the character is in its body. */
  lemma ClassMatchesItsMembers(c: char, body: string)
    requires '-' !in body && ']' !in body && (body != [] ==> body[0] != '!')
    ensures FnMatch([c], "[" + body + "]") <==> c in body
  {
    if body == [] {
      var p := "[" + body + "]";
      assert p == "[]";
      assert ClassEnd(p, 1) == 2;
      assert Compile(p) == [Literal('[')] + Compile("]");
      assert Compile("]") == [Literal(']')] + Compile([]);
      var ts := [Literal('['), Literal(']')];
      assert Compile(p) == ts;
      assert ts[1..] == [Literal(']')];
      assert [c][1..] == [];
      assert !MatchTokens([Literal(']')], []);
      assert !MatchTokens(ts, [c]);
    } else {
      SimpleClassCompiles(body);
      OneClassOnOneChar(c, false, ClassItems(body));
      ClassItemsWithoutDash(body);
      if c in body {
        var i :| 0 <= i < |body| && body[i] == c;
        assert ItemAccepts(ClassItems(body)[i], c);
      }
    }
  }

  /** `[lo-hi]` matches a single character exactly when it lies between the
      bounds; a range with `lo` above `hi` matches nothing. */
  lemma RangeMatchesBetweenBounds(c: char, lo: char, hi: char)
    requires lo != '!' && lo != ']' && hi != ']'
    ensures FnMatch([c], "[" + [lo, '-', hi] + "]") <==> lo <= c <= hi
  {
    var body := [lo, '-', hi];
    assert ']' !in body;
    SimpleClassCompiles(body);
    assert body[3..] == [];
    assert ClassItems(body) == [Span(lo, hi)] + ClassItems([]) == [Span(lo, hi)];
    OneClassOnOneChar(c, false, ClassItems(body));
    if lo <= c <= hi {
      assert ItemAccepts(ClassItems(body)[0], c);
    }
  }

  /** A `]` right after `[` belongs to the class: `[]x]` with plain `x` matches
      `]` and the characters of `x`. */
  lemma LeadingBracketBelongsToClass(c: char, body: string)
    requires '-' !in body && ']' !in body
    ensures FnMatch([c], "[]" + body + "]") <==> c == ']' || c in body
  {
    var x := "]" + body;
    var p := "[" + x + "]";
    assert "[]" + body + "]" == p;
    var j := |x| + 1;
    BracketedAt(x);
    assert p[1] == ']';
    forall k | 2 <= k < j ensures p[k] != ']' {
      assert p[k] == body[k - 2];
      assert body[k - 2] in body;
    }
    NextIndexAt(p, 2, ']', j);
    assert ClassEnd(p, 1) == j;
    CompileWholeClass(p);
    assert x[0] == ']';
    assert ClassToken(x) == CharClass(false, ClassItems(x));
    assert forall k :: 0 <= k < |x| ==> x[k] != '-' by {
      forall k | 0 <= k < |x| ensures x[k] != '-' {
        if k > 0 {
          assert x[k] == body[k - 1];
          assert body[k - 1] in body;
        }
      }
    }
    ClassItemsWithoutDash(x);
    OneClassOnOneChar(c, false, ClassItems(x));
    if c == ']' || c in body {
      var i :| 0 <= i < |x| && x[i] == c;
      assert ItemAccepts(ClassItems(x)[i], c);
    }
    if ClassAccepts(ClassItems(x), c) {
      var i :| 0 <= i < |x| && ItemAccepts(ClassItems(x)[i], c);
      if i > 0 {
        assert x[i] == body[i - 1];
      }
    }
  }
}
