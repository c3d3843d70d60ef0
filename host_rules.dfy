/** Extraction of host names from a router rule with the regular expression
    ``Host(?:Regexp)?\(`([^`]*)`\)`` under `re.findall`: an occurrence is
    `Host(` or `HostRegexp(`, a backtick, a stretch without backticks (the host),
    a backtick and `)`. The scan runs left to right; after an occurrence it resumes
    just past its `)`, and where no occurrence starts it moves on one character.
    A rule with no occurrence yields no hosts; nothing here can fail. */
module HostRules {
  import opened Wrappers
  import opened Text

  const HOST_OPEN := "Host(`"
  const REGEXP_OPEN := "HostRegexp(`"

  predicate HasAt(s: string, p: nat, w: string) {
    p + |w| <= |s| && s[p..p + |w|] == w
  }

  /** One occurrence: it starts at `start`, the host is `s[hostStart..hostEnd]`
      and the closing "`)" sits at `hostEnd`. */
  datatype Occurrence = Occurrence(start: nat, hostStart: nat, hostEnd: nat)

  /** The pattern's meaning, stated directly: an occurrence at `p` whose host
      spans `q..e`. */
  predicate IsMatch(s: string, p: nat, q: nat, e: nat) {
    && ((HasAt(s, p, REGEXP_OPEN) && q == p + |REGEXP_OPEN|) || (HasAt(s, p, HOST_OPEN) && q == p + |HOST_OPEN|))
    && q <= e && e + 2 <= |s| && s[e] == '`' && s[e + 1] == ')'
    && forall k :: q <= k < e ==> s[k] != '`'
  }

  /** The two openings cannot both stand at one position, so the host start is
      fixed by `p`, and the host end by the first backtick after it. */
  lemma MatchIsUnique(s: string, p: nat, q: nat, e: nat)
    requires IsMatch(s, p, q, e)
    ensures HasAt(s, p, REGEXP_OPEN) ==> q == p + |REGEXP_OPEN|
    ensures !HasAt(s, p, REGEXP_OPEN) ==> q == p + |HOST_OPEN|
    ensures e == NextIndex(s, q, '`')
  {
    if HasAt(s, p, REGEXP_OPEN) && HasAt(s, p, HOST_OPEN) {
      assert s[p + 4] == REGEXP_OPEN[4] == 'R';
      assert s[p + 4] == HOST_OPEN[4] == '(';
    }
  }

  /** The occurrence starting at `p`, if any. */
  function MatchAt(s: string, p: nat): (r: Option<Occurrence>)
    requires p <= |s|
    ensures r.Some? ==> r.value.start == p && IsMatch(s, p, r.value.hostStart, r.value.hostEnd)
  {
    if !HasAt(s, p, REGEXP_OPEN) && !HasAt(s, p, HOST_OPEN) then None
    else
      var q := if HasAt(s, p, REGEXP_OPEN) then p + |REGEXP_OPEN| else p + |HOST_OPEN|;
      var e := NextIndex(s, q, '`');
      if e + 2 <= |s| && s[e + 1] == ')' then Some(Occurrence(p, q, e)) else None
  }

  /** `MatchAt` misses no occurrence: whenever the pattern matches at `p`, it
      returns exactly that occurrence. */
  lemma MatchAtFindsEveryOccurrence(s: string, p: nat, q: nat, e: nat)
    requires p <= |s| && IsMatch(s, p, q, e)
    ensures MatchAt(s, p) == Some(Occurrence(p, q, e))
  {
    MatchIsUnique(s, p, q, e);
  }

  /** The occurrences `re.findall` visits when scanning from `p`. */
  function ScanFrom(s: string, p: nat): (occ: seq<Occurrence>)
    requires p <= |s|
    ensures forall i :: 0 <= i < |occ| ==> p <= occ[i].start <= occ[i].hostStart <= occ[i].hostEnd && occ[i].hostEnd + 2 <= |s|
    decreases |s| - p
  {
    if p == |s| then []
    else
      match MatchAt(s, p)
      case Some(o) => [o] + ScanFrom(s, o.hostEnd + 2)
      case None => ScanFrom(s, p + 1)
  }

  /** The host texts of a list of occurrences. */
  function Texts(s: string, occ: seq<Occurrence>): (hosts: seq<string>)
    requires forall i :: 0 <= i < |occ| ==> occ[i].hostStart <= occ[i].hostEnd <= |s|
    ensures |hosts| == |occ|
    ensures forall i :: 0 <= i < |occ| ==> hosts[i] == s[occ[i].hostStart..occ[i].hostEnd]
  {
    seq(|occ|, i requires 0 <= i < |occ| => s[occ[i].hostStart..occ[i].hostEnd])
  }

  /** `re.findall(r"Host(?:Regexp)?\(`([^`]*)`\)", rule)`. */
  function FindHosts(rule: string): (hosts: seq<string>) {
    Texts(rule, ScanFrom(rule, 0))
  }

  /** Each listed occurrence is the one that starts at its own position, at or after `p`. */
  predicate AllFound(s: string, p: nat, occ: seq<Occurrence>) {
    forall i :: 0 <= i < |occ| ==> p <= occ[i].start <= |s| && MatchAt(s, occ[i].start) == Some(occ[i])
  }

  /** Each occurrence starts after the previous one has ended. */
  predicate NonOverlapping(occ: seq<Occurrence>) {
    forall i :: 0 <= i < |occ| - 1 ==> occ[i].hostEnd + 2 <= occ[i + 1].start
  }

  /** Every position from `p` on where an occurrence could start lies inside a
      listed one (at its start, or past it and so skipped). */
  predicate Covers(s: string, p: nat, occ: seq<Occurrence>) {
    forall k :: p <= k < |s| && MatchAt(s, k).Some? ==> Covered(occ, k)
  }

  /** Position `k` lies within one of the occurrences, from its start to its `)`. */
  predicate Covered(occ: seq<Occurrence>, k: nat) {
    exists i :: 0 <= i < |occ| && occ[i].start <= k < occ[i].hostEnd + 2
  }

  /** A found occurrence, followed by what the scan finds after it. */
  lemma AllFoundAfterMatch(s: string, p: nat, o: Occurrence)
    requires p < |s| && MatchAt(s, p) == Some(o)
    requires AllFound(s, o.hostEnd + 2, ScanFrom(s, o.hostEnd + 2))
    ensures AllFound(s, p, ScanFrom(s, p))
  {
    var rest := ScanFrom(s, o.hostEnd + 2);
    var occ := [o] + rest;
    assert ScanFrom(s, p) == occ;
    forall i | 0 <= i < |occ| ensures p <= occ[i].start <= |s| && MatchAt(s, occ[i].start) == Some(occ[i]) {
      if i > 0 { assert occ[i] == rest[i - 1]; }
    }
  }

  /** No occurrence at `p`: the scan moves on one character. */
  lemma AllFoundAfterMiss(s: string, p: nat)
    requires p < |s| && MatchAt(s, p).None?
    requires AllFound(s, p + 1, ScanFrom(s, p + 1))
    ensures AllFound(s, p, ScanFrom(s, p))
  {
    assert ScanFrom(s, p) == ScanFrom(s, p + 1);
  }

  lemma {:induction false} ScanFindsOccurrences(s: string, p: nat)
    requires p <= |s|
    ensures AllFound(s, p, ScanFrom(s, p))
    decreases |s| - p
  {
    if p < |s| {
      match MatchAt(s, p)
      case Some(o) =>
        ScanFindsOccurrences(s, o.hostEnd + 2);
        AllFoundAfterMatch(s, p, o);
      case None =>
        ScanFindsOccurrences(s, p + 1);
        AllFoundAfterMiss(s, p);
    }
  }

  lemma NonOverlappingCons(o: Occurrence, rest: seq<Occurrence>)
    requires NonOverlapping(rest)
    requires rest != [] ==> o.hostEnd + 2 <= rest[0].start
    ensures NonOverlapping([o] + rest)
  {
    var occ := [o] + rest;
    forall i | 0 <= i < |occ| - 1 ensures occ[i].hostEnd + 2 <= occ[i + 1].start {
      if i > 0 { assert occ[i] == rest[i - 1] && occ[i + 1] == rest[i]; }
    }
  }

  lemma {:induction false} ScanDoesNotOverlap(s: string, p: nat)
    requires p <= |s|
    ensures NonOverlapping(ScanFrom(s, p))
    decreases |s| - p
  {
    if p < |s| {
      var m := MatchAt(s, p);
      if m.Some? {
        var next := m.value.hostEnd + 2;
        var rest := ScanFrom(s, next);
        assert ScanFrom(s, p) == [m.value] + rest;
        assert rest != [] ==> next <= rest[0].start;
        ScanDoesNotOverlap(s, next);
        NonOverlappingCons(m.value, rest);
      } else {
        assert ScanFrom(s, p) == ScanFrom(s, p + 1);
        ScanDoesNotOverlap(s, p + 1);
      }
    }
  }

  lemma {:induction false} ScanMissesNothing(s: string, p: nat)
    requires p <= |s|
    ensures Covers(s, p, ScanFrom(s, p))
    decreases |s| - p
  {
    if p < |s| {
      var m := MatchAt(s, p);
      if m.Some? {
        var next := m.value.hostEnd + 2;
        ScanMissesNothing(s, next);
        assert ScanFrom(s, p) == [m.value] + ScanFrom(s, next);
        CoversAfterOccurrence(s, p, m.value, ScanFrom(s, next));
      } else {
        ScanMissesNothing(s, p + 1);
        assert ScanFrom(s, p) == ScanFrom(s, p + 1);
        CoversAfterMiss(s, p, ScanFrom(s, p + 1));
      }
    }
  }

  lemma CoversAfterMiss(s: string, p: nat, rest: seq<Occurrence>)
    requires p < |s| && MatchAt(s, p).None?
    requires Covers(s, p + 1, rest)
    ensures Covers(s, p, rest)
  {
  }

  lemma CoversAfterOccurrence(s: string, p: nat, o: Occurrence, rest: seq<Occurrence>)
    requires o.start == p && p <= o.hostEnd + 2 <= |s|
    requires Covers(s, o.hostEnd + 2, rest)
    ensures Covers(s, p, [o] + rest)
  {
    var occ := [o] + rest;
    forall k | p <= k < |s| && MatchAt(s, k).Some?
      ensures Covered(occ, k)
    {
      if k < o.hostEnd + 2 {
        assert occ[0] == o;
      } else {
        var i :| 0 <= i < |rest| && rest[i].start <= k < rest[i].hostEnd + 2;
        assert occ[i + 1] == rest[i];
      }
    }
  }

  /** The scan finds the leftmost occurrences without overlap: each found one is
      a real occurrence, each starts after the previous one has ended, and every
      position where an occurrence could start is either a found start or lies
      inside a found occurrence. */
  lemma ScanFindsLeftmostOccurrences(s: string, p: nat)
    requires p <= |s|
    ensures AllFound(s, p, ScanFrom(s, p))
    ensures NonOverlapping(ScanFrom(s, p))
    ensures Covers(s, p, ScanFrom(s, p))
  {
    ScanFindsOccurrences(s, p);
    ScanDoesNotOverlap(s, p);
    ScanMissesNothing(s, p);
  }

  /** Every extracted host is the text between the backticks of an occurrence
      of `Host(...)` or `HostRegexp(...)` and holds no backtick. */
  lemma HostsComeFromOccurrences(rule: string)
    ensures var hosts := FindHosts(rule);
      forall i :: 0 <= i < |hosts| ==>
        && '`' !in hosts[i]
        && exists p: nat, q: nat, e: nat :: IsMatch(rule, p, q, e) && hosts[i] == rule[q..e]
  {
    var occ := ScanFrom(rule, 0);
    var hosts := FindHosts(rule);
    ScanFindsOccurrences(rule, 0);
    forall i | 0 <= i < |hosts|
      ensures '`' !in hosts[i]
      ensures exists p: nat, q: nat, e: nat :: IsMatch(rule, p, q, e) && hosts[i] == rule[q..e]
    {
      var o := occ[i];
      assert MatchAt(rule, o.start) == Some(o);
      assert IsMatch(rule, o.start, o.hostStart, o.hostEnd);
      assert hosts[i] == rule[o.hostStart..o.hostEnd];
      forall k | 0 <= k < |hosts[i]| ensures hosts[i][k] != '`' {
        assert hosts[i][k] == rule[o.hostStart + k];
      }
    }
  }

  /** A rule in which no occurrence starts anywhere yields no hosts. */
  lemma {:induction false} NoOccurrenceNoHosts(rule: string)
    requires forall p: nat, q: nat, e: nat :: !IsMatch(rule, p, q, e)
    ensures FindHosts(rule) == []
  {
    var occ := ScanFrom(rule, 0);
    ScanFindsOccurrences(rule, 0);
    assert occ == [] || MatchAt(rule, occ[0].start) == Some(occ[0]);
    assert occ == [] || IsMatch(rule, occ[0].start, occ[0].hostStart, occ[0].hostEnd);
  }
}
