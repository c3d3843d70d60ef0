/** Searching a string for a character, shared by the wildcard matcher (the `]`
    that closes a class) and the rule scanner (the backtick that ends a host). */
module Text {

  /** The index of the first `c` at or after `from`, or `|s|` when there is none. */
  function NextIndex(s: string, from: nat, c: char): (j: nat)
    requires from <= |s|
    ensures from <= j <= |s|
    ensures j < |s| ==> s[j] == c
    ensures forall k :: from <= k < j ==> s[k] != c
    decreases |s| - from
  {
    if from == |s| || s[from] == c then from else NextIndex(s, from + 1, c)
  }

  /** The search stops at the first `c`, wherever it is. */
  lemma NextIndexAt(s: string, from: nat, c: char, j: nat)
    requires from <= j < |s| && s[j] == c
    requires forall k :: from <= k < j ==> s[k] != c
    ensures NextIndex(s, from, c) == j
  {
  }
}
