/** Resolution of the configured default TTL: `auto` in any letter case means
    "no TTL" (the provider chooses), a string Python's `int()` accepts gives that
    integer (zero and negative values included), and anything else falls back to
    300 seconds. */
module Ttl {
  import opened Wrappers

  const FALLBACK_TTL := 300

  function AsciiLower(c: char): char {
    if 'A' <= c <= 'Z' then (c as int + 32) as char else c
  }

  function Lower(s: string): (r: string)
    ensures |r| == |s|
    ensures forall i :: 0 <= i < |s| ==> r[i] == AsciiLower(s[i])
  {
    seq(|s|, i requires 0 <= i < |s| => AsciiLower(s[i]))
  }

  predicate IsDigit(c: char) {
    '0' <= c <= '9'
  }

  predicate AllDigits(s: string) {
    forall i :: 0 <= i < |s| ==> IsDigit(s[i])
  }

  /** The value of a string of decimal digits, most significant digit first. */
  function DigitsValue(ds: string): nat
    requires AllDigits(ds)
    decreases |ds|
  {
    if ds == [] then 0
    else DigitsValue(ds[..|ds| - 1]) * 10 + (ds[|ds| - 1] as int - '0' as int)
  }

  /** A decimal integer literal: an optional `+` or `-` and at least one digit. */
  predicate IsNumeral(s: string) {
    if s != [] && (s[0] == '+' || s[0] == '-') then s[1..] != [] && AllDigits(s[1..])
    else s != [] && AllDigits(s)
  }

  /** `int(s)`, with `None` where Python raises ValueError. */
  function ParseInt(s: string): (r: Option<int>)
    ensures r.Some? <==> IsNumeral(s)
  {
    if !IsNumeral(s) then None
    else if s[0] == '-' then Some(-(DigitsValue(s[1..]) as int))
    else if s[0] == '+' then Some(DigitsValue(s[1..]))
    else Some(DigitsValue(s))
  }

  function DigitChar(d: nat): char
    requires d < 10
  {
    ('0' as int + d) as char
  }

  /** The decimal digits of `n`, without leading zeros. */
  function NatToString(n: nat): (s: string)
    ensures s != [] && AllDigits(s)
    decreases n
  {
    if n < 10 then [DigitChar(n)] else NatToString(n / 10) + [DigitChar(n % 10)]
  }

  /** `str(n)`. */
  function IntToString(n: int): string {
    if n < 0 then "-" + NatToString(-n) else NatToString(n)
  }

  lemma {:induction false} DigitsOfNat(n: nat)
    ensures DigitsValue(NatToString(n)) == n
    decreases n
  {
    var s := NatToString(n);
    if n >= 10 {
      DigitsOfNat(n / 10);
      assert s[..|s| - 1] == NatToString(n / 10);
    }
  }

  lemma ParseNatOfPrinted(n: nat)
    ensures ParseInt(NatToString(n)) == Some(n)
  {
    var s := NatToString(n);
    assert IsDigit(s[0]);
    DigitsOfNat(n);
  }

  lemma ParseNegativeOfPrinted(n: nat)
    requires n > 0
    ensures ParseInt("-" + NatToString(n)) == Some(-(n as int))
  {
    var s := "-" + NatToString(n);
    assert s[0] == '-';
    assert s[1..] == NatToString(n);
    DigitsOfNat(n);
  }

  /** Printing an integer and parsing it back gives the integer. */
  lemma ParseIntOfPrinted(n: int)
    ensures ParseInt(IntToString(n)) == Some(n)
  {
    if n < 0 {
      ParseNegativeOfPrinted(-n);
    } else {
      ParseNatOfPrinted(n);
    }
  }

  /** `resolve_ttl()`: `None` means the record carries no TTL. */
  function ResolveTtl(raw: string): Option<int> {
    if Lower(raw) == "auto" then None
    else match ParseInt(raw)
      case Some(n) => Some(n)
      case None => Some(FALLBACK_TTL)
  }

  /** `auto` in any mixture of letter cases gives no TTL. */
  lemma AutoInAnyCase(raw: string)
    requires |raw| == 4
    requires raw[0] in "aA" && raw[1] in "uU" && raw[2] in "tT" && raw[3] in "oO"
    ensures ResolveTtl(raw) == None
  {
    assert Lower(raw) == "auto";
  }

  /** Every integer written in decimal is taken as it is, zero and negative
      values included. */
  lemma ResolveTtlOfInteger(n: int)
    ensures ResolveTtl(IntToString(n)) == Some(n)
  {
    var s := IntToString(n);
    ParseIntOfPrinted(n);
    assert Lower(s) != "auto" by {
      assert s[|s| - 1] == NatToString(if n < 0 then -n else n)[|NatToString(if n < 0 then -n else n)| - 1];
      assert IsDigit(s[|s| - 1]);
    }
  }

  /** Any numeral `int()` accepts, leading zeros and a `+` sign included, is
      taken as the integer it spells. */
  lemma ResolveTtlOfNumeral(raw: string)
    requires IsNumeral(raw)
    ensures ResolveTtl(raw) == ParseInt(raw)
    ensures ParseInt(raw).Some?
  {
    assert IsDigit(raw[|raw| - 1]);
    assert Lower(raw) != "auto" by {
      assert Lower(raw)[|raw| - 1] == AsciiLower(raw[|raw| - 1]);
    }
  }

  /** A string that is neither `auto` nor a decimal integer falls back to 300. */
  lemma ResolveTtlFallback(raw: string)
    requires Lower(raw) != "auto" && !IsNumeral(raw)
    ensures ResolveTtl(raw) == Some(FALLBACK_TTL)
  {
  }

  /** A letter of `auto` after lowering came from that letter in either case. */
  lemma LowerToLetter(c: char, lower: char)
    requires 'a' <= lower <= 'z' && AsciiLower(c) == lower
    ensures c == lower || c as int == lower as int - 32
  {
  }

  /** No TTL exactly for the four-letter `auto` in some mixture of cases; every
      other setting gives a TTL. */
  lemma ResolveTtlNoneIffAuto(raw: string)
    ensures ResolveTtl(raw) == None <==>
      |raw| == 4 && raw[0] in "aA" && raw[1] in "uU" && raw[2] in "tT" && raw[3] in "oO"
  {
    if ResolveTtl(raw) == None {
      var l := Lower(raw);
      assert l == "auto";
      assert |raw| == 4;
      LowerToLetter(raw[0], 'a');
      LowerToLetter(raw[1], 'u');
      LowerToLetter(raw[2], 't');
      LowerToLetter(raw[3], 'o');
    }
    if |raw| == 4 && raw[0] in "aA" && raw[1] in "uU" && raw[2] in "tT" && raw[3] in "oO" {
      AutoInAnyCase(raw);
    }
  }
}
