/**
 * String helpers: ASCII lower-casing and substring tests for column names,
 * Python's `str` of an integer, and identifier normalisation (removing every
 * occurrence of one character).
 */
module Text {
  import Tables

  function LowerChar(c: char): char
  {
    if 'A' <= c <= 'Z' then (c as int + 32) as char else c
  }

  /** `s.lower()` restricted to ASCII letters. */
  function Lower(s: string): (r: string)
    ensures |r| == |s|
  {
    seq(|s|, i requires 0 <= i < |s| => LowerChar(s[i]))
  }

  predicate IsPrefix(part: string, s: string)
  {
    |part| <= |s| && s[..|part|] == part
  }

  /** Python's `part in s` on strings. */
  predicate Contains(s: string, part: string)
    decreases |s|
  {
    IsPrefix(part, s) || (s != [] && Contains(s[1..], part))
  }

  function DigitChar(d: nat): char
    requires d < 10
  {
    "0123456789"[d]
  }

  function NatToString(n: nat): (r: string)
    ensures |r| > 0
  {
    if n < 10 then [DigitChar(n)] else NatToString(n / 10) + [DigitChar(n % 10)]
  }

  /** Python's `str(i)` for an integer. */
  function IntToString(i: int): string
  {
    if i < 0 then "-" + NatToString(-i) else NatToString(i)
  }

  /** The mask "this character is not `c`". */
  function IsNot(c: char): char -> bool
  {
    x => x != c
  }

  /** `''.join(s.split(c))`: `s` with every occurrence of `c` removed. */
  function Strip(s: string, c: char): (r: string)
    ensures c !in r
    ensures forall x :: x != c ==> (x in r <==> x in s)
    ensures Tables.IsSubsequence(r, s)
    ensures multiset(r) == multiset(s)[c := 0]
  {
    Tables.FilterMultiset(s, IsNot(c));
    Tables.Filter(s, IsNot(c))
  }

  /** Stripping a character from a string that does not contain it changes nothing. */
  lemma {:induction false} StripAbsent(s: string, c: char)
    requires c !in s
    ensures Strip(s, c) == s
  {
    Tables.FilterKeepsAll(s, IsNot(c));
  }

  /** Normalising twice is normalising once. */
  lemma {:induction false} StripIdempotent(s: string, c: char)
    ensures Strip(Strip(s, c), c) == Strip(s, c)
  {
    StripAbsent(Strip(s, c), c);
  }
}
