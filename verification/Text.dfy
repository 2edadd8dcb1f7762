/** Character-level helpers for the string comparisons the monitor makes. Only the ASCII
    case mapping is modelled: the strings compared case-insensitively are ASCII literals. */
module Text {

  function ToUpperAscii(c: char): char
  {
    if 'a' <= c <= 'z' then (c as int - 32) as char else c
  }

  function ToLowerAscii(c: char): char
  {
    if 'A' <= c <= 'Z' then (c as int + 32) as char else c
  }

  /** `string.Equals(a, b, StringComparison.OrdinalIgnoreCase)`: same length, and equal
      character by character after upper-casing both sides. */
  predicate EqualsOrdinalIgnoreCase(a: string, b: string)
  {
    |a| == |b| && forall i :: 0 <= i < |a| ==> ToUpperAscii(a[i]) == ToUpperAscii(b[i])
  }

  function ToLower(s: string): (r: string)
    ensures |r| == |s|
    ensures forall i :: 0 <= i < |s| ==> r[i] == ToLowerAscii(s[i])
  {
    if s == [] then [] else [ToLowerAscii(s[0])] + ToLower(s[1..])
  }

  predicate HasNoUpperAscii(s: string)
  {
    forall i :: 0 <= i < |s| ==> !('A' <= s[i] <= 'Z')
  }

  /** Against a pattern with no upper-case letter, comparing ignoring case is the same as
      lower-casing the other side and comparing exactly. */
  lemma CharIgnoreCase(p: char, c: char)
    requires !('A' <= p <= 'Z')
    ensures ToUpperAscii(p) == ToUpperAscii(c) <==> p == ToLowerAscii(c)
  {
  }

  lemma IgnoreCaseIsLowerEquality(pattern: string, s: string)
    requires HasNoUpperAscii(pattern)
    ensures EqualsOrdinalIgnoreCase(pattern, s) <==> pattern == ToLower(s)
  {
  }
}
