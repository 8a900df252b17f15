/**
 * Case-insensitive comparison of strings, as `String.equalsIgnoreCase` and
 * `String.toLowerCase` do it, restricted to ASCII letters.
 */
module Text {

  predicate IsUpper(c: char) {
    'A' <= c <= 'Z'
  }

  /** One character folded to lower case; only `A`..`Z` change. */
  function LowerChar(c: char): char {
    if IsUpper(c) then (c as int + 32) as char else c
  }

  /**
   * `s.toLowerCase()` for ASCII text: the result has no capital letter, and
   * it differs from `s` exactly at the capitals, each moved to its small letter.
   */
  function Lower(s: string): (r: string)
    ensures |r| == |s| && IsLowerCase(r)
    ensures forall i :: 0 <= i < |s| ==> (r[i] != s[i] <==> IsUpper(s[i]))
    ensures forall i :: 0 <= i < |s| && IsUpper(s[i]) ==> r[i] as int == s[i] as int + 32
  {
    seq(|s|, i requires 0 <= i < |s| => LowerChar(s[i]))
  }

  /** `a.equalsIgnoreCase(b)`: same length and equal character by character after folding. */
  predicate EqualsIgnoreCase(a: string, b: string) {
    |a| == |b| && forall i :: 0 <= i < |a| ==> LowerChar(a[i]) == LowerChar(b[i])
  }

  /** `names.contains(arg.toLowerCase())` */
  predicate IsOneOf(arg: string, names: seq<string>) {
    Lower(arg) in names
  }

  predicate IsLowerCase(s: string) {
    forall i :: 0 <= i < |s| ==> !IsUpper(s[i])
  }

  /** Comparing ignoring case is the same as comparing the lower-cased forms. */
  lemma EqualsIgnoreCaseIffLowerEqual(a: string, b: string)
    ensures EqualsIgnoreCase(a, b) <==> Lower(a) == Lower(b)
  {
    if Lower(a) == Lower(b) {
      forall i | 0 <= i < |a| ensures LowerChar(a[i]) == LowerChar(b[i]) {
        assert Lower(a)[i] == Lower(b)[i];
      }
    }
  }

  /** Against an all-lower-case name, ignoring case means: the lower-cased argument is that name. */
  lemma MatchLowerCaseName(name: string, arg: string)
    requires IsLowerCase(name)
    ensures EqualsIgnoreCase(name, arg) <==> Lower(arg) == name
  {
    EqualsIgnoreCaseIffLowerEqual(name, arg);
    assert Lower(name) == name;
  }

  /** Code points from U+10000 on are written in UTF-16 as a surrogate pair. */
  predicate IsSupplementary(c: char) {
    c as int >= 0x1_0000
  }

  /**
   * `s.length()`: the number of UTF-16 code units, one per character of the
   * Basic Multilingual Plane and two per supplementary character.
   */
  function Utf16Length(s: string): (n: nat)
    ensures |s| <= n <= 2 * |s|
  {
    if |s| == 0 then 0
    else (if IsSupplementary(s[0]) then 2 else 1) + Utf16Length(s[1..])
  }

  /** Without supplementary characters, the UTF-16 length is the number of characters. */
  lemma {:induction false} Utf16LengthWithoutSurrogates(s: string)
    requires forall i :: 0 <= i < |s| ==> !IsSupplementary(s[i])
    ensures Utf16Length(s) == |s|
  {
    if |s| > 0 {
      Utf16LengthWithoutSurrogates(s[1..]);
    }
  }
}
