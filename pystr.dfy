/**
 * The handful of Python `str` methods the game relies on, restricted to ASCII:
 * `isalnum`, `lower`, `capitalize`, `replace` and the decimal `int(...)` parse.
 */
module PyStr {

  predicate IsDigitChar(c: char) { '0' <= c <= '9' }

  predicate IsLetterChar(c: char) { 'a' <= c <= 'z' || 'A' <= c <= 'Z' }

  predicate IsAlnumChar(c: char) { IsDigitChar(c) || IsLetterChar(c) }

  /** `s.isalnum()`: true for a non-empty string made only of letters and digits. */
  predicate IsAlnum(s: string) {
    |s| > 0 && forall i :: 0 <= i < |s| ==> IsAlnumChar(s[i])
  }

  /** The strings `int(s)` accepts among the alphanumeric ones: non-empty runs of decimal digits. */
  predicate IsDigits(s: string) {
    |s| > 0 && forall i :: 0 <= i < |s| ==> IsDigitChar(s[i])
  }

  function LowerChar(c: char): (r: char)
    ensures IsLetterChar(c) ==> 'a' <= r <= 'z'
    ensures !('A' <= c <= 'Z') ==> r == c
  {
    if 'A' <= c <= 'Z' then (c as int + 32) as char else c
  }

  function UpperChar(c: char): (r: char)
    ensures IsLetterChar(c) ==> 'A' <= r <= 'Z'
    ensures !('a' <= c <= 'z') ==> r == c
  {
    if 'a' <= c <= 'z' then (c as int - 32) as char else c
  }

  /** `s.lower()`: every upper-case letter replaced by its lower-case partner. */
  function Lower(s: string): (r: string)
    ensures |r| == |s|
    ensures forall i :: 0 <= i < |s| ==> r[i] == LowerChar(s[i])
    ensures (forall i :: 0 <= i < |s| ==> !('A' <= s[i] <= 'Z')) ==> r == s
  {
    if s == [] then [] else [LowerChar(s[0])] + Lower(s[1..])
  }

  /** `s.capitalize()`: the first character upper-cased, all others lower-cased. */
  function Capitalize(s: string): (r: string)
    ensures |r| == |s|
    ensures |s| > 0 ==> r[0] == UpperChar(s[0])
    ensures forall i :: 0 < i < |s| ==> r[i] == LowerChar(s[i])
  {
    if s == [] then [] else [UpperChar(s[0])] + Lower(s[1..])
  }

  /** `s.replace(target, replacement)` for a one-character `target`: every occurrence of `target` becomes `replacement`. */
  function Replace(s: string, target: char, replacement: string): (r: string)
    ensures target !in replacement ==> target !in r
    ensures target !in s ==> r == s
    ensures forall i :: 0 <= i < |r| ==> r[i] in s || r[i] in replacement
    ensures |replacement| >= 1 ==> |r| >= |s|
    ensures |s| == 1 ==> r == (if s[0] == target then replacement else s)
  {
    if s == [] then []
    else (if s[0] == target then replacement else [s[0]]) + Replace(s[1..], target, replacement)
  }

  /** Replacing distributes over concatenation. */
  lemma {:induction false} ReplaceConcat(s: string, t: string, target: char, replacement: string)
    ensures Replace(s + t, target, replacement) == Replace(s, target, replacement) + Replace(t, target, replacement)
  {
    if s != [] {
      var head := if s[0] == target then replacement else [s[0]];
      assert (s + t)[0] == s[0];
      assert (s + t)[1..] == s[1..] + t;
      assert Replace(s + t, target, replacement) == head + Replace(s[1..] + t, target, replacement);
      assert Replace(s, target, replacement) == head + Replace(s[1..], target, replacement);
      ReplaceConcat(s[1..], t, target, replacement);
    } else {
      assert s + t == t;
    }
  }

  /** Replacing in `p + [target, c]` when only the one `target` occurs. */
  lemma ReplaceOne(p: string, target: char, c: char, replacement: string)
    requires target !in p && c != target
    ensures Replace(p + [target] + [c], target, replacement) == p + replacement + [c]
  {
    ReplaceConcat(p + [target], [c], target, replacement);
    ReplaceConcat(p, [target], target, replacement);
  }

  /**
   * CPython's default `sys.get_int_max_str_digits()`: `int(s)` raises `ValueError`
   * on a decimal string with more digits than this (leading zeros included).
   */
  const IntMaxStrDigits: nat := 4300

  /** The value `int(s)` gives for a string of decimal digits. */
  function DigitsValue(s: string): nat
    requires forall i :: 0 <= i < |s| ==> IsDigitChar(s[i])
  {
    if s == [] then 0
    else
      assert IsDigitChar(s[|s| - 1]);
      10 * DigitsValue(s[..|s| - 1]) + (s[|s| - 1] as int - '0' as int)
  }

  /** Lower-casing twice is lower-casing once. */
  lemma LowerTwice(s: string)
    ensures Lower(Lower(s)) == Lower(s)
  {
    assert forall i :: 0 <= i < |s| ==> !('A' <= Lower(s)[i] <= 'Z');
  }

  /** Lower-casing yields `"y"` exactly for `"y"` and `"Y"`. */
  lemma LowerIsY(s: string)
    ensures Lower(s) == "y" <==> s == "y" || s == "Y"
  {
    if Lower(s) == "y" {
      assert |s| == 1 && LowerChar(s[0]) == 'y';
      assert s == [s[0]];
    }
  }

  /** Lower-casing yields `"n"` exactly for `"n"` and `"N"`. */
  lemma LowerIsN(s: string)
    ensures Lower(s) == "n" <==> s == "n" || s == "N"
  {
    if Lower(s) == "n" {
      assert |s| == 1 && LowerChar(s[0]) == 'n';
      assert s == [s[0]];
    }
  }

  /** A single digit parses to its own value. */
  lemma SingleDigit(c: char)
    requires IsDigitChar(c)
    ensures DigitsValue([c]) == c as int - '0' as int
  {
    assert [c][..0] == [];
  }
}
