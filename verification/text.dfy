/**
 * The few pieces of Python's `str` behaviour the quiz relies on:
 * `strip()`, `lower()`, `str(n)` for a non-negative `int`, and the
 * substring test `needle in haystack`.
 */
module Text {

  /** The characters for which Python's `str.isspace()` holds. */
  const Whitespace: string :=
    "\t\n\U{B}\U{C}\r\U{1C}\U{1D}\U{1E}\U{1F} \U{85}\U{A0}\U{1680}\U{2000}\U{2001}\U{2002}\U{2003}"
    + "\U{2004}\U{2005}\U{2006}\U{2007}\U{2008}\U{2009}\U{200A}\U{2028}\U{2029}\U{202F}\U{205F}\U{3000}"

  /** The characters that `str.strip()` removes. */
  predicate IsSpace(c: char) {
    OneOf(c, Whitespace)
  }

  /** `c` is one of the characters of `chars`. */
  predicate OneOf(c: char, chars: string) {
    chars != [] && (c == chars[0] || OneOf(c, chars[1..]))
  }

  /** `OneOf` is membership: it holds exactly when `c` sits at some position of `chars`. */
  lemma {:induction false} OneOfIsIn(c: char, chars: string)
    ensures OneOf(c, chars) <==> c in chars
  {
    if chars != [] {
      OneOfIsIn(c, chars[1..]);
      assert chars == [chars[0]] + chars[1..];
    }
  }

  /** The first position at or after `i` that does not hold whitespace (or `|s|`). */
  function SkipForward(s: string, i: nat): (k: nat)
    requires i <= |s|
    ensures i <= k <= |s|
    decreases |s| - i
  {
    if i < |s| && IsSpace(s[i]) then SkipForward(s, i + 1) else i
  }

  /** `SkipForward` passes over whitespace only and stops at the first other character. */
  lemma {:induction false} SkipForwardSpec(s: string, i: nat)
    requires i <= |s|
    ensures forall k :: i <= k < SkipForward(s, i) ==> IsSpace(s[k])
    ensures SkipForward(s, i) == |s| || !IsSpace(s[SkipForward(s, i)])
    decreases |s| - i
  {
    if i < |s| && IsSpace(s[i]) {
      SkipForwardSpec(s, i + 1);
    }
  }

  /**
   * The end of the slice `s[lo..j]` once its trailing whitespace is dropped:
   * the smallest `k >= lo` such that `s[k..j]` is all whitespace.
   */
  function SkipBackward(s: string, lo: nat, j: nat): (k: nat)
    requires lo <= j <= |s|
    ensures lo <= k <= j
    decreases j
  {
    if j > lo && IsSpace(s[j - 1]) then SkipBackward(s, lo, j - 1) else j
  }

  /** `SkipBackward` passes over whitespace only and stops after the last other character. */
  lemma {:induction false} SkipBackwardSpec(s: string, lo: nat, j: nat)
    requires lo <= j <= |s|
    ensures forall k :: SkipBackward(s, lo, j) <= k < j ==> IsSpace(s[k])
    ensures SkipBackward(s, lo, j) == lo || !IsSpace(s[SkipBackward(s, lo, j) - 1])
    decreases j
  {
    if j > lo && IsSpace(s[j - 1]) {
      SkipBackwardSpec(s, lo, j - 1);
    }
  }

  /** Python's `s.strip()` with no argument. */
  function Strip(s: string): (r: string)
    ensures |r| <= |s|
  {
    var i := SkipForward(s, 0);
    s[i..SkipBackward(s, i, |s|)]
  }

  /** Every character of `s` is whitespace. */
  predicate AllSpace(s: string) {
    forall k :: 0 <= k < |s| ==> IsSpace(s[k])
  }

  /**
   * What `strip()` promises: the result is a slice of the input with no
   * whitespace at either end, every character cut away is whitespace, and
   * the result is empty exactly when the input is all whitespace.
   */
  lemma StripSpec(s: string)
    ensures exists i, j :: 0 <= i <= j <= |s| && Strip(s) == s[i..j] && AllSpace(s[..i]) && AllSpace(s[j..])
    ensures Strip(s) == [] || (!IsSpace(Strip(s)[0]) && !IsSpace(Strip(s)[|Strip(s)| - 1]))
    ensures Strip(s) == [] <==> AllSpace(s)
  {
    var i := SkipForward(s, 0);
    var j := SkipBackward(s, i, |s|);
    SkipForwardSpec(s, 0);
    SkipBackwardSpec(s, i, |s|);
    assert AllSpace(s[..i]) by {
      forall k | 0 <= k < i ensures IsSpace(s[..i][k]) {
        assert s[..i][k] == s[k];
      }
    }
    assert AllSpace(s[j..]) by {
      forall k | 0 <= k < |s| - j ensures IsSpace(s[j..][k]) {
        assert s[j..][k] == s[j + k];
      }
    }
  }

  /** Python's `str.lower()` on one character, for the ASCII letters. */
  function LowerChar(c: char): char {
    if 'A' <= c <= 'Z' then (c as int + 32) as char else c
  }

  /** Python's `s.lower()`, restricted to ASCII case folding. */
  function Lower(s: string): (r: string)
    ensures |r| == |s|
  {
    if s == [] then [] else [LowerChar(s[0])] + Lower(s[1..])
  }

  /** Folding works character by character. */
  lemma {:induction false} LowerPointwise(s: string)
    ensures forall i :: 0 <= i < |s| ==> Lower(s)[i] == LowerChar(s[i])
  {
    if s != [] {
      LowerPointwise(s[1..]);
    }
  }

  /** Two characters fold to the same one exactly when they are equal or are one letter in two cases. */
  lemma LowerCharEqual(a: char, b: char)
    ensures LowerChar(a) == LowerChar(b) <==>
            a == b
            || ('A' <= a <= 'Z' && b as int == a as int + 32)
            || ('A' <= b <= 'Z' && a as int == b as int + 32)
  {
  }

  /** Folding twice is folding once. */
  lemma {:induction false} LowerIdempotent(s: string)
    ensures Lower(Lower(s)) == Lower(s)
  {
    if s != [] {
      LowerIdempotent(s[1..]);
    }
  }

  predicate IsDigit(c: char) {
    '0' <= c <= '9'
  }

  function DigitChar(d: nat): (c: char)
    requires d < 10
    ensures IsDigit(c) && c as int - '0' as int == d
  {
    ('0' as int + d) as char
  }

  /** Python's `str(n)` for `n >= 0`: decimal digits, no leading zero. */
  function NatToString(n: nat): (r: string)
    ensures |r| > 0 && forall i :: 0 <= i < |r| ==> IsDigit(r[i])
    ensures |r| > 1 ==> r[0] != '0'
  {
    if n < 10 then [DigitChar(n)] else NatToString(n / 10) + [DigitChar(n % 10)]
  }

  function DigitValue(c: char): (d: nat)
    requires IsDigit(c)
    ensures d < 10
  {
    c as int - '0' as int
  }

  /** Reads a string of decimal digits back as a number. */
  function ParseNat(s: string): nat
    requires forall i :: 0 <= i < |s| ==> IsDigit(s[i])
  {
    if s == [] then 0 else 10 * ParseNat(s[..|s| - 1]) + DigitValue(s[|s| - 1])
  }

  /** `str(n)` loses nothing: the number can be read back from its digits. */
  lemma {:induction false} ParseNatToString(n: nat)
    ensures ParseNat(NatToString(n)) == n
  {
    if n >= 10 {
      var r := NatToString(n);
      assert r[..|r| - 1] == NatToString(n / 10);
      ParseNatToString(n / 10);
    }
  }

  /** Python's `needle in haystack` for strings. */
  predicate Contains(haystack: string, needle: string)
    decreases |haystack|
  {
    |needle| <= |haystack| && (haystack[..|needle|] == needle || Contains(haystack[1..], needle))
  }

  /** `needle` occurs in `haystack` starting at position `i`. */
  predicate OccursAt(haystack: string, needle: string, i: nat) {
    i + |needle| <= |haystack| && haystack[i..i + |needle|] == needle
  }

  /** The substring test finds `needle` exactly when it starts at some position of `haystack`. */
  lemma {:induction false} ContainsAt(haystack: string, needle: string)
    ensures Contains(haystack, needle) <==> exists i: nat :: OccursAt(haystack, needle, i)
    decreases |haystack|
  {
    if Contains(haystack, needle) {
      if haystack[..|needle|] == needle {
        assert OccursAt(haystack, needle, 0);
      } else {
        ContainsAt(haystack[1..], needle);
        var i: nat :| OccursAt(haystack[1..], needle, i);
        assert OccursAt(haystack, needle, i + 1) by {
          assert haystack[i + 1..i + 1 + |needle|] == haystack[1..][i..i + |needle|];
        }
      }
    }
    if exists i: nat :: OccursAt(haystack, needle, i) {
      var i: nat :| OccursAt(haystack, needle, i);
      if i > 0 {
        assert OccursAt(haystack[1..], needle, i - 1) by {
          assert haystack[1..][i - 1..i - 1 + |needle|] == haystack[i..i + |needle|];
        }
        ContainsAt(haystack[1..], needle);
      }
    }
  }

  /** A needle whose first character starts no window of the haystack does not occur in it. */
  lemma {:induction false} NotContainsByFirst(haystack: string, needle: string)
    requires |needle| > 0
    requires forall i :: 0 <= i && i + |needle| <= |haystack| ==> haystack[i] != needle[0]
    ensures !Contains(haystack, needle)
  {
    ContainsAt(haystack, needle);
    assert forall i: nat :: OccursAt(haystack, needle, i) ==> haystack[i..i + |needle|][0] == haystack[i];
  }
}
