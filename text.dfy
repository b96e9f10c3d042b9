/**
 * Character classes and string operations used by both the engine and the
 * client: upper-casing (`str.upper()` / `toUpperCase()`, ASCII letters
 * only), the white-space class of JavaScript's `trim()` and `\s`, and
 * `trim()` itself.
 */
module Text {

  predicate IsLower(c: char) { 'a' <= c <= 'z' }

  predicate IsUpper(c: char) { 'A' <= c <= 'Z' }

  predicate IsDigit(c: char) { '0' <= c <= '9' }

  /** Upper-cases an ASCII letter; every other character is left as it is. */
  function UpperChar(c: char): char {
    if IsLower(c) then (c as int - 32) as char else c
  }

  /** `s.upper()` / `s.toUpperCase()` on ASCII text. */
  function Upper(s: string): (u: string)
    ensures |u| == |s|
    ensures forall i :: 0 <= i < |s| ==> !IsLower(u[i])
    ensures forall i :: 0 <= i < |s| ==> UpperChar(s[i]) == u[i]
  {
    seq(|s|, i requires 0 <= i < |s| => UpperChar(s[i]))
  }

  /** Upper-casing changes exactly the lower-case letters, each to its capital. */
  lemma {:induction false} UpperCharMeaning(c: char)
    ensures IsLower(c) ==> IsUpper(UpperChar(c)) && UpperChar(c) as int + 32 == c as int
    ensures !IsLower(c) ==> UpperChar(c) == c
  {
  }

  /** Upper-casing twice is upper-casing once. */
  lemma {:induction false} UpperIdempotent(s: string)
    ensures Upper(Upper(s)) == Upper(s)
  {
  }

  /** Upper-casing distributes over concatenation. */
  lemma {:induction false} UpperAppend(s: string, t: string)
    ensures Upper(s + t) == Upper(s) + Upper(t)
  {
  }

  /** Two characters are the same letter up to ASCII case, or equal. */
  predicate SameUpToCase(a: char, b: char) {
    a == b || (IsLower(a) && b as int + 32 == a as int) || (IsLower(b) && a as int + 32 == b as int)
  }

  /** Two words that differ at most in the case of their ASCII letters. */
  predicate SameWordUpToCase(w1: string, w2: string) {
    |w1| == |w2| && forall i :: 0 <= i < |w1| ==> SameUpToCase(w1[i], w2[i])
  }

  /** Upper-casing makes two words equal exactly when they differ only in case. */
  lemma {:induction false} UpperEqualIff(w1: string, w2: string)
    ensures Upper(w1) == Upper(w2) <==> SameWordUpToCase(w1, w2)
  {
    if Upper(w1) == Upper(w2) {
      forall i | 0 <= i < |w1| ensures SameUpToCase(w1[i], w2[i]) {
        assert UpperChar(w1[i]) == Upper(w1)[i] == Upper(w2)[i] == UpperChar(w2[i]);
      }
    }
    if SameWordUpToCase(w1, w2) {
      forall i | 0 <= i < |w1| ensures Upper(w1)[i] == Upper(w2)[i] {
        assert SameUpToCase(w1[i], w2[i]);
      }
    }
  }

  /**
   * `s.length` in JavaScript: the number of UTF-16 code units, two for
   * each character beyond the Basic Multilingual Plane.
   */
  function Utf16Length(s: string): (n: nat)
    ensures |s| <= n <= 2 * |s|
    decreases |s|
  {
    if |s| == 0 then 0
    else Utf16Length(s[..|s| - 1]) + (if s[|s| - 1] as int > 0xFFFF then 2 else 1)
  }

  /** Text within the Basic Multilingual Plane has one code unit per character. */
  lemma {:induction false} Utf16LengthBmp(s: string)
    requires forall i :: 0 <= i < |s| ==> s[i] as int <= 0xFFFF
    ensures Utf16Length(s) == |s|
    decreases |s|
  {
    if |s| > 0 {
      Utf16LengthBmp(s[..|s| - 1]);
    }
  }

  /** A character beyond the Basic Multilingual Plane is two code units. */
  lemma {:induction false} Utf16LengthAstral(c: char)
    requires c as int > 0xFFFF
    ensures Utf16Length([c]) == 2
  {
    assert [c][..0] == [];
  }

  /**
   * JavaScript's WhiteSpace and LineTerminator characters: what `trim()`
   * strips and `\s` matches.
   */
  predicate IsJsSpace(c: char) {
    c == '\t' || c == '\n' || c == '\U{000B}' || c == '\U{000C}' || c == '\r' || c == ' '
    || c == '\U{00A0}' || c == '\U{1680}' || ('\U{2000}' <= c <= '\U{200A}')
    || c == '\U{2028}' || c == '\U{2029}' || c == '\U{202F}' || c == '\U{205F}'
    || c == '\U{3000}' || c == '\U{FEFF}'
  }

  /** Index of the first non-space character at or after `i`, or `|s|`. */
  function SkipSpaces(s: string, i: nat): (j: nat)
    requires i <= |s|
    ensures i <= j <= |s|
    ensures forall k :: i <= k < j ==> IsJsSpace(s[k])
    ensures j < |s| ==> !IsJsSpace(s[j])
    decreases |s| - i
  {
    if i == |s| || !IsJsSpace(s[i]) then i else SkipSpaces(s, i + 1)
  }

  /** One past the last non-space character before `j`, or `lo` when there is none from `lo` on. */
  function SkipSpacesBack(s: string, lo: nat, j: nat): (k: nat)
    requires lo <= j <= |s|
    ensures lo <= k <= j
    ensures forall m :: k <= m < j ==> IsJsSpace(s[m])
    ensures k > lo ==> !IsJsSpace(s[k - 1])
    decreases j
  {
    if j == lo || !IsJsSpace(s[j - 1]) then j else SkipSpacesBack(s, lo, j - 1)
  }

  /**
   * `s.trim()`: the longest slice of `s` that neither starts nor ends with
   * white space; only white space is cut off on either side.
   */
  function Trim(s: string): (t: string)
    ensures exists i, j :: 0 <= i <= j <= |s| && t == s[i..j]
                           && (forall k :: 0 <= k < i ==> IsJsSpace(s[k]))
                           && (forall k :: j <= k < |s| ==> IsJsSpace(s[k]))
    ensures |t| > 0 ==> !IsJsSpace(t[0]) && !IsJsSpace(t[|t| - 1])
  {
    var i := SkipSpaces(s, 0);
    var j := SkipSpacesBack(s, i, |s|);
    s[i..j]
  }

  /** A string that is all white space trims to the empty string, and only such a string does. */
  lemma {:induction false} TrimEmptyIffAllSpace(s: string)
    ensures Trim(s) == [] <==> forall k :: 0 <= k < |s| ==> IsJsSpace(s[k])
  {
    var i := SkipSpaces(s, 0);
    var j := SkipSpacesBack(s, i, |s|);
    if Trim(s) == [] {
      assert i == j;
    }
  }

  /** Trimming is idempotent. */
  lemma {:induction false} TrimIdempotent(s: string)
    ensures Trim(Trim(s)) == Trim(s)
  {
    var t := Trim(s);
    if |t| > 0 {
      assert SkipSpaces(t, 0) == 0;
      assert SkipSpacesBack(t, 0, |t|) == |t|;
      assert t[0..|t|] == t;
    }
  }

  /** `s.split(sep)` for a one-character separator: the pieces between the separators, in order. */
  function Split(s: string, sep: char): (parts: seq<string>)
    ensures |parts| > 0
    decreases |s|
  {
    if sep !in s then [s]
    else
      var i := FirstIndex(s, sep);
      [s[..i]] + Split(s[i + 1..], sep)
  }

  /** The index of the first `c` in `s`. */
  function FirstIndex(s: string, c: char): (i: nat)
    requires c in s
    ensures i < |s| && s[i] == c && c !in s[..i]
  {
    if s[0] == c then 0 else 1 + FirstIndex(s[1..], c)
  }

  /** A `c` with no `c` before it is the first one. */
  lemma {:induction false} FirstIndexAt(s: string, c: char, j: nat)
    requires j < |s| && s[j] == c && c !in s[..j]
    ensures FirstIndex(s, c) == j
  {
    if j > 0 {
      assert s[0] in s[..j];
      assert s[1..][..j - 1] == s[1..j];
      assert forall x :: x in s[1..j] ==> x in s[..j];
      FirstIndexAt(s[1..], c, j - 1);
    }
  }

  /** Splitting `a + sep + b` where neither side holds the separator gives the two sides. */
  lemma {:induction false} SplitPair(a: string, b: string, sep: char)
    requires sep !in a && sep !in b
    ensures Split(a + [sep] + b, sep) == [a, b]
  {
    var s := a + [sep] + b;
    assert s[|a|] == sep;
    assert s[..|a|] == a;
    FirstIndexAt(s, sep, |a|);
    assert s[|a| + 1..] == b;
  }
}
