/** String helpers with the meaning the Java library gives them. */
module Text {
  import opened Wrappers

  /** `String.trim()` strips every char at or below U+0020, so a string is blank when all its chars are. */
  predicate IsBlank(s: string) {
    forall i :: 0 <= i < |s| ==> s[i] <= ' '
  }

  /**
   * `String.trim()`: drops the chars at or below U+0020 from both ends. Nothing is left exactly when
   * the string is blank.
   */
  function Trim(s: string): (r: string)
    ensures |r| <= |s|
    ensures r != [] ==> r[0] > ' ' && r[|r| - 1] > ' '
    ensures r == [] <==> IsBlank(s)
    decreases |s|
  {
    if s == [] then []
    else if s[0] <= ' ' then
      assert IsBlank(s) <==> IsBlank(s[1..]) by {
        assert forall i :: 1 <= i < |s| ==> s[i] == s[1..][i - 1];
      }
      Trim(s[1..])
    else if s[|s| - 1] <= ' ' then
      assert s[..|s| - 1][0] > ' ';
      Trim(s[..|s| - 1])
    else s
  }

  /** Hibernate's `NotBlank`: non-null and something left after trimming. */
  predicate NotBlank(s: Option<string>) {
    s.Some? && !IsBlank(s.value)
  }

  /** The UTF-16 code units of one code point: two (a surrogate pair) above the Basic Multilingual Plane. */
  function Utf16Units(c: char): (n: nat)
    ensures n == 1 || n == 2
    ensures n == 2 <==> c as int >= 0x10000
  {
    if c as int >= 0x10000 then 2 else 1
  }

  /** `String.length()`: the number of UTF-16 code units, not of code points. */
  function Utf16Length(s: string): (n: nat)
    ensures |s| <= n <= 2 * |s|
    ensures n == 0 <==> s == []
  {
    if s == [] then 0 else Utf16Units(s[0]) + Utf16Length(s[1..])
  }

  /** Text inside the Basic Multilingual Plane has one code unit per code point. */
  lemma {:induction false} Utf16LengthOfBmp(s: string)
    requires forall i :: 0 <= i < |s| ==> s[i] as int < 0x10000
    ensures Utf16Length(s) == |s|
  {
    if s != [] {
      Utf16LengthOfBmp(s[1..]);
    }
  }

  /** Text made only of supplementary code points (emoji, say) has two code units per code point. */
  lemma {:induction false} Utf16LengthOfSupplementary(s: string)
    requires forall i :: 0 <= i < |s| ==> s[i] as int >= 0x10000
    ensures Utf16Length(s) == 2 * |s|
  {
    if s != [] {
      Utf16LengthOfSupplementary(s[1..]);
    }
  }

  /** Hibernate's `Size(min, max)` on a CharSequence: a null value passes; otherwise `length()` is in range. */
  predicate SizeWithin(s: Option<string>, min: nat, max: nat)
    ensures s.Some? && |s.value| > max ==> !SizeWithin(s, min, max)
    ensures s.Some? && 2 * |s.value| < min ==> !SizeWithin(s, min, max)
    ensures s.Some? && min <= |s.value| && 2 * |s.value| <= max ==> SizeWithin(s, min, max)
  {
    s.None? || min <= Utf16Length(s.value) <= max
  }

  /** Lower-casing of one char, for the ASCII letters. */
  function LowerChar(c: char): (d: char)
    ensures 'A' <= c <= 'Z' ==> 'a' <= d <= 'z'
    ensures !('A' <= c <= 'Z') ==> d == c
  {
    if 'A' <= c <= 'Z' then (c as int + 32) as char else c
  }

  /** `String.toLowerCase()`, restricted to the ASCII letters. */
  function ToLower(s: string): (r: string)
    ensures |r| == |s|
    ensures forall i :: 0 <= i < |s| ==> r[i] == LowerChar(s[i])
  {
    if s == [] then [] else [LowerChar(s[0])] + ToLower(s[1..])
  }

  /**
   * The ASCII letter, in lower case, that `c` matches under `equalsIgnoreCase`. Java compares two chars
   * by their upper case and then by the lower case of that; besides the ASCII letters themselves only
   * four chars reach an ASCII letter that way: dotted and dotless I (U+0130, U+0131) reach 'i', the
   * long s (U+017F) reaches 's' and the Kelvin sign (U+212A) reaches 'k'.
   */
  function FoldChar(c: char): (r: Option<char>)
    ensures r.Some? ==> 'a' <= r.value <= 'z'
    ensures c < '\U{80}' ==> (r.Some? <==> 'a' <= LowerChar(c) <= 'z') && (r.Some? ==> r.value == LowerChar(c))
  {
    if 'a' <= c <= 'z' || 'A' <= c <= 'Z' then Some(LowerChar(c))
    else if c == '\U{130}' || c == '\U{131}' then Some('i')
    else if c == '\U{17F}' then Some('s')
    else if c == '\U{212A}' then Some('k')
    else None
  }

  /** Two chars are equal ignoring case: the same char, or both matching the same ASCII letter. */
  predicate CharEqualsIgnoreCase(c: char, d: char) {
    c == d || (FoldChar(c).Some? && FoldChar(c) == FoldChar(d))
  }

  /** `String.equalsIgnoreCase`: the same length and, position by position, chars equal ignoring case. */
  predicate EqualsIgnoreCase(a: string, b: string)
    ensures a == b ==> EqualsIgnoreCase(a, b)
    ensures EqualsIgnoreCase(a, b) ==> |a| == |b|
  {
    |a| == |b| && forall i :: 0 <= i < |a| ==> CharEqualsIgnoreCase(a[i], b[i])
  }

  /** The comparison is symmetric, as Java's is. */
  lemma EqualsIgnoreCaseSymmetric(a: string, b: string)
    ensures EqualsIgnoreCase(a, b) <==> EqualsIgnoreCase(b, a)
  {
  }

  /** Strings equal ignoring case have the same Java length, so the length test Java makes first agrees. */
  lemma {:induction false} EqualsIgnoreCaseSameLength(a: string, b: string)
    requires EqualsIgnoreCase(a, b)
    ensures Utf16Length(a) == Utf16Length(b)
  {
    if a != [] {
      assert CharEqualsIgnoreCase(a[0], b[0]);
      assert Utf16Units(a[0]) == Utf16Units(b[0]);
      assert EqualsIgnoreCase(a[1..], b[1..]) by {
        forall i | 0 <= i < |a[1..]|
          ensures CharEqualsIgnoreCase(a[1..][i], b[1..][i])
        {
          assert a[1..][i] == a[i + 1] && b[1..][i] == b[i + 1];
        }
      }
      EqualsIgnoreCaseSameLength(a[1..], b[1..]);
    }
  }

  /** On ASCII text the comparison is the same as comparing the lower-cased strings. */
  lemma AsciiEqualsIgnoreCase(a: string, b: string)
    requires forall i :: 0 <= i < |a| ==> a[i] < '\U{80}'
    requires forall i :: 0 <= i < |b| ==> b[i] < '\U{80}'
    ensures EqualsIgnoreCase(a, b) <==> ToLower(a) == ToLower(b)
  {
    if ToLower(a) == ToLower(b) {
      assert |a| == |b|;
      forall i | 0 <= i < |a|
        ensures CharEqualsIgnoreCase(a[i], b[i])
      {
        assert ToLower(a)[i] == ToLower(b)[i];
      }
    }
    if EqualsIgnoreCase(a, b) {
      forall i | 0 <= i < |a|
        ensures ToLower(a)[i] == ToLower(b)[i]
      {
        assert CharEqualsIgnoreCase(a[i], b[i]);
      }
    }
  }

  /** Java's string concatenation of a possibly-null String: `null` prints as "null". */
  function Show(s: Option<string>): string {
    if s.None? then "null" else s.value
  }

  function DigitChar(d: nat): (c: char)
    requires d < 10
    ensures '0' <= c <= '9'
  {
    (d + '0' as int) as char
  }

  /** The decimal form of a natural number, as `Long.toString` prints it. */
  function NatToString(n: nat): (s: string)
    ensures |s| >= 1
    ensures forall i :: 0 <= i < |s| ==> '0' <= s[i] <= '9'
  {
    if n < 10 then [DigitChar(n)] else NatToString(n / 10) + [DigitChar(n % 10)]
  }

  /** The decimal form of any integer, with a leading '-' when negative. */
  function IntToString(n: int): (s: string)
    ensures |s| >= 1
    ensures (n < 0) == (s[0] == '-')
  {
    if n < 0 then "-" + NatToString(-n) else NatToString(n)
  }

  predicate StartsWith(s: string, prefix: string) {
    |prefix| <= |s| && s[..|prefix|] == prefix
  }

  predicate EndsWith(s: string, suffix: string) {
    |suffix| <= |s| && s[|s| - |suffix|..] == suffix
  }
}
