/** The Kotlin string operations the app relies on, over Dafny strings
    (sequences of Unicode scalar values): `trim()`, `lowercase()`,
    `split(",")[0]`, `contains(..., ignoreCase = true)`, `String.length`
    (which counts UTF-16 code units) and `Int.toString()`. */
module Text {

  // ---------------------------------------------------------------------
  // Whitespace and trim()

  /** Kotlin's `Char.isWhitespace()` on the JVM: Java's `isWhitespace` or
      `isSpaceChar`, i.e. the ASCII controls TAB, LF, VT, FF, CR, FS, GS, RS,
      US and every space, line and paragraph separator. */
  predicate IsWhitespace(c: char) {
    || c == '\t' || c == '\n' || c == '\U{B}' || c == '\U{C}' || c == '\r'
    || ('\U{1C}' <= c <= '\U{1F}')
    || c == ' ' || c == '\U{A0}' || c == '\U{1680}'
    || ('\U{2000}' <= c <= '\U{200A}')
    || c == '\U{2028}' || c == '\U{2029}' || c == '\U{202F}' || c == '\U{205F}'
    || c == '\U{3000}'
  }

  ghost predicate AllWhitespace(s: string) {
    forall i :: 0 <= i < |s| ==> IsWhitespace(s[i])
  }

  /** Neither end of `s` is whitespace. */
  ghost predicate Trimmed(s: string) {
    |s| == 0 || (!IsWhitespace(s[0]) && !IsWhitespace(s[|s| - 1]))
  }

  /** `r` is `s` with its leading and trailing whitespace removed. */
  ghost predicate IsTrimOf(r: string, s: string) {
    exists i, j :: 0 <= i <= j <= |s| && r == s[i..j] &&
                   AllWhitespace(s[..i]) && AllWhitespace(s[j..]) && Trimmed(r)
  }

  /** Drops leading whitespace; `TrimStartSpec` says what is left. */
  function TrimStart(s: string): (r: string)
    ensures |r| <= |s|
    decreases |s|
  {
    if |s| > 0 && IsWhitespace(s[0]) then TrimStart(s[1..]) else s
  }

  /** Drops trailing whitespace; `TrimEndSpec` says what is left. */
  function TrimEnd(s: string): (r: string)
    ensures |r| <= |s|
    decreases |s|
  {
    if |s| > 0 && IsWhitespace(s[|s| - 1]) then TrimEnd(s[..|s| - 1]) else s
  }

  /** TrimStart keeps a suffix, cuts only whitespace, and stops at the first
      character that is not whitespace. */
  lemma {:induction false} TrimStartSpec(s: string)
    ensures TrimStart(s) == s[|s| - |TrimStart(s)|..]
    ensures AllWhitespace(s[..|s| - |TrimStart(s)|])
    ensures |TrimStart(s)| > 0 ==> !IsWhitespace(TrimStart(s)[0])
    decreases |s|
  {
    if |s| > 0 && IsWhitespace(s[0]) {
      TrimStartSpec(s[1..]);
      var n := |s| - |TrimStart(s)|;
      assert s[1..][n - 1..] == s[n..];
      forall i | 0 <= i < n
        ensures IsWhitespace(s[..n][i])
      {
        if i > 0 {
          assert s[..n][i] == s[1..][..n - 1][i - 1];
        }
      }
    }
  }

  /** TrimEnd keeps a prefix, cuts only whitespace, and stops at the last
      character that is not whitespace. */
  lemma {:induction false} TrimEndSpec(s: string)
    ensures TrimEnd(s) == s[..|TrimEnd(s)|]
    ensures AllWhitespace(s[|TrimEnd(s)|..])
    ensures |TrimEnd(s)| > 0 ==> !IsWhitespace(TrimEnd(s)[|TrimEnd(s)| - 1])
    decreases |s|
  {
    if |s| > 0 && IsWhitespace(s[|s| - 1]) {
      TrimEndSpec(s[..|s| - 1]);
      var n := |TrimEnd(s)|;
      assert s[..|s| - 1][..n] == s[..n];
      forall k | 0 <= k < |s| - n
        ensures IsWhitespace(s[n..][k])
      {
        if k < |s| - 1 - n {
          assert s[n..][k] == s[..|s| - 1][n..][k];
        }
      }
    }
  }

  /** `String.trim()`: the result neither starts nor ends with whitespace;
      `TrimIsTrimOf` says what it is cut from. */
  function Trim(s: string): (r: string)
    ensures |r| <= |s|
  {
    TrimEnd(TrimStart(s))
  }

  /** Trimming removes exactly the whitespace at both ends. */
  lemma TrimIsTrimOf(s: string)
    ensures IsTrimOf(Trim(s), s)
  {
    var t := TrimStart(s);
    var r := TrimEnd(t);
    var i := |s| - |t|;
    var j := i + |r|;
    TrimStartSpec(s);
    TrimEndSpec(t);
    assert Trim(s) == r;
    assert s[i..j] == r by {
      assert t == s[i..];
      assert r == t[..|r|];
    }
    assert AllWhitespace(s[j..]) by {
      assert s[j..] == t[|r|..];
    }
    assert Trimmed(r) by {
      if |r| > 0 {
        assert r[0] == t[0];
      }
    }
  }

  lemma {:induction false} TrimStartAllWhitespace(s: string)
    requires AllWhitespace(s)
    ensures TrimStart(s) == ""
    decreases |s|
  {
    if |s| > 0 {
      TrimStartAllWhitespace(s[1..]);
    }
  }

  lemma {:induction false} TrimStartSkipsPrefix(pre: string, s: string)
    requires AllWhitespace(pre)
    ensures TrimStart(pre + s) == TrimStart(s)
    decreases |pre|
  {
    if |pre| > 0 {
      assert (pre + s)[0] == pre[0] && IsWhitespace(pre[0]);
      assert (pre + s)[1..] == pre[1..] + s;
      assert AllWhitespace(pre[1..]) by {
        assert forall i :: 0 <= i < |pre| - 1 ==> pre[1..][i] == pre[i + 1];
      }
      TrimStartSkipsPrefix(pre[1..], s);
    } else {
      assert pre + s == s;
    }
  }

  lemma {:induction false} TrimEndSkipsSuffix(s: string, post: string)
    requires AllWhitespace(post)
    ensures TrimEnd(s + post) == TrimEnd(s)
    decreases |post|
  {
    if |post| > 0 {
      var p := post[..|post| - 1];
      assert (s + post)[|s + post| - 1] == post[|post| - 1];
      assert IsWhitespace(post[|post| - 1]);
      assert (s + post)[..|s + post| - 1] == s + p;
      TrimEndSkipsSuffix(s, p);
    } else {
      assert s + post == s;
    }
  }

  /** Whitespace after a string survives TrimStart, unless the string is
      blank, in which case everything goes. */
  lemma {:induction false} TrimStartKeepsSuffix(s: string, post: string)
    requires AllWhitespace(post)
    ensures || TrimStart(s + post) == TrimStart(s) + post
            || (TrimStart(s) == "" && TrimStart(s + post) == "")
    decreases |s|
  {
    if |s| == 0 {
      assert s + post == post;
      TrimStartAllWhitespace(post);
    } else if IsWhitespace(s[0]) {
      assert (s + post)[1..] == s[1..] + post;
      TrimStartKeepsSuffix(s[1..], post);
    }
  }

  /** Trimming a trimmed string changes nothing. */
  lemma TrimIdempotent(s: string)
    ensures Trim(Trim(s)) == Trim(s)
  {
    var r := Trim(s);
    var t := TrimStart(s);
    TrimStartSpec(s);
    TrimEndSpec(t);
    assert |r| > 0 ==> r[0] == t[0];
    assert Trim(r) == TrimEnd(TrimStart(r));
    assert |r| > 0 ==> TrimStart(r) == r;
    assert TrimStart(r) == r;
  }

  /** Whitespace around a string does not change its trim. */
  lemma TrimIgnoresPadding(pre: string, s: string, post: string)
    requires AllWhitespace(pre) && AllWhitespace(post)
    ensures Trim(pre + s + post) == Trim(s)
  {
    assert TrimStart(pre + s + post) == TrimStart(s + post) by {
      assert pre + s + post == pre + (s + post);
      TrimStartSkipsPrefix(pre, s + post);
    }
    assert TrimEnd(TrimStart(s + post)) == TrimEnd(TrimStart(s)) by {
      TrimStartKeepsSuffix(s, post);
      if TrimStart(s + post) == TrimStart(s) + post {
        TrimEndSkipsSuffix(TrimStart(s), post);
      }
    }
  }

  /** Trimming only removes characters. */
  lemma TrimKeepsOnlyItsInput(s: string)
    ensures forall c :: c in Trim(s) ==> c in s
  {
    var t := TrimStart(s);
    var r := TrimEnd(t);
    TrimStartSpec(s);
    TrimEndSpec(t);
    assert Trim(s) == r;
    forall c | c in r
      ensures c in s
    {
      var k :| 0 <= k < |r| && r[k] == c;
      assert t[k] == c;
      assert s[|s| - |t| + k] == c;
    }
  }

  // ---------------------------------------------------------------------
  // lowercase()

  predicate IsAsciiUpper(c: char) {
    'A' <= c <= 'Z'
  }

  function LowerChar(c: char): char {
    if IsAsciiUpper(c) then (c as int + 32) as char else c
  }

  /** `String.lowercase()` on the ASCII letters. */
  function Lowercase(s: string): (r: string)
    ensures |r| == |s|
    ensures forall i :: 0 <= i < |r| ==> !IsAsciiUpper(r[i])
    ensures forall i :: 0 <= i < |s| && !IsAsciiUpper(s[i]) ==> r[i] == s[i]
    ensures forall i :: 0 <= i < |s| && IsAsciiUpper(s[i]) ==>
              r[i] as int == s[i] as int + ('a' as int - 'A' as int)
    ensures forall i :: 0 <= i < |s| ==> (IsWhitespace(r[i]) <==> IsWhitespace(s[i]))
  {
    seq(|s|, i requires 0 <= i < |s| => LowerChar(s[i]))
  }

  lemma LowercaseIdempotent(s: string)
    ensures Lowercase(Lowercase(s)) == Lowercase(s)
  {
  }

  lemma LowercaseAppend(a: string, b: string)
    ensures Lowercase(a + b) == Lowercase(a) + Lowercase(b)
  {
    assert forall i :: 0 <= i < |a + b| ==>
      Lowercase(a + b)[i] == (Lowercase(a) + Lowercase(b))[i];
  }

  // ---------------------------------------------------------------------
  // split(",")[0]

  /** The first element of `s.split(",")`: everything before the first
      comma, or all of `s` when it has none. */
  function BeforeComma(s: string): (r: string)
    ensures |r| <= |s| && r == s[..|r|]
    ensures ',' !in r
    ensures |r| < |s| ==> s[|r|] == ','
  {
    if |s| == 0 || s[0] == ',' then "" else [s[0]] + BeforeComma(s[1..])
  }

  // ---------------------------------------------------------------------
  // contains(..., ignoreCase = true)

  /** Case folding as Kotlin's `Char.equals(other, ignoreCase = true)`
      applies it when one side is ASCII: the ASCII letters, plus the four
      non-ASCII characters whose upper or lower case is an ASCII letter
      (dotted capital I, dotless small i, long s, Kelvin sign). */
  function FoldChar(c: char): char {
    if IsAsciiUpper(c) then LowerChar(c)
    else if c == '\U{130}' || c == '\U{131}' then 'i'
    else if c == '\U{17F}' then 's'
    else if c == '\U{212A}' then 'k'
    else c
  }

  predicate EqualsIgnoreCase(a: char, b: char) {
    FoldChar(a) == FoldChar(b)
  }

  predicate StartsWithIgnoreCase(s: string, prefix: string) {
    |prefix| <= |s| && forall i :: 0 <= i < |prefix| ==> EqualsIgnoreCase(s[i], prefix[i])
  }

  /** `needle` matches `s` at offset `k`, ignoring case. */
  ghost predicate OccursAt(s: string, needle: string, k: int) {
    0 <= k && k + |needle| <= |s| &&
    forall i :: 0 <= i < |needle| ==> EqualsIgnoreCase(s[k + i], needle[i])
  }

  /** `s.contains(needle, ignoreCase = true)`: a left-to-right scan. */
  predicate ContainsIgnoreCase(s: string, needle: string)
    decreases |s|
  {
    || StartsWithIgnoreCase(s, needle)
    || (|s| > |needle| && ContainsIgnoreCase(s[1..], needle))
  }

  /** The scan finds exactly the offsets at which the needle occurs. */
  lemma {:induction false} ContainsIffOccurs(s: string, needle: string)
    ensures ContainsIgnoreCase(s, needle) <==> exists k :: OccursAt(s, needle, k)
    decreases |s|
  {
    if StartsWithIgnoreCase(s, needle) {
      assert OccursAt(s, needle, 0);
    } else if |s| > |needle| {
      ContainsIffOccurs(s[1..], needle);
      if k :| OccursAt(s[1..], needle, k) {
        assert OccursAt(s, needle, k + 1);
      }
      if k :| OccursAt(s, needle, k) {
        assert k != 0;
        assert OccursAt(s[1..], needle, k - 1);
      }
    } else {
      assert forall k :: OccursAt(s, needle, k) ==> k == 0 && StartsWithIgnoreCase(s, needle);
    }
  }

  /** A string contains each of its infixes. */
  lemma ContainsInfix(a: string, needle: string, b: string)
    ensures ContainsIgnoreCase(a + needle + b, needle)
  {
    var s := a + needle + b;
    assert forall i :: 0 <= i < |needle| ==> s[|a| + i] == needle[i];
    assert OccursAt(s, needle, |a|);
    ContainsIffOccurs(s, needle);
  }

  /** A string that lacks one letter of an ASCII needle, in either case and
      under every folding, cannot contain it. */
  lemma {:induction false} LacksCharNotContains(s: string, needle: string, j: nat)
    requires j < |needle|
    requires forall i :: 0 <= i < |s| ==> FoldChar(s[i]) != FoldChar(needle[j])
    ensures !ContainsIgnoreCase(s, needle)
  {
    forall k | 0 <= k && k + |needle| <= |s|
      ensures !OccursAt(s, needle, k)
    {
      assert !EqualsIgnoreCase(s[k + j], needle[j]);
    }
    ContainsIffOccurs(s, needle);
  }

  // ---------------------------------------------------------------------
  // String.length

  /** UTF-16 code units used by one character. */
  function CodeUnits(c: char): nat {
    if c as int >= 0x1_0000 then 2 else 1
  }

  /** Kotlin's `String.length`, which counts UTF-16 code units: a character
      outside the Basic Multilingual Plane counts twice. */
  function Utf16Length(s: string): (n: nat)
    ensures |s| <= n <= 2 * |s|
    ensures n == |s| <==> forall i :: 0 <= i < |s| ==> s[i] as int < 0x1_0000
  {
    if |s| == 0 then 0
    else
      var rest := Utf16Length(s[1..]);
      assert forall i :: 1 <= i < |s| ==> s[i] == s[1..][i - 1];
      CodeUnits(s[0]) + rest
  }

  // ---------------------------------------------------------------------
  // Int.toString()

  predicate IsDigit(c: char) {
    '0' <= c <= '9'
  }

  function DigitChar(d: nat): (c: char)
    requires d < 10
    ensures IsDigit(c) && c as int - '0' as int == d
  {
    ('0' as int + d) as char
  }

  /** The number a string of decimal digits denotes. */
  ghost function DigitsValue(s: string): nat
    requires forall i :: 0 <= i < |s| ==> IsDigit(s[i])
  {
    if |s| == 0 then 0
    else
      assert IsDigit(s[|s| - 1]);
      DigitsValue(s[..|s| - 1]) * 10 + (s[|s| - 1] as int - '0' as int)
  }

  /** Decimal digits of `n`, without leading zeros. */
  function NatToString(n: nat): (r: string)
    ensures |r| >= 1
    ensures forall i :: 0 <= i < |r| ==> IsDigit(r[i])
    ensures |r| > 1 ==> r[0] != '0'
  {
    if n < 10 then [DigitChar(n)] else NatToString(n / 10) + [DigitChar(n % 10)]
  }

  lemma {:induction false} NatToStringRoundTrip(n: nat)
    ensures DigitsValue(NatToString(n)) == n
  {
    if n >= 10 {
      var r := NatToString(n);
      assert r[..|r| - 1] == NatToString(n / 10);
      NatToStringRoundTrip(n / 10);
    }
  }

  /** `Int.toString()`: a minus sign before the digits of a negative number. */
  function IntToString(i: int): (r: string)
    ensures |r| >= 1
    ensures (i < 0) <==> r[0] == '-'
    ensures i >= 0 ==> forall k :: 0 <= k < |r| ==> IsDigit(r[k])
    ensures i < 0 ==> forall k :: 1 <= k < |r| ==> IsDigit(r[k])
  {
    if i < 0 then "-" + NatToString(-i) else NatToString(i)
  }

  /** Reading the printed number back gives the number. */
  lemma IntToStringRoundTrip(i: int)
    ensures var r := IntToString(i);
            if r[0] == '-' then DigitsValue(r[1..]) == -i else DigitsValue(r) == i
  {
    NatToStringRoundTrip(if i < 0 then -i else i);
    if i < 0 {
      assert IntToString(i)[1..] == NatToString(-i);
    }
  }
}
