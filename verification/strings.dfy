/** String helpers with the semantics of the JavaScript built-ins the portal uses. */
module Strings {

  /** The characters JavaScript treats as white space in `String.prototype.trim`
      and in the regular-expression class `\s`: WhiteSpace and LineTerminator,
      including the Unicode space separators U+2000 to U+200A. */
  const WhitespaceChars: set<char> := {
    '\t', '\n', '\U{000B}', '\U{000C}', '\r', ' ', '\U{00A0}', '\U{1680}',
    '\U{2000}', '\U{2001}', '\U{2002}', '\U{2003}', '\U{2004}', '\U{2005}',
    '\U{2006}', '\U{2007}', '\U{2008}', '\U{2009}', '\U{200A}',
    '\U{2028}', '\U{2029}', '\U{202F}', '\U{205F}', '\U{3000}', '\U{FEFF}'
  }

  predicate IsWhitespace(c: char) {
    c in WhitespaceChars
  }

  predicate AllWhitespace(s: string) {
    forall i :: 0 <= i < |s| ==> IsWhitespace(s[i])
  }

  predicate NoWhitespace(s: string) {
    forall i :: 0 <= i < |s| ==> !IsWhitespace(s[i])
  }

  /** `r` occurs in `s` as a contiguous piece. */
  predicate IsInfix(r: string, s: string) {
    exists i :: 0 <= i <= |s| - |r| && OccursAt(r, s, i)
  }

  /** `r` occurs in `s` starting at index `i`. */
  predicate OccursAt(r: string, s: string, i: int)
    requires 0 <= i <= |s| - |r|
  {
    s[i..i + |r|] == r
  }

  /** JavaScript `hay.includes(needle)`. */
  predicate Contains(hay: string, needle: string) {
    IsInfix(needle, hay)
  }

  /** Index of the first character at or after `i` that is not white space, or `|s|`. */
  function SkipWhitespace(s: string, i: nat): (k: nat)
    requires i <= |s|
    ensures i <= k <= |s|
    ensures forall m :: i <= m < k ==> IsWhitespace(s[m])
    ensures k == |s| || !IsWhitespace(s[k])
    decreases |s| - i
  {
    if i < |s| && IsWhitespace(s[i]) then SkipWhitespace(s, i + 1) else i
  }

  /** Index just past the last character before `j`, and not before `lo`, that is
      not white space, or `lo`. */
  function SkipWhitespaceBack(s: string, lo: nat, j: nat): (k: nat)
    requires lo <= j <= |s|
    ensures lo <= k <= j
    ensures forall m :: k <= m < j ==> IsWhitespace(s[m])
    ensures k == lo || !IsWhitespace(s[k - 1])
    decreases j
  {
    if lo < j && IsWhitespace(s[j - 1]) then SkipWhitespaceBack(s, lo, j - 1) else j
  }

  /** `SkipWhitespace` stops at the first character from `i` on that is not white space. */
  lemma {:induction false} SkipWhitespaceTo(s: string, i: nat, k: nat)
    requires i <= k <= |s|
    requires forall m :: i <= m < k ==> IsWhitespace(s[m])
    requires k == |s| || !IsWhitespace(s[k])
    ensures SkipWhitespace(s, i) == k
    decreases k - i
  {
    if i < k {
      SkipWhitespaceTo(s, i + 1, k);
    }
  }

  /** Drops leading white space. */
  function TrimStart(s: string): (r: string)
    ensures |r| <= |s| && r == s[|s| - |r|..]
    ensures AllWhitespace(s[..|s| - |r|])
    ensures r == [] || !IsWhitespace(r[0])
    ensures |s| > 0 && IsWhitespace(s[0]) ==> |r| < |s|
  {
    s[SkipWhitespace(s, 0)..]
  }

  /** JavaScript `s.trim()`: the text between the leading and trailing white space. */
  function Trim(s: string): (r: string)
    ensures IsInfix(r, s)
    ensures r == [] || (!IsWhitespace(r[0]) && !IsWhitespace(r[|r| - 1]))
    ensures r == [] <==> AllWhitespace(s)
  {
    var a := SkipWhitespace(s, 0);
    var b := SkipWhitespaceBack(s, a, |s|);
    TrimSlice(s, a, b);
    s[a..b]
  }

  /** Only leading and trailing white space is removed: the trimmed text sits in
      the input with nothing but white space before and after it. */
  lemma TrimRemovesOnlyEnds(s: string)
    ensures exists i :: 0 <= i <= |s| - |Trim(s)| && OccursAt(Trim(s), s, i)
                       && AllWhitespace(s[..i]) && AllWhitespace(s[i + |Trim(s)|..])
  {
    var a := SkipWhitespace(s, 0);
    var b := SkipWhitespaceBack(s, a, |s|);
    TrimSlice(s, a, b);
    assert Trim(s) == s[a..b];
  }

  /** The facts about the piece `s[a..b]` between the white space that the two
      scans skip. */
  lemma TrimSlice(s: string, a: nat, b: nat)
    requires a <= b <= |s|
    requires forall m :: 0 <= m < a ==> IsWhitespace(s[m])
    requires a == |s| || !IsWhitespace(s[a])
    requires forall m :: b <= m < |s| ==> IsWhitespace(s[m])
    requires b == a || !IsWhitespace(s[b - 1])
    ensures OccursAt(s[a..b], s, a) && AllWhitespace(s[..a]) && AllWhitespace(s[b..])
    ensures IsInfix(s[a..b], s)
    ensures s[a..b] == [] || (!IsWhitespace(s[a..b][0]) && !IsWhitespace(s[a..b][b - a - 1]))
    ensures s[a..b] == [] <==> AllWhitespace(s)
  {
    assert OccursAt(s[a..b], s, a);
    if a == b {
      forall m | 0 <= m < |s| ensures IsWhitespace(s[m]) {
        if m < a { } else { }
      }
    }
  }

  /** ASCII part of JavaScript `toLowerCase`. */
  function ToLowerChar(c: char): char {
    if 'A' <= c <= 'Z' then (c as int + 32) as char else c
  }

  function ToLower(s: string): (r: string)
    ensures |r| == |s|
  {
    seq(|s|, i requires 0 <= i < |s| => ToLowerChar(s[i]))
  }

  /** Lower-casing neither creates nor removes white space. */
  lemma ToLowerKeepsWhitespace(c: char)
    ensures IsWhitespace(ToLowerChar(c)) <==> IsWhitespace(c)
  {
  }

  lemma ToLowerConcat(x: string, y: string)
    ensures ToLower(x + y) == ToLower(x) + ToLower(y)
  {
    assert forall i :: 0 <= i < |x + y| ==> ToLower(x + y)[i] == (ToLower(x) + ToLower(y))[i];
  }

  // ----- decimal digits -----

  predicate IsDigit(c: char) {
    '0' <= c <= '9'
  }

  predicate AllDigits(s: string) {
    forall i :: 0 <= i < |s| ==> IsDigit(s[i])
  }

  function DigitChar(d: nat): (c: char)
    requires d < 10
    ensures IsDigit(c)
  {
    ('0' as int + d) as char
  }

  function DigitValue(c: char): nat
    requires IsDigit(c)
  {
    c as int - '0' as int
  }

  /** The number a string of decimal digits denotes, most significant digit first. */
  function DecimalValue(s: string): nat
    requires AllDigits(s)
  {
    if s == [] then 0 else DecimalValue(s[..|s| - 1]) * 10 + DigitValue(s[|s| - 1])
  }

  function Pow10(k: nat): (p: nat)
    ensures p >= 1
  {
    if k == 0 then 1 else 10 * Pow10(k - 1)
  }

  /** JavaScript `String(n)` for a non-negative integer. */
  function NatToDecimal(n: nat): (r: string)
    ensures |r| >= 1 && AllDigits(r)
    ensures DecimalValue(r) == n
    ensures r[0] != '0' || r == "0"
  {
    if n < 10 then [DigitChar(n)]
    else
      var r := NatToDecimal(n / 10) + [DigitChar(n % 10)];
      r
  }

  lemma {:induction false} NatToDecimalLength(n: nat, k: nat)
    requires 1 <= k && n < Pow10(k)
    ensures |NatToDecimal(n)| <= k
  {
    if n >= 10 {
      assert k >= 2;
      NatToDecimalLength(n / 10, k - 1);
    }
  }

  /** JavaScript `s.padStart(len, [pad])` with a one-character pad string. */
  function PadStart(s: string, len: nat, pad: char): (r: string)
    ensures |r| == if |s| >= len then |s| else len
    ensures r[|r| - |s|..] == s
    ensures forall i :: 0 <= i < |r| - |s| ==> r[i] == pad
  {
    if |s| >= len then s else seq(len - |s|, _ => pad) + s
  }

  lemma {:induction false} ZerosValue(z: string)
    requires forall i :: 0 <= i < |z| ==> z[i] == '0'
    ensures AllDigits(z) && DecimalValue(z) == 0
  {
    if z != [] {
      ZerosValue(z[..|z| - 1]);
    }
  }

  /** Leading zeros do not change the value of a digit string. */
  lemma {:induction false} LeadingZerosValue(z: string, s: string)
    requires forall i :: 0 <= i < |z| ==> z[i] == '0'
    requires AllDigits(s)
    ensures AllDigits(z + s) && DecimalValue(z + s) == DecimalValue(s)
    decreases |s|
  {
    ZerosValue(z);
    if s == [] {
      assert z + s == z;
    } else {
      var p := s[..|s| - 1];
      LeadingZerosValue(z, p);
      assert (z + s)[..|z + s| - 1] == z + p;
    }
  }

  /** Two digit strings of the same length that denote the same number are equal. */
  lemma {:induction false} DecimalValueInjective(a: string, b: string)
    requires AllDigits(a) && AllDigits(b) && |a| == |b|
    requires DecimalValue(a) == DecimalValue(b)
    ensures a == b
  {
    if a != [] {
      var pa, pb := a[..|a| - 1], b[..|b| - 1];
      assert DigitValue(a[|a| - 1]) == DecimalValue(a) % 10;
      assert DigitValue(b[|b| - 1]) == DecimalValue(b) % 10;
      assert DecimalValue(pa) == DecimalValue(a) / 10;
      assert DecimalValue(pb) == DecimalValue(b) / 10;
      DecimalValueInjective(pa, pb);
      assert a == pa + [a[|a| - 1]];
      assert b == pb + [b[|b| - 1]];
    }
  }

  lemma {:induction false} DecimalValueBound(s: string)
    requires AllDigits(s)
    ensures DecimalValue(s) < Pow10(|s|)
  {
    if s != [] {
      DecimalValueBound(s[..|s| - 1]);
    }
  }
}
