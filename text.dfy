/** The string primitives the core relies on: the ECMAScript white-space
    class (used by `trim` and by `\s` in regular expressions), `trim`,
    ASCII case mapping, and `includes`. */
module Text {

  /** ECMAScript WhiteSpace and LineTerminator code points: exactly the
      characters matched by `\s` and removed by `String.prototype.trim`. */
  predicate IsSpace(c: char) {
    c == ' ' || c == '\t' || c == '\n' || c == '\U{B}' || c == '\U{C}' || c == '\r'
    || c == '\U{A0}' || c == '\U{1680}' || ('\U{2000}' <= c <= '\U{200A}')
    || c == '\U{2028}' || c == '\U{2029}' || c == '\U{202F}' || c == '\U{205F}'
    || c == '\U{3000}' || c == '\U{FEFF}'
  }

  predicate IsDigit(c: char) {
    '0' <= c <= '9'
  }

  predicate AllSpace(s: string) {
    forall i :: 0 <= i < |s| ==> IsSpace(s[i])
  }

  /** Removes leading white space. */
  function TrimStart(s: string): (r: string)
    ensures |r| <= |s| && r == s[|s| - |r|..]
    ensures AllSpace(s[..|s| - |r|])
    ensures r == [] || !IsSpace(r[0])
  {
    if s != [] && IsSpace(s[0]) then TrimStart(s[1..]) else s
  }

  /** Removes trailing white space. */
  function TrimEnd(s: string): (r: string)
    ensures |r| <= |s| && r == s[..|r|]
    ensures AllSpace(s[|r|..])
    ensures r == [] || !IsSpace(r[|r| - 1])
  {
    if s != [] && IsSpace(s[|s| - 1]) then TrimEnd(s[..|s| - 1]) else s
  }

  /** `String.prototype.trim`: the slice of `s` left when the white space
      at both ends is cut off. */
  function Trim(s: string): (r: string)
    ensures exists k :: 0 <= k <= |s| - |r| && r == s[k..k + |r|] && AllSpace(s[..k]) && AllSpace(s[k + |r|..])
    ensures r == [] || (!IsSpace(r[0]) && !IsSpace(r[|r| - 1]))
  {
    var t := TrimStart(s);
    var r := TrimEnd(t);
    var k := |s| - |t|;
    assert r == s[k..k + |r|];
    assert s[k + |r|..] == t[|r|..];
    r
  }

  /** `!s.trim()`: the trimmed string is empty, hence falsy; that happens
      exactly when every character is white space. */
  function IsBlank(s: string): (b: bool)
    ensures b <==> AllSpace(s)
  {
    Trim(s) == ""
  }

  /** A string that neither starts nor ends with white space is its own trim. */
  lemma TrimOfUnpadded(s: string)
    requires s != [] ==> !IsSpace(s[0]) && !IsSpace(s[|s| - 1])
    ensures Trim(s) == s
  {
  }

  function LowerChar(c: char): (r: char)
    ensures 'A' <= c <= 'Z' ==> r as int == c as int + 32
    ensures !('A' <= c <= 'Z') ==> r == c
  {
    if 'A' <= c <= 'Z' then (c as int + 32) as char else c
  }

  function UpperChar(c: char): (r: char)
    ensures 'a' <= c <= 'z' ==> r as int == c as int - 32
    ensures !('a' <= c <= 'z') ==> r == c
  {
    if 'a' <= c <= 'z' then (c as int - 32) as char else c
  }

  /** `toLowerCase`, restricted to the ASCII letters. */
  function Lower(s: string): (r: string)
    ensures |r| == |s| && forall i :: 0 <= i < |s| ==> r[i] == LowerChar(s[i])
  {
    seq(|s|, i requires 0 <= i < |s| => LowerChar(s[i]))
  }

  /** `toUpperCase`, restricted to the ASCII letters. */
  function Upper(s: string): (r: string)
    ensures |r| == |s| && forall i :: 0 <= i < |s| ==> r[i] == UpperChar(s[i])
  {
    seq(|s|, i requires 0 <= i < |s| => UpperChar(s[i]))
  }

  /** `haystack.includes(needle)`: `needle` occurs as a contiguous block,
      so any prefix (the empty needle included) is found, and a found needle
      is never longer than the haystack. */
  function Contains(haystack: string, needle: string): (b: bool)
    ensures needle <= haystack ==> b
    ensures b ==> |needle| <= |haystack|
  {
    assert needle <= haystack ==> OccursAt(haystack, needle, 0);
    exists i | 0 <= i <= |haystack| - |needle| :: OccursAt(haystack, needle, i)
  }

  predicate OccursAt(haystack: string, needle: string, i: int) {
    0 <= i <= |haystack| - |needle| && haystack[i..i + |needle|] == needle
  }

  /** A needle whose first character is absent from the haystack does not
      occur in it. */
  lemma FirstCharAbsent(haystack: string, needle: string)
    requires needle != [] && needle[0] !in haystack
    ensures !Contains(haystack, needle)
  {
    forall i | 0 <= i <= |haystack| - |needle|
      ensures !OccursAt(haystack, needle, i)
    {
      assert haystack[i..i + |needle|][0] == haystack[i];
    }
  }

  /** Decimal rendering of an integer, as a JavaScript template literal
      prints a safe integer (magnitude below 2^53): plain digits, with a
      leading `-` when negative. */
  function IntText(n: int): (r: string)
    ensures r != []
    ensures n >= 0 ==> forall i :: 0 <= i < |r| ==> IsDigit(r[i])
  {
    if n < 0 then "-" + NatText(-n) else NatText(n)
  }

  function NatText(n: nat): (r: string)
    ensures r != [] && forall i :: 0 <= i < |r| ==> IsDigit(r[i])
  {
    var d := ['0' + ((n % 10) as char)];
    if n < 10 then d else NatText(n / 10) + d
  }

  /** The number a string of decimal digits denotes, most significant first. */
  function DecimalValue(s: string): nat
    requires forall i :: 0 <= i < |s| ==> IsDigit(s[i])
  {
    if s == [] then 0
    else
      assert IsDigit(s[|s| - 1]);
      10 * DecimalValue(s[..|s| - 1]) + (s[|s| - 1] as int - '0' as int)
  }

  /** The digits of `NatText(n)` denote `n`. */
  lemma {:induction false} NatTextValue(n: nat)
    ensures DecimalValue(NatText(n)) == n
    decreases n
  {
    var d := ['0' + ((n % 10) as char)];
    if n >= 10 {
      NatTextValue(n / 10);
      var t := NatText(n / 10) + d;
      assert t[..|t| - 1] == NatText(n / 10);
    }
  }

  /** `IntText(n)` is the decimal value of `n`: its digits for a
      non-negative `n`, a minus sign and the digits of `-n` otherwise. */
  lemma IntTextValue(n: int)
    ensures n >= 0 ==> DecimalValue(IntText(n)) == n
    ensures n < 0 ==> IntText(n)[0] == '-' && IntText(n)[1..] == NatText(-n) && DecimalValue(IntText(n)[1..]) == -n
  {
    if n >= 0 {
      NatTextValue(n);
    } else {
      NatTextValue(-n);
      assert ("-" + NatText(-n))[1..] == NatText(-n);
    }
  }
}
