/**
 * The two pieces of JavaScript string behaviour the dashboard relies on:
 * `String.prototype.trim`, used to reject a blank student name, and the
 * decimal rendering of a numeric id, used to build the storage key
 * `"tasks_" + id`.
 */
module Text {

  /** The characters `trim` removes: ECMAScript WhiteSpace and LineTerminator. */
  predicate IsJsSpace(c: char) {
    c == '\t' || c == '\n' || c == '\U{000B}' || c == '\U{000C}' || c == '\r' ||
    c == ' ' || c == '\U{00A0}' || c == '\U{1680}' ||
    ('\U{2000}' <= c <= '\U{200A}') ||
    c == '\U{2028}' || c == '\U{2029}' || c == '\U{202F}' || c == '\U{205F}' ||
    c == '\U{3000}' || c == '\U{FEFF}'
  }

  /** Every character of `s` is white space (the empty string included). */
  predicate Blank(s: string) {
    forall i :: 0 <= i < |s| ==> IsJsSpace(s[i])
  }

  /** The number of white-space characters `s` starts with. */
  function LeadingBlank(s: string): (n: nat)
    ensures n <= |s| && Blank(s[..n]) && (n == |s| || !IsJsSpace(s[n]))
    decreases |s|
  {
    if s != [] && IsJsSpace(s[0]) then
      var n := LeadingBlank(s[1..]);
      assert s[..n + 1] == [s[0]] + s[1..][..n];
      n + 1
    else 0
  }

  /** The number of white-space characters `s` ends with. */
  function TrailingBlank(s: string): (n: nat)
    ensures n <= |s| && Blank(s[|s| - n..]) && (n == |s| || !IsJsSpace(s[|s| - n - 1]))
    decreases |s|
  {
    if s != [] && IsJsSpace(s[|s| - 1]) then
      var n := TrailingBlank(s[..|s| - 1]);
      assert s[|s| - n - 1..] == s[..|s| - 1][|s| - 1 - n..] + [s[|s| - 1]];
      n + 1
    else 0
  }

  /** `s` with its leading white space removed. */
  function TrimStart(s: string): (r: string)
    ensures |r| <= |s| && r == s[|s| - |r|..]
    ensures Blank(s[..|s| - |r|])
    ensures r == [] || !IsJsSpace(r[0])
  {
    s[LeadingBlank(s)..]
  }

  /** `s` with its trailing white space removed. */
  function TrimEnd(s: string): (r: string)
    ensures |r| <= |s| && r == s[..|r|]
    ensures Blank(s[|r|..])
    ensures r == [] || !IsJsSpace(r[|r| - 1])
  {
    s[..|s| - TrailingBlank(s)]
  }

  /**
   * `s.trim()`: the part of `s` between its leading and its trailing white
   * space, which starts and ends with a character other than white space.
   */
  function Trim(s: string): (r: string)
    ensures exists i :: 0 <= i <= |s| - |r| && s[i..i + |r|] == r && Blank(s[..i]) && Blank(s[i + |r|..])
    ensures r == [] || (!IsJsSpace(r[0]) && !IsJsSpace(r[|r| - 1]))
  {
    var i := LeadingBlank(s);
    var k := TrailingBlank(s[i..]);
    SliceBetweenBlanks(s, i, k);
    TrimEnd(TrimStart(s))
  }

  /** Cutting `i` blank characters off the front and `k` off the back leaves a slice between blanks. */
  lemma SliceBetweenBlanks(s: string, i: nat, k: nat)
    requires i <= |s| && k <= |s| - i
    requires Blank(s[..i]) && Blank(s[i..][|s| - i - k..])
    ensures var r := s[i..][..|s| - i - k];
      0 <= i <= |s| - |r| && s[i..i + |r|] == r && Blank(s[..i]) && Blank(s[i + |r|..])
  {
    assert s[i..][|s| - i - k..] == s[|s| - k..];
  }

  /** `!s.trim()` holds exactly for the blank strings. */
  lemma TrimEmptyIffBlank(s: string)
    ensures Trim(s) == [] <==> Blank(s)
  {
    var t := TrimStart(s);
    if Trim(s) == [] {
      assert Blank(t[0..]);
      assert s == s[..|s| - |t|] + t;
    }
  }

  /** Trimming keeps a string that has white space at neither end. */
  lemma TrimKeepsInner(s: string)
    requires s != [] && !IsJsSpace(s[0]) && !IsJsSpace(s[|s| - 1])
    ensures Trim(s) == s
  {
  }

  function DigitChar(d: nat): (c: char)
    requires d < 10
    ensures '0' <= c <= '9'
  {
    "0123456789"[d]
  }

  lemma DigitCharInjective(a: nat, b: nat)
    requires a < 10 && b < 10 && DigitChar(a) == DigitChar(b)
    ensures a == b
  {
  }

  /** The decimal numeral of `n`, as `String(n)` writes a non-negative integer. */
  function Decimal(n: nat): (s: string)
    ensures 1 <= |s|
    ensures forall i :: 0 <= i < |s| ==> '0' <= s[i] <= '9'
    ensures n < 10 <==> |s| == 1
    decreases n
  {
    if n < 10 then [DigitChar(n)] else Decimal(n / 10) + [DigitChar(n % 10)]
  }

  /** Distinct numbers have distinct numerals. */
  lemma {:induction false} DecimalInjective(a: nat, b: nat)
    requires Decimal(a) == Decimal(b)
    ensures a == b
  {
    if a < 10 && b < 10 {
      DigitCharInjective(a, b);
    } else if 10 <= a && 10 <= b {
      var da, db := Decimal(a), Decimal(b);
      assert da[|da| - 1] == DigitChar(a % 10);
      assert db[|db| - 1] == DigitChar(b % 10);
      DigitCharInjective(a % 10, b % 10);
      assert da[..|da| - 1] == Decimal(a / 10);
      assert db[..|db| - 1] == Decimal(b / 10);
      DecimalInjective(a / 10, b / 10);
    }
  }
}
