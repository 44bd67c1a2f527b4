/**
 * The string operations the components use: ASCII `toLowerCase`, `includes`, `trim`,
 * `parseInt(value, 10)` and the decimal rendering of an integer in a template string.
 */
module Text {
  import opened Wrappers

  /** `toLowerCase` on one character, restricted to ASCII letters. */
  function LowerChar(c: char): char
  {
    if 'A' <= c <= 'Z' then (c as int + 32) as char else c
  }

  /** ASCII `toLowerCase`: no upper-case letter is left, each one becomes its lower-case letter, and every other character is kept. */
  function ToLower(s: string): (r: string)
    ensures |r| == |s|
    ensures forall i :: 0 <= i < |r| ==> !('A' <= r[i] <= 'Z')
    ensures forall i :: 0 <= i < |s| && 'A' <= s[i] <= 'Z' ==> r[i] as int == s[i] as int + 32
    ensures forall i :: 0 <= i < |s| && !('A' <= s[i] <= 'Z') ==> r[i] == s[i]
  {
    seq(|s|, i requires 0 <= i < |s| => LowerChar(s[i]))
  }

  /** Lower-casing twice is lower-casing once. */
  lemma ToLowerIdempotent(s: string)
    ensures ToLower(ToLower(s)) == ToLower(s)
  {
  }

  /** `t` occurs in `s` starting at offset `i`. */
  ghost predicate OccursAt(s: string, t: string, i: int)
  {
    0 <= i && i + |t| <= |s| && s[i..i + |t|] == t
  }

  predicate StartsWith(s: string, t: string)
  {
    |t| <= |s| && s[..|t|] == t
  }

  /** `s.includes(t)`, scanning the offsets from left to right. */
  function Includes(s: string, t: string): bool
    decreases |s|
  {
    StartsWith(s, t) || (s != [] && Includes(s[1..], t))
  }

  /** `Includes` is substring containment. */
  lemma {:induction false} IncludesIffOccurs(s: string, t: string)
    ensures Includes(s, t) <==> exists i :: OccursAt(s, t, i)
    decreases |s|
  {
    if StartsWith(s, t) {
      assert OccursAt(s, t, 0);
    } else if s != [] {
      IncludesIffOccurs(s[1..], t);
      if Includes(s[1..], t) {
        var i :| OccursAt(s[1..], t, i);
        assert s[1..][i..i + |t|] == s[i + 1..i + 1 + |t|];
        assert OccursAt(s, t, i + 1);
      }
      if exists i :: OccursAt(s, t, i) {
        var i :| OccursAt(s, t, i);
        assert i != 0;
        assert s[1..][i - 1..i - 1 + |t|] == s[i..i + |t|];
        assert OccursAt(s[1..], t, i - 1);
      }
    }
  }

  /** Every string includes the empty string. */
  lemma IncludesEmpty(s: string)
    ensures Includes(s, "")
  {
    assert StartsWith(s, "");
  }

  /** The characters `String.prototype.trim` removes: white space and line terminators. */
  predicate IsWhitespace(c: char)
  {
    var n := c as int;
    || n == 0x09 || n == 0x0A || n == 0x0B || n == 0x0C || n == 0x0D || n == 0x20
    || n == 0xA0 || n == 0x1680 || 0x2000 <= n <= 0x200A || n == 0x2028 || n == 0x2029
    || n == 0x202F || n == 0x205F || n == 0x3000 || n == 0xFEFF
  }

  predicate AllWhitespace(s: string)
  {
    forall i :: 0 <= i < |s| ==> IsWhitespace(s[i])
  }

  /** The number of white-space characters `s` starts with. */
  function LeadingWhitespace(s: string): (k: nat)
    ensures k <= |s| && AllWhitespace(s[..k])
    ensures k < |s| ==> !IsWhitespace(s[k])
    decreases |s|
  {
    if s != [] && IsWhitespace(s[0]) then
      var k := LeadingWhitespace(s[1..]);
      assert s[..k + 1] == [s[0]] + s[1..][..k];
      k + 1
    else 0
  }

  /** Where the white space that `s` ends with begins. */
  function TrailingWhitespace(s: string): (j: nat)
    ensures j <= |s| && AllWhitespace(s[j..])
    ensures j > 0 ==> !IsWhitespace(s[j - 1])
    decreases |s|
  {
    if s != [] && IsWhitespace(s[|s| - 1]) then
      var j := TrailingWhitespace(s[..|s| - 1]);
      assert s[j..] == s[..|s| - 1][j..] + [s[|s| - 1]];
      j
    else |s|
  }

  /** `s` with its leading white space removed. */
  function TrimStart(s: string): string
  {
    s[LeadingWhitespace(s)..]
  }

  /** `s` with its trailing white space removed. */
  function TrimEnd(s: string): string
  {
    s[..TrailingWhitespace(s)]
  }

  /** `s.trim()`. */
  function Trim(s: string): string
  {
    TrimEnd(TrimStart(s))
  }

  /** The trimmed string is the middle of `s` between white-space margins. */
  lemma TrimShape(s: string)
    ensures exists i, j :: 0 <= i <= j <= |s| && Trim(s) == s[i..j] && AllWhitespace(s[..i]) && AllWhitespace(s[j..])
  {
    var i := LeadingWhitespace(s);
    var j := TrailingWhitespace(s[i..]);
    assert s[i..][j..] == s[i + j..];
    assert Trim(s) == s[i..i + j];
  }

  /** A non-empty trimmed string neither starts nor ends with white space. */
  lemma TrimEdges(s: string)
    requires Trim(s) != []
    ensures !IsWhitespace(Trim(s)[0]) && !IsWhitespace(Trim(s)[|Trim(s)| - 1])
  {
    var i := LeadingWhitespace(s);
    var j := TrailingWhitespace(s[i..]);
    assert Trim(s)[0] == s[i];
    assert Trim(s)[|Trim(s)| - 1] == s[i..][j - 1];
  }

  /** A string trims to the empty string exactly when it is all white space. */
  lemma TrimEmptyIff(s: string)
    ensures Trim(s) == "" <==> AllWhitespace(s)
  {
    var i := LeadingWhitespace(s);
    var j := TrailingWhitespace(s[i..]);
    if Trim(s) == "" {
      forall k | 0 <= k < |s|
        ensures IsWhitespace(s[k])
      {
        assert s[..i][k] == s[k];
      }
    }
  }

  /** White space in front of a string that does not start with white space is all that `trimStart` removes. */
  lemma {:induction false} LeadingWhitespaceOf(w: string, x: string)
    requires AllWhitespace(w)
    requires x != [] && !IsWhitespace(x[0])
    ensures LeadingWhitespace(w + x) == |w|
    decreases |w|
  {
    if w == [] {
      assert w + x == x;
    } else {
      assert (w + x)[1..] == w[1..] + x;
      LeadingWhitespaceOf(w[1..], x);
    }
  }

  /** White space after a string that does not end with white space is all that `trimEnd` removes. */
  lemma {:induction false} TrailingWhitespaceOf(x: string, w: string)
    requires AllWhitespace(w)
    requires x != [] && !IsWhitespace(x[|x| - 1])
    ensures TrailingWhitespace(x + w) == |x|
    decreases |w|
  {
    if w == [] {
      assert x + w == x;
    } else {
      assert (x + w)[..|x + w| - 1] == x + w[..|w| - 1];
      TrailingWhitespaceOf(x, w[..|w| - 1]);
    }
  }

  /** Trimming white space off both ends of `before + core + after` gives `core` when `core` has no white space at its ends. */
  lemma TrimAround(before: string, core: string, after: string)
    requires AllWhitespace(before) && AllWhitespace(after)
    requires core != [] && !IsWhitespace(core[0]) && !IsWhitespace(core[|core| - 1])
    ensures Trim(before + core + after) == core
  {
    assert before + core + after == before + (core + after);
    LeadingWhitespaceOf(before, core + after);
    assert TrimStart(before + core + after) == core + after;
    TrailingWhitespaceOf(core, after);
    assert (core + after)[..|core|] == core;
  }

  predicate IsDigit(c: char)
  {
    '0' <= c <= '9'
  }

  predicate AllDigits(s: string)
  {
    forall i :: 0 <= i < |s| ==> IsDigit(s[i])
  }

  function DigitValue(c: char): nat
    requires IsDigit(c)
  {
    c as int - '0' as int
  }

  function DigitChar(d: nat): (c: char)
    requires d < 10
    ensures IsDigit(c) && DigitValue(c) == d
  {
    (d + '0' as int) as char
  }

  /** The decimal digits of `n`, most significant first, without leading zeros. */
  function NatToString(n: nat): (r: string)
    ensures |r| >= 1 && AllDigits(r)
    decreases n
  {
    if n < 10 then [DigitChar(n)] else NatToString(n / 10) + [DigitChar(n % 10)]
  }

  /** An integer in a template string: `${n}`. */
  function IntToString(n: int): string
  {
    if n < 0 then "-" + NatToString(-n) else NatToString(n)
  }

  /** The value of a string of decimal digits. */
  function DigitsValue(ds: string): nat
    requires AllDigits(ds)
    decreases |ds|
  {
    if ds == [] then 0 else DigitsValue(ds[..|ds| - 1]) * 10 + DigitValue(ds[|ds| - 1])
  }

  /** The number of decimal digits `s` starts with. */
  function LeadingDigits(s: string): (k: nat)
    ensures k <= |s| && AllDigits(s[..k])
    ensures k < |s| ==> !IsDigit(s[k])
    decreases |s|
  {
    if s != [] && IsDigit(s[0]) then
      var k := LeadingDigits(s[1..]);
      assert s[..k + 1] == [s[0]] + s[1..][..k];
      k + 1
    else 0
  }

  /**
   * `parseInt(s, 10)`: skip leading white space, read an optional sign and then the longest
   * run of decimal digits; `None` stands for `NaN` (no digit at all).
   */
  function ParseInt(s: string): Option<int>
  {
    var t := TrimStart(s);
    var negative := |t| > 0 && t[0] == '-';
    var unsigned := if |t| > 0 && (t[0] == '-' || t[0] == '+') then t[1..] else t;
    var k := LeadingDigits(unsigned);
    if k == 0 then None
    else
      var magnitude: int := DigitsValue(unsigned[..k]);
      Some(if negative then -magnitude else magnitude)
  }

  lemma {:induction false} NatToStringValue(n: nat)
    ensures DigitsValue(NatToString(n)) == n
    decreases n
  {
    if n >= 10 {
      NatToStringValue(n / 10);
      var r := NatToString(n);
      assert r[..|r| - 1] == NatToString(n / 10);
    }
  }

  lemma AllDigitsLeading(s: string)
    requires AllDigits(s)
    ensures LeadingDigits(s) == |s|
  {
  }

  lemma DigitIsNotWhitespace(c: char)
    requires IsDigit(c)
    ensures !IsWhitespace(c) && c != '-' && c != '+'
  {
  }

  /** Reading back the decimal rendering of a natural number gives the number. */
  lemma ParseIntOfNatToString(n: nat)
    ensures ParseInt(NatToString(n)) == Some(n)
  {
    var digits := NatToString(n);
    NatToStringValue(n);
    AllDigitsLeading(digits);
    DigitIsNotWhitespace(digits[0]);
    assert TrimStart(digits) == digits;
    assert digits[0] != '-' && digits[0] != '+';
    assert digits[..|digits|] == digits;
  }

  /** Reading back the decimal rendering of an integer gives the integer. */
  lemma ParseIntOfIntToString(n: int)
    ensures ParseInt(IntToString(n)) == Some(n)
  {
    if n < 0 {
      var digits := NatToString(-n);
      NatToStringValue(-n);
      AllDigitsLeading(digits);
      var s := "-" + digits;
      assert TrimStart(s) == s;
      assert s[1..] == digits;
      assert digits[..|digits|] == digits;
    } else {
      ParseIntOfNatToString(n);
    }
  }

  /** Different integers are rendered differently. */
  lemma IntToStringInjective(a: int, b: int)
    requires IntToString(a) == IntToString(b)
    ensures a == b
  {
    ParseIntOfIntToString(a);
    ParseIntOfIntToString(b);
  }
}
