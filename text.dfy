/**
 * The string operations the forms and search boxes use: `trim`,
 * `toLowerCase`, `includes`, and the decimal rendering of a count inside a
 * template literal.
 */
module Text {

  /** A character `String.prototype.trim` removes: an ECMAScript WhiteSpace or LineTerminator code point. */
  predicate IsWhitespace(c: char)
  {
    c == ' ' || c == '\t' || c == '\n' || c == '\r' || c == '\U{B}' || c == '\U{C}'
    || c == '\U{A0}' || c == '\U{FEFF}' || c == '\U{1680}' || ('\U{2000}' <= c <= '\U{200A}')
    || c == '\U{2028}' || c == '\U{2029}' || c == '\U{202F}' || c == '\U{205F}' || c == '\U{3000}'
  }

  /** Every character of `s` is whitespace (the empty string included). */
  predicate IsBlank(s: string)
  {
    forall i :: 0 <= i < |s| ==> IsWhitespace(s[i])
  }

  /** How many whitespace characters `s` starts with. */
  function LeadingWhitespace(s: string): (n: nat)
    ensures n <= |s|
    ensures forall k :: 0 <= k < n ==> IsWhitespace(s[k])
    ensures n < |s| ==> !IsWhitespace(s[n])
  {
    if s != [] && IsWhitespace(s[0]) then 1 + LeadingWhitespace(s[1..]) else 0
  }

  /** How many whitespace characters `s` ends with. */
  function TrailingWhitespace(s: string): (n: nat)
    ensures n <= |s|
    ensures forall k :: |s| - n <= k < |s| ==> IsWhitespace(s[k])
    ensures n < |s| ==> !IsWhitespace(s[|s| - n - 1])
  {
    if s != [] && IsWhitespace(s[|s| - 1]) then 1 + TrailingWhitespace(s[..|s| - 1]) else 0
  }

  /** `s.trim()`: `s` without its leading and trailing whitespace. */
  function Trim(s: string): (r: string)
    ensures r != [] ==> !IsWhitespace(r[0]) && !IsWhitespace(r[|r| - 1])
  {
    var rest := s[LeadingWhitespace(s)..];
    rest[..|rest| - TrailingWhitespace(rest)]
  }

  /** `!s.trim()` holds exactly for the blank strings. */
  lemma TrimEmptyIffBlank(s: string)
    ensures Trim(s) == [] <==> IsBlank(s)
  {
    var a := LeadingWhitespace(s);
    var rest := s[a..];
    if Trim(s) == [] {
      assert TrailingWhitespace(rest) == |rest|;
    }
    if IsBlank(s) {
      assert a == |s|;
    }
  }

  /** What trim keeps is a contiguous piece of its input, with only whitespace cut on either side. */
  lemma TrimIsSlice(s: string)
    ensures exists i, j :: 0 <= i <= j <= |s| && Trim(s) == s[i..j] && IsBlank(s[..i]) && IsBlank(s[j..])
  {
    var a := LeadingWhitespace(s);
    var rest := s[a..];
    var j := a + |rest| - TrailingWhitespace(rest);
    assert Trim(s) == s[a..j];
    assert IsBlank(s[..a]);
    forall k | 0 <= k < |s[j..]| ensures IsWhitespace(s[j..][k]) {
      assert s[j..][k] == rest[j - a + k];
    }
  }

  /** `c.toLowerCase()` on the ASCII letters; every other character is left as it is. */
  function LowerChar(c: char): (r: char)
    ensures 'A' <= c <= 'Z' ==> 'a' <= r <= 'z' && r as int - c as int == 'a' as int - 'A' as int
    ensures !('A' <= c <= 'Z') ==> r == c
  {
    if 'A' <= c <= 'Z' then (c as int - 'A' as int + 'a' as int) as char else c
  }

  /** `s.toLowerCase()`, character by character. */
  function Lower(s: string): (r: string)
    ensures |r| == |s| && forall i :: 0 <= i < |s| ==> r[i] == LowerChar(s[i])
  {
    seq(|s|, i requires 0 <= i < |s| => LowerChar(s[i]))
  }

  /** `s.startsWith(q)`. */
  predicate StartsWith(s: string, q: string)
  {
    |q| <= |s| && s[..|q|] == q
  }

  /** `q` occurs in `s` at position `i`. */
  predicate OccursAt(s: string, q: string, i: int)
  {
    0 <= i <= |s| - |q| && s[i..i + |q|] == q
  }

  /** `s.includes(q)`, written as a scan over the start positions. */
  predicate Includes(s: string, q: string)
  {
    StartsWith(s, q) || (s != [] && Includes(s[1..], q))
  }

  /** `includes` holds exactly when `q` occurs in `s` at some position. */
  lemma {:induction false} IncludesIffOccurs(s: string, q: string)
    ensures Includes(s, q) <==> exists i :: OccursAt(s, q, i)
  {
    if StartsWith(s, q) {
      assert OccursAt(s, q, 0);
    }
    if s != [] {
      IncludesIffOccurs(s[1..], q);
      if Includes(s[1..], q) {
        var i :| OccursAt(s[1..], q, i);
        assert s[i + 1..i + 1 + |q|] == s[1..][i..i + |q|];
        assert OccursAt(s, q, i + 1);
      }
      if exists i :: OccursAt(s, q, i) {
        var i :| OccursAt(s, q, i);
        if i > 0 {
          assert s[1..][i - 1..i - 1 + |q|] == s[i..i + |q|];
          assert OccursAt(s[1..], q, i - 1);
        }
      }
    } else if exists i :: OccursAt(s, q, i) {
      var i :| OccursAt(s, q, i);
      assert StartsWith(s, q);
    }
  }

  /** The empty query is included in every string, so an empty search box hides nothing. */
  lemma IncludesEmpty(s: string)
    ensures Includes(s, "")
  {
    assert StartsWith(s, "");
  }

  /** The character for a decimal digit. */
  function DigitChar(d: nat): (c: char)
    requires d < 10
    ensures '0' <= c <= '9' && c as int - '0' as int == d
  {
    (d + '0' as int) as char
  }

  /** `${n}` for a non-negative integer: its decimal digits, without leading zeros. */
  function DecimalString(n: nat): (r: string)
    ensures 1 <= |r|
    ensures forall i :: 0 <= i < |r| ==> '0' <= r[i] <= '9'
    ensures (|r| == 1) == (n < 10)
  {
    if n < 10 then [DigitChar(n)] else DecimalString(n / 10) + [DigitChar(n % 10)]
  }

  /** Different counts are rendered as different strings. */
  lemma {:induction false} DecimalStringInjective(m: nat, n: nat)
    requires DecimalString(m) == DecimalString(n)
    ensures m == n
  {
    var r := DecimalString(m);
    if 10 <= m {
      assert 10 <= n;
      assert DecimalString(m / 10) == r[..|r| - 1] == DecimalString(n / 10);
      DecimalStringInjective(m / 10, n / 10);
      assert m % 10 == n % 10 by {
        assert DigitChar(m % 10) == r[|r| - 1] == DigitChar(n % 10);
      }
    }
  }

  /** How many decimal digits `s` starts with. */
  function LeadingDigits(s: string): nat
  {
    if s != [] && '0' <= s[0] <= '9' then 1 + LeadingDigits(s[1..]) else 0
  }

  /** Digits followed by a non-digit: the leading digits are exactly the first part. */
  lemma {:induction false} LeadingDigitsOfConcat(d: string, x: string)
    requires forall i :: 0 <= i < |d| ==> '0' <= d[i] <= '9'
    requires x != [] && !('0' <= x[0] <= '9')
    ensures LeadingDigits(d + x) == |d|
  {
    if d == [] {
      assert d + x == x;
    } else {
      assert (d + x)[1..] == d[1..] + x;
      LeadingDigitsOfConcat(d[1..], x);
    }
  }

  /** A decimal string is fixed by any text that follows it, as long as that text does not start with a digit. */
  lemma DecimalPrefixUnique(m: nat, n: nat, x: string, y: string)
    requires DecimalString(m) + x == DecimalString(n) + y
    requires x != [] && !('0' <= x[0] <= '9')
    requires y != [] && !('0' <= y[0] <= '9')
    ensures m == n && x == y
  {
    var dm, dn := DecimalString(m), DecimalString(n);
    var t := dm + x;
    LeadingDigitsOfConcat(dm, x);
    LeadingDigitsOfConcat(dn, y);
    assert dm == t[..|dm|] == dn;
    DecimalStringInjective(m, n);
    assert x == t[|dm|..] == y;
  }
}
