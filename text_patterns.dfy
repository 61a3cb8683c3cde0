/**
 * Character-level meaning of the string tests the registration form uses:
 * JavaScript's `String.prototype.trim`, the e-mail regular expression
 * `^\S+@\S+\.\S+$` and the phone regular expression `^[6-9]\d{9}$`.
 */
module TextPatterns {

  // ---------------------------------------------------------------------------
  // Whitespace, as JavaScript's `trim` and the regex class `\s` both define it:
  // the WhiteSpace and LineTerminator code points of ECMAScript.
  // ---------------------------------------------------------------------------

  predicate IsWhitespace(c: char)
  {
    var n := c as int;
    n == 0x09 || n == 0x0A || n == 0x0B || n == 0x0C || n == 0x0D || n == 0x20
    || n == 0xA0 || n == 0x1680 || (0x2000 <= n <= 0x200A)
    || n == 0x2028 || n == 0x2029 || n == 0x202F || n == 0x205F
    || n == 0x3000 || n == 0xFEFF
  }

  predicate AllWhitespace(s: string)
  {
    forall i | 0 <= i < |s| :: IsWhitespace(s[i])
  }

  /** Every character of `s` is matched by `\S`. */
  predicate NoWhitespace(s: string)
  {
    forall i | 0 <= i < |s| :: !IsWhitespace(s[i])
  }

  // ---------------------------------------------------------------------------
  // trim
  // ---------------------------------------------------------------------------

  /** `s` without its leading whitespace. */
  function TrimStart(s: string): (r: string)
    ensures |r| <= |s| && r == s[|s| - |r|..]
    ensures AllWhitespace(s[..|s| - |r|])
    ensures r == [] || !IsWhitespace(r[0])
  {
    if |s| > 0 && IsWhitespace(s[0]) then TrimStart(s[1..]) else s
  }

  /** `s` without its trailing whitespace. */
  function TrimEnd(s: string): (r: string)
    ensures |r| <= |s| && r == s[..|r|]
    ensures AllWhitespace(s[|r|..])
    ensures r == [] || !IsWhitespace(r[|r| - 1])
  {
    if |s| > 0 && IsWhitespace(s[|s| - 1]) then TrimEnd(s[..|s| - 1]) else s
  }

  /** JavaScript's `s.trim()`: a contiguous middle part of `s`, cut only at whitespace. */
  function Trim(s: string): (r: string)
    ensures exists lo | 0 <= lo <= |s| - |r| ::
              r == s[lo..lo + |r|] && AllWhitespace(s[..lo]) && AllWhitespace(s[lo + |r|..])
    ensures r == [] || (!IsWhitespace(r[0]) && !IsWhitespace(r[|r| - 1]))
  {
    var t := TrimStart(s);
    var r := TrimEnd(t);
    var lo := |s| - |t|;
    assert r == s[lo..lo + |r|] by {
      assert t == s[lo..];
    }
    assert AllWhitespace(s[lo + |r|..]) by {
      assert s[lo + |r|..] == t[|r|..];
    }
    r
  }

  /** `!s.trim()` in the source: the trimmed string is empty exactly when `s` is all whitespace. */
  lemma TrimEmptyIffBlank(s: string)
    ensures Trim(s) == [] <==> AllWhitespace(s)
  {
  }

  // ---------------------------------------------------------------------------
  // E-mail: /^\S+@\S+\.\S+$/ (no flags, so the anchors span the whole string)
  // ---------------------------------------------------------------------------

  /**
   * The regular expression read literally: `s` splits into a non-empty run of
   * non-whitespace, an `@`, another non-empty run, a `.`, and a last non-empty run.
   */
  ghost predicate EmailPattern(s: string)
  {
    exists i, j | 0 < i && i + 1 < j && j + 1 < |s| ::
      s[i] == '@' && s[j] == '.'
      && NoWhitespace(s[..i]) && NoWhitespace(s[i + 1..j]) && NoWhitespace(s[j + 1..])
  }

  /** Index of the first `c` in `s` at or after `from`, or `|s|` when there is none. */
  function IndexOf(s: string, c: char, from: nat): (k: nat)
    ensures k <= |s|
    ensures k < |s| ==> from <= k && s[k] == c
    ensures forall m | from <= m < k :: s[m] != c
    decreases |s| - from
  {
    if from >= |s| then |s|
    else if s[from] == c then from
    else IndexOf(s, c, from + 1)
  }

  /**
   * A one-pass decision procedure for `EmailPattern`: no whitespace anywhere,
   * an `@` after the first character, and a `.` at least two characters after
   * that `@` but before the last character.
   */
  function IsEmail(s: string): (r: bool)
    ensures r <==> EmailPattern(s)
  {
    var at := IndexOf(s, '@', 1);
    var dot := IndexOf(s, '.', at + 2);
    var r := NoWhitespace(s) && at < |s| && dot + 1 < |s|;
    assert r ==> EmailPattern(s) by {
      if r {
        assert s[at] == '@' && s[dot] == '.';
        assert NoWhitespace(s[..at]) && NoWhitespace(s[at + 1..dot]) && NoWhitespace(s[dot + 1..]);
      }
    }
    assert EmailPattern(s) ==> r by {
      if EmailPattern(s) {
        var i, j :| 0 < i && i + 1 < j && j + 1 < |s| && s[i] == '@' && s[j] == '.'
          && NoWhitespace(s[..i]) && NoWhitespace(s[i + 1..j]) && NoWhitespace(s[j + 1..]);
        EmailPiecesHaveNoWhitespace(s, i, j);
      }
    }
    r
  }

  lemma EmailPiecesHaveNoWhitespace(s: string, i: nat, j: nat)
    requires 0 < i && i + 1 < j && j + 1 < |s| && s[i] == '@' && s[j] == '.'
    requires NoWhitespace(s[..i]) && NoWhitespace(s[i + 1..j]) && NoWhitespace(s[j + 1..])
    ensures NoWhitespace(s)
  {
  }

  // ---------------------------------------------------------------------------
  // Phone: /^[6-9]\d{9}$/ (`\d` is ASCII 0-9)
  // ---------------------------------------------------------------------------

  predicate IsDigit(c: char)
  {
    '0' <= c <= '9'
  }

  predicate AllDigits(s: string)
  {
    forall i | 0 <= i < |s| :: IsDigit(s[i])
  }

  /** The regular expression read literally: ten characters, a 6-9 then nine digits. */
  predicate PhonePattern(s: string)
  {
    |s| == 10 && '6' <= s[0] <= '9' && forall i | 1 <= i < |s| :: IsDigit(s[i])
  }

  function DigitValue(c: char): nat
    requires IsDigit(c)
  {
    (c as int) - ('0' as int)
  }

  function Pow10(n: nat): (p: nat)
    ensures p >= 1
  {
    if n == 0 then 1 else 10 * Pow10(n - 1)
  }

  /** The number a string of decimal digits spells, most significant digit first. */
  function DigitsValue(s: string): nat
    requires AllDigits(s)
  {
    if |s| == 0 then 0 else DigitValue(s[0]) * Pow10(|s| - 1) + DigitsValue(s[1..])
  }

  lemma {:induction false} DigitsValueBound(s: string)
    requires AllDigits(s)
    ensures DigitsValue(s) < Pow10(|s|)
  {
    if |s| > 0 {
      DigitsValueBound(s[1..]);
      MulLeft(DigitValue(s[0]), 9, Pow10(|s| - 1));
    }
  }

  lemma MulLeft(a: nat, b: nat, c: nat)
    requires a <= b
    ensures a * c <= b * c
  {
  }

  lemma Pow10Nine()
    ensures Pow10(9) == 1000000000
  {
  }

  /**
   * The phone pattern says the same as "ten decimal digits spelling a number
   * from 6000000000 to 9999999999".
   */
  lemma PhoneAsNumber(s: string)
    ensures PhonePattern(s) <==>
      |s| == 10 && AllDigits(s) && 6000000000 <= DigitsValue(s) <= 9999999999
  {
    if |s| == 10 && AllDigits(s) {
      Pow10Nine();
      DigitsValueBound(s[1..]);
      var d, rest := DigitValue(s[0]), DigitsValue(s[1..]);
      assert DigitsValue(s) == d * 1000000000 + rest;
      assert rest < 1000000000;
      if '6' <= s[0] {
        assert d >= 6;
      } else {
        assert d <= 5;
      }
    }
  }
}
