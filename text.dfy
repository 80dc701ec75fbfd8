/**
 * Characters and strings as the validator sees them: ASCII digits and
 * their decimal values, the JavaScript built-ins it calls on strings
 * (`parseInt`, `substring`, ASCII upper-casing) and separator stripping.
 */
module Text {
  import opened Wrappers

  predicate IsDigit(c: char) { '0' <= c <= '9' }

  /** `parseInt(c, 10)` for a digit character `c`. */
  function Digit(c: char): int { c as int - '0' as int }

  function DigitChar(d: int): (c: char)
    requires 0 <= d <= 9
    ensures IsDigit(c) && Digit(c) == d
  {
    ('0' as int + d) as char
  }

  lemma DigitInjective(c: char, d: char)
    requires Digit(c) == Digit(d)
    ensures c == d
  {
  }

  predicate AllDigits(s: string) { forall i | 0 <= i < |s| :: IsDigit(s[i]) }

  function Pow10(n: nat): (r: nat)
    ensures r >= 1
  {
    if n == 0 then 1 else 10 * Pow10(n - 1)
  }

  /** Decimal value of a digit string, most significant digit first. */
  function Value(s: string): int
  {
    if |s| == 0 then 0 else 10 * Value(s[..|s| - 1]) + Digit(s[|s| - 1])
  }

  lemma ValuePushDigit(s: string, c: char)
    ensures Value(s + [c]) == 10 * Value(s) + Digit(c)
  {
    assert (s + [c])[..|s|] == s;
  }

  lemma {:induction false} ValueBounds(s: string)
    requires AllDigits(s)
    ensures 0 <= Value(s) < Pow10(|s|)
  {
    if |s| > 0 {
      ValueBounds(s[..|s| - 1]);
    }
  }

  /** Appending digits shifts the value of what precedes them by a power of ten. */
  lemma {:induction false} ValueAppend(a: string, b: string)
    ensures Value(a + b) == Value(a) * Pow10(|b|) + Value(b)
  {
    if |b| == 0 {
      assert a + b == a;
    } else {
      var b' := b[..|b| - 1];
      var c := b[|b| - 1];
      assert a + b == (a + b') + [c];
      assert b == b' + [c];
      ValuePushDigit(a + b', c);
      ValuePushDigit(b', c);
      ValueAppend(a, b');
      ShiftDistributes(Value(a), Pow10(|b'|), Value(b'), Digit(c));
    }
  }

  lemma ShiftDistributes(x: int, p: int, y: int, d: int)
    ensures 10 * (x * p + y) + d == x * (10 * p) + (10 * y + d)
  {
  }

  /** Number of leading digit characters of `s`. */
  function LeadingDigits(s: string): (n: nat)
    ensures n <= |s| && AllDigits(s[..n])
    ensures n < |s| ==> !IsDigit(s[n])
  {
    if |s| == 0 || !IsDigit(s[0]) then 0
    else
      var n := 1 + LeadingDigits(s[1..]);
      assert forall i | 1 <= i < n :: s[..n][i] == s[1..][..n - 1][i - 1];
      n
  }

  /**
   * `parseInt(s, 10)`: the value of the longest leading run of digits, or
   * None (NaN) when `s` does not start with a digit.
   */
  function ParseInt(s: string): (r: Option<int>)
    ensures r.None? <==> (|s| == 0 || !IsDigit(s[0]))
    ensures AllDigits(s) && |s| > 0 ==> r == Some(Value(s))
    ensures r.Some? ==> r.value >= 0
  {
    var n := LeadingDigits(s);
    if n == 0 then None
    else
      ValueBounds(s[..n]);
      assert AllDigits(s) ==> n == |s| && s[..n] == s;
      Some(Value(s[..n]))
  }

  /** `parseInt` stops at the first non-digit: digits followed by anything else read as the digits. */
  lemma {:induction false} ParseIntStopsAtNonDigit(a: string, t: string)
    requires |a| > 0 && AllDigits(a) && (|t| == 0 || !IsDigit(t[0]))
    ensures LeadingDigits(a + t) == |a|
    ensures ParseInt(a + t) == Some(Value(a))
  {
    if |a| > 1 {
      ParseIntStopsAtNonDigit(a[1..], t);
      assert (a + t)[1..] == a[1..] + t;
    } else {
      assert (a + t)[1..] == t;
    }
    assert (a + t)[..|a|] == a;
  }

  /** JavaScript `s.substring(start, end)` for `start <= end`: both ends clamp to the length. */
  function Substring(s: string, start: nat, end: nat): (r: string)
    requires start <= end
    ensures end <= |s| ==> r == s[start..end]
    ensures |r| <= end - start
  {
    var e := if end <= |s| then end else |s|;
    var b := if start <= e then start else e;
    s[b..e]
  }

  /** Decimal rendering of a natural number, as JavaScript converts a number to a string. */
  function NatToString(n: nat): (s: string)
    ensures |s| >= 1 && AllDigits(s) && Value(s) == n
    ensures n < 10 ==> |s| == 1
    ensures n < 100 ==> |s| <= 2
  {
    if n < 10 then
      assert [DigitChar(n)][..0] == [];
      [DigitChar(n)]
    else
      var prefix := NatToString(n / 10);
      var c := DigitChar(n % 10);
      ValuePushDigit(prefix, c);
      prefix + [c]
  }

  /** `toUpperCase` on ASCII letters; every other character is left as it is. */
  function UpperAscii(c: char): char
  {
    if 'a' <= c <= 'z' then (c as int - 32) as char else c
  }

  function LowerAscii(c: char): char
  {
    if 'A' <= c <= 'Z' then (c as int + 32) as char else c
  }

  lemma UpperOfLower(c: char)
    ensures UpperAscii(LowerAscii(c)) == UpperAscii(c)
  {
  }

  function UpperString(s: string): (r: string)
    ensures |r| == |s| && forall i | 0 <= i < |s| :: r[i] == UpperAscii(s[i])
  {
    seq(|s|, i requires 0 <= i < |s| => UpperAscii(s[i]))
  }

  predicate IsUpperLetter(c: char) { 'A' <= c <= 'Z' }

  /**
   * `s` starts with the upper-case pattern `p`, letters compared without
   * regard to case, as in a regular expression with the `i` flag.
   */
  predicate HasPrefixCI(s: string, p: string)
  {
    |p| <= |s| && forall i | 0 <= i < |p| :: UpperAscii(s[i]) == p[i]
  }

  /** The characters the dispatcher removes: space, period, comma, underscore and hyphen. */
  predicate IsSeparator(c: char) { c == ' ' || c == '.' || c == ',' || c == '_' || c == '-' }

  /** `s.replace(/[ .,_-]/g, "")`. */
  function StripSeparators(s: string): (r: string)
    ensures |r| <= |s|
    ensures forall i | 0 <= i < |r| :: !IsSeparator(r[i])
  {
    if |s| == 0 then []
    else if IsSeparator(s[0]) then StripSeparators(s[1..])
    else [s[0]] + StripSeparators(s[1..])
  }

  lemma {:induction false} StripAppend(a: string, b: string)
    ensures StripSeparators(a + b) == StripSeparators(a) + StripSeparators(b)
  {
    if |a| == 0 {
      assert a + b == b;
    } else {
      assert (a + b)[0] == a[0];
      assert (a + b)[1..] == a[1..] + b;
      StripAppend(a[1..], b);
    }
  }

  /** A single character is dropped when it is a separator and kept otherwise. */
  lemma StripSingle(c: char)
    ensures StripSeparators([c]) == if IsSeparator(c) then [] else [c]
  {
    assert [c][1..] == [];
  }

  /** A string without separators is left unchanged by stripping. */
  lemma {:induction false} StripNoSeparators(s: string)
    requires forall i | 0 <= i < |s| :: !IsSeparator(s[i])
    ensures StripSeparators(s) == s
  {
    if |s| > 0 {
      StripNoSeparators(s[1..]);
    }
  }

  /** `t` equals the upper-case pattern `p` without regard to letter case. */
  predicate EqualsCI(t: string, p: string) { |t| == |p| && HasPrefixCI(t, p) }

  lemma DigitCharIff(c: char, e: int)
    requires 0 <= e <= 9
    ensures (IsDigit(c) && Digit(c) == e) <==> c == DigitChar(e)
  {
  }

  lemma AllDigitsAppend(a: string, b: string)
    requires AllDigits(a) && AllDigits(b)
    ensures AllDigits(a + b)
  {
    assert forall k | |a| <= k < |a + b| :: (a + b)[k] == b[k - |a|];
  }

  lemma AllDigitsSlice(s: string, a: nat, b: nat)
    requires AllDigits(s) && a <= b <= |s|
    ensures AllDigits(s[a..b])
  {
    assert forall i | 0 <= i < b - a :: s[a..b][i] == s[a + i];
  }

  /**
   * Facts about `code + stem + [c]`: a two-letter code, a stem and one
   * more character, as the completion lemmas of the rules use them.
   */
  lemma Completion(code: string, stem: string, c: char)
    requires |code| == 2
    ensures (code + stem + [c])[2..] == stem + [c]
    ensures (stem + [c])[..|stem|] == stem && (stem + [c])[|stem|] == c
    ensures AllDigits(stem + [c]) <==> AllDigits(stem) && IsDigit(c)
  {
    assert (code + stem + [c])[2..] == stem + [c];
    assert AllDigits(stem + [c]) ==> AllDigits(stem) by {
      if AllDigits(stem + [c]) {
        assert forall i | 0 <= i < |stem| :: stem[i] == (stem + [c])[i];
      }
    }
  }
}
