/**
 * United Kingdom VAT numbers: nine- or twelve-digit numbers with a mod-97
 * check (and its later variant shifted by 55), government departments `GD`
 * and health authorities `HA` followed by three digits.
 *
 * `GbValid` uses the anchored format guard `GB` followed by nine digits,
 * twelve digits, or `GD`/`HA` and three digits. The validator's own guard
 * is not anchored; `GbValidAsWritten` models it and `GbTrailingCharacter`
 * shows a number it accepts that the anchored guard rejects.
 */
module GbRule {
  import opened Wrappers
  import opened Text
  import opened Checksums

  const GbWeights: seq<int> := [8, 7, 6, 5, 4, 3, 2]

  /** The loop `while (total > 0) total -= 97;` followed by `total *= -1`, for a non-negative total. */
  method ReduceTotal(t: int) returns (total: int)
    requires t >= 0
    ensures total == (97 - t % 97) % 97
    ensures 0 <= total <= 96
  {
    total := t;
    while total > 0
      invariant -97 < total <= t
      invariant (t - total) % 97 == 0
      decreases total
    {
      total := total - 97;
    }
    total := -total;
  }

  /** The check of the first scheme: 97 minus the weighted sum mod 97, 97 read as 0. */
  function GbCheckTotal(d: string): (r: int)
    requires |d| == 7
    ensures 0 <= r <= 96
  {
    (97 - WeightedSum(d, GbWeights) % 97) % 97
  }

  /** The check of the second scheme, derived from the first one's. */
  function GbAlternativeTotal(total: int): int
  {
    if total >= 55 then total - 55 else total + 42
  }

  /**
   * The two-digit check `cd` (None when `parseInt` gives NaN) matches the
   * first scheme for a number outside the excluded ranges, or the second
   * scheme for a number above 1000000.
   */
  predicate GbChecksumAccepts(d: string, cd: Option<int>)
    requires |d| == 7
  {
    var no := Value(d);
    var total := GbCheckTotal(d);
    (cd == Some(total) && no < 9990001 && (no < 100000 || no > 999999) && (no < 9490001 || no > 9700000))
    || (cd == Some(GbAlternativeTotal(total)) && no > 1000000)
  }

  /**
   * What the validator does with the text after `GB`, whatever it is: the
   * upper-case codes `GD` and `HA` test the next three characters as a
   * number, a body that parses to zero is rejected, a body whose first seven
   * characters are not all digits makes the total NaN and is rejected, and
   * otherwise the checksum decides.
   */
  predicate GbBodyAccepts(b: string)
  {
    var nextTwo := Substring(b, 0, 2);
    if nextTwo == "GD" then
      var n := ParseInt(Substring(b, 2, 5));
      n.Some? && n.value < 500
    else if nextTwo == "HA" then
      var n := ParseInt(Substring(b, 2, 5));
      n.Some? && n.value > 499
    else if ParseInt(b) == Some(0) then false
    else if !(|b| >= 7 && AllDigits(b[..7])) then false
    else GbChecksumAccepts(b[..7], ParseInt(Substring(b, 7, 9)))
  }

  /** `GD` or `HA` in either case. */
  predicate GbCodeCI(t: string)
  {
    EqualsCI(t, "GD") || EqualsCI(t, "HA")
  }

  /** Nine digits, twelve digits, or `GD`/`HA` (either case) and three digits. */
  predicate GbShape(b: string)
  {
    ((|b| == 9 || |b| == 12) && AllDigits(b))
    || (|b| == 5 && GbCodeCI(b[..2]) && AllDigits(b[2..]))
  }

  /** The anchored guard `/^GB(\d{9}|\d{12}|(GD|HA)\d{3})$/i` and the body's rule. */
  predicate GbValid(s: string)
  {
    HasPrefixCI(s, "GB") && GbShape(s[2..]) && GbBodyAccepts(s[2..])
  }

  method CheckGb(s: string) returns (ok: bool)
    ensures ok == GbValid(s)
  {
    if !(HasPrefixCI(s, "GB") && GbShape(s[2..])) {
      return false;
    }
    var v := s[2..];
    var nextTwo := Substring(v, 0, 2);
    if nextTwo == "GD" {
      var n := ParseInt(Substring(v, 2, 5));
      return n.Some? && n.value < 500;
    }
    if nextTwo == "HA" {
      var n := ParseInt(Substring(v, 2, 5));
      return n.Some? && n.value > 499;
    }
    if ParseInt(v) == Some(0) {
      return false;
    }
    if !(|v| >= 7 && AllDigits(v[..7])) {
      return false;
    }
    var no := Value(v[..7]);
    var total := WeightedTotal(v[..7], GbWeights);
    WeightedSumNonNegative(v[..7], GbWeights);
    total := ReduceTotal(total);
    var cd := ParseInt(Substring(v, 7, 9));
    if cd == Some(total) && no < 9990001 && (no < 100000 || no > 999999) && (no < 9490001 || no > 9700000) {
      return true;
    }
    if total >= 55 {
      total := total - 55;
    } else {
      total := total + 42;
    }
    return cd == Some(total) && no > 1000000;
  }

  /**
   * The first scheme makes the weighted sum plus the check a multiple of
   * 97; the second makes the weighted sum plus the check plus 55 one.
   */
  lemma GbCheckSchemes(d: string)
    requires |d| == 7 && AllDigits(d)
    ensures (WeightedSum(d, GbWeights) + GbCheckTotal(d)) % 97 == 0
    ensures (WeightedSum(d, GbWeights) + GbAlternativeTotal(GbCheckTotal(d)) + 55) % 97 == 0
  {
    var t := WeightedSum(d, GbWeights);
    var q, r := t / 97, t % 97;
    if r == 0 {
      assert t + GbCheckTotal(d) == 97 * q;
    } else {
      assert t + GbCheckTotal(d) == 97 * (q + 1);
    }
    var k := (t + GbCheckTotal(d)) / 97;
    assert t + GbAlternativeTotal(GbCheckTotal(d)) + 55 == 97 * (k + 1) || t + GbAlternativeTotal(GbCheckTotal(d)) + 55 == 97 * k;
  }

  /** Government departments are accepted exactly when the three-digit number is below 500. */
  lemma GbGovernmentDepartment(d: string)
    requires |d| == 3 && AllDigits(d)
    ensures GbValid("GBGD" + d) <==> Value(d) < 500
  {
    GbCodeBody("GD", d);
    GbPrefixed("GD" + d);
    assert "GBGD" + d == "GB" + ("GD" + d);
  }

  /** Health authorities are accepted exactly when the three-digit number is above 499. */
  lemma GbHealthAuthority(d: string)
    requires |d| == 3 && AllDigits(d)
    ensures GbValid("GBHA" + d) <==> Value(d) > 499
  {
    GbCodeBody("HA", d);
    GbPrefixed("HA" + d);
    assert "GBHA" + d == "GB" + ("HA" + d);
  }

  /** What the body rule makes of an upper-case code and three digits. */
  lemma GbCodeBody(code: string, d: string)
    requires code == "GD" || code == "HA"
    requires |d| == 3 && AllDigits(d)
    ensures GbShape(code + d)
    ensures GbBodyAccepts(code + d) <==> if code == "GD" then Value(d) < 500 else Value(d) > 499
  {
    var b := code + d;
    assert b[..2] == code && b[2..] == d;
    assert GbCodeCI(code) by {
      assert UpperAscii(code[0]) == code[0] && UpperAscii(code[1]) == code[1];
    }
    assert Substring(b, 0, 2) == code && Substring(b, 2, 5) == d;
    assert ParseInt(d) == Some(Value(d));
  }

  /** `GB` followed by a body is valid exactly when the body passes the guard and the body rule. */
  lemma GbPrefixed(b: string)
    ensures GbValid("GB" + b) <==> GbShape(b) && GbBodyAccepts(b)
  {
    var s := "GB" + b;
    assert s[2..] == b;
    assert s[0] == 'G' && s[1] == 'B';
  }

  /** The codes compare case-sensitively: `gd`, `Ha` and the like pass the guard, then fail on NaN. */
  lemma GbLowerCaseCodeRejected(code: string, d: string)
    requires |code| == 2 && GbCodeCI(code) && code != "GD" && code != "HA"
    requires |d| == 3 && AllDigits(d)
    ensures GbShape(code + d)
    ensures !GbValid("GB" + code + d)
  {
    var b := code + d;
    assert ("GB" + code + d)[2..] == b && b[..2] == code && b[2..] == d && Substring(b, 0, 2) == code;
    assert !IsDigit(b[0]) by {
      assert UpperAscii(b[0]) == 'G' || UpperAscii(b[0]) == 'H';
    }
  }

  /**
   * A nine-digit body is accepted exactly when it is not zero and its last
   * two digits are a check of one of the two schemes.
   */
  lemma GbNineDigitRule(b: string)
    requires |b| == 9 && AllDigits(b)
    ensures GbValid("GB" + b) <==>
      Value(b) != 0 && GbChecksumAccepts(b[..7], Some(Value(b[7..])))
  {
    assert ("GB" + b)[2..] == b;
    assert Substring(b, 0, 2) == b[..2] && IsDigit(b[0]);
    assert Substring(b, 7, 9) == b[7..];
    AllDigitsSlice(b, 0, 7);
    AllDigitsSlice(b, 7, 9);
  }

  /** A body of zeros only parses to 0. */
  lemma {:induction false} ValueOfZeros(b: string)
    requires forall i | 0 <= i < |b| :: b[i] == '0'
    ensures Value(b) == 0
  {
    if |b| > 0 {
      ValueOfZeros(b[..|b| - 1]);
    }
  }

  /** A body of nine or twelve zeros is rejected. */
  lemma GbAllZeroRejected(b: string)
    requires |b| == 9 || |b| == 12
    requires forall i | 0 <= i < |b| :: b[i] == '0'
    ensures !GbValid("GB" + b)
  {
    assert ("GB" + b)[2..] == b;
    ValueOfZeros(b);
    assert AllDigits(b);
    assert Substring(b, 0, 2) == b[..2] && b[0] == '0';
  }

  // ------------------------------------------------- the guard as written

  /** Some twelve consecutive characters of `s` are digits. */
  predicate HasTwelveDigitRun(s: string)
  {
    |s| >= 12 && (AllDigits(s[..12]) || HasTwelveDigitRun(s[1..]))
  }

  /** `s` ends with `GD` or `HA` (either case) and three digits. */
  predicate HasCodeSuffix(s: string)
  {
    |s| >= 5 && GbCodeCI(s[|s| - 5..|s| - 3]) && AllDigits(s[|s| - 3..])
  }

  /**
   * The validator's guard `/^GB\d{9}|\d{12}|(GD|HA)\d{3}$/i`: the
   * alternation is not grouped, so only the first branch is anchored at the
   * start and only the last at the end.
   */
  predicate GbGuardAsWritten(s: string)
  {
    (HasPrefixCI(s, "GB") && |s| >= 11 && AllDigits(s[2..11]))
    || HasTwelveDigitRun(s)
    || HasCodeSuffix(s)
  }

  /** The validator's behaviour with its own guard. */
  predicate GbValidAsWritten(s: string)
  {
    GbGuardAsWritten(s) && |s| >= 2 && GbBodyAccepts(s[2..])
  }

  /** The anchored guard admits only the lengths 7, 11 and 14. */
  lemma GbAnchored(s: string)
    ensures GbValid(s) ==> |s| == 7 || |s| == 11 || |s| == 14
  {
  }

  /**
   * Any accepted nine-digit number followed by a non-digit passes the guard
   * as written and is still accepted, because `parseInt` stops at the
   * non-digit; the anchored guard rejects it.
   */
  lemma GbTrailingCharacter(b: string, x: char)
    requires |b| == 9 && GbValid("GB" + b) && !IsDigit(x)
    ensures GbValidAsWritten("GB" + b + [x]) && !GbValid("GB" + b + [x])
  {
    var b' := b + [x];
    assert ("GB" + b)[2..] == b && ("GB" + b + [x])[2..] == b';
    assert ("GB" + b + [x])[2..11] == b && ("GB" + b + [x])[..2] == ("GB" + b)[..2];
    assert AllDigits(b);
    ParseIntStopsAtNonDigit(b, [x]);
    assert b'[..7] == b[..7] && b'[7..9] == b[7..9] && b'[..2] == b[..2];
    assert !AllDigits(b') by {
      assert b'[9] == x;
    }
  }

  /** `GB123456782` is a valid number: weighted sum 112, check 97 - 15 = 82. */
  lemma GbSampleValid()
    ensures GbValid("GB123456782")
  {
    var d := "1234567";
    var b := "123456782";
    assert AllDigits(b) && b[..7] == d && b[7..] == "82" && b == d + "82";
    GbNineDigitRule(b);
    GbSampleChecksum();
    assert Value("82") == 82 by { assert "82"[..1] == "8" && "8"[..0] == ""; }
    ValueAppend(d, "82");
  }

  /** The number and the first-scheme check of the sample `1234567`. */
  lemma GbSampleChecksum()
    ensures Value("1234567") == 1234567 && GbCheckTotal("1234567") == 82
  {
    var d := "1234567";
    assert Value("1") == 1 by { assert "1"[..0] == ""; }
    assert Value("12") == 12 by { assert "12"[..1] == "1"; }
    assert Value("123") == 123 by { assert "123"[..2] == "12"; }
    assert Value("1234") == 1234 by { assert "1234"[..3] == "123"; }
    assert Value("12345") == 12345 by { assert "12345"[..4] == "1234"; }
    assert Value("123456") == 123456 by { assert "123456"[..5] == "12345"; }
    assert Value(d) == 1234567 by { assert d[..6] == "123456"; }
    assert WeightedSum("1", [8]) == 8 by { assert "1"[..0] == "" && [8][..0] == []; }
    assert WeightedSum("12", [8, 7]) == 22 by { assert "12"[..1] == "1" && [8, 7][..1] == [8]; }
    assert WeightedSum("123", [8, 7, 6]) == 40 by { assert "123"[..2] == "12" && [8, 7, 6][..2] == [8, 7]; }
    assert WeightedSum("1234", [8, 7, 6, 5]) == 60 by {
      assert "1234"[..3] == "123" && [8, 7, 6, 5][..3] == [8, 7, 6];
    }
    assert WeightedSum("12345", [8, 7, 6, 5, 4]) == 80 by {
      assert "12345"[..4] == "1234" && [8, 7, 6, 5, 4][..4] == [8, 7, 6, 5];
    }
    assert WeightedSum("123456", [8, 7, 6, 5, 4, 3]) == 98 by {
      assert "123456"[..5] == "12345" && [8, 7, 6, 5, 4, 3][..5] == [8, 7, 6, 5, 4];
    }
    assert WeightedSum(d, GbWeights) == 112 by {
      assert d[..6] == "123456" && GbWeights[..6] == [8, 7, 6, 5, 4, 3];
    }
  }
}
