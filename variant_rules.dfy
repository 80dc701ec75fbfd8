/**
 * The countries with several number formats, each with its own checksum:
 * Bulgaria, the Czech Republic, Lithuania, Latvia, France and Spain.
 *
 * As for the single-rule countries, each country `Xx` has a predicate
 * `XxValid(s)` on the separator-free string, a predicate `XxBody` on what
 * follows the two-letter code and, where the validator loops, a method
 * `CheckXx` proved to decide `XxValid`.
 */
module VariantRules {
  import opened Wrappers
  import opened Text
  import opened Checksums

  // --------------------------------------------------------------- Bulgaria

  const BgNineWeights: seq<int> := [1, 2, 3, 4, 5, 6, 7, 8]
  const BgNineFallbackWeights: seq<int> := [3, 4, 5, 6, 7, 8, 9, 10]
  const BgPhysicalWeights: seq<int> := [2, 4, 8, 5, 10, 9, 7, 3, 6]
  const BgLegalWeights: seq<int> := [21, 19, 17, 13, 11, 9, 7, 3, 1]
  const BgForeignWeights: seq<int> := [4, 3, 2, 7, 6, 5, 4, 3, 2]

  /**
   * Nine-digit numbers: the sum with weights 1..8 mod 11, or, when that is
   * 10, the sum with weights 3..10 mod 11 with 10 read as 0.
   */
  function BgNineCheckDigit(d: string): (r: int)
    requires |d| == 8
    ensures 0 <= r <= 9
  {
    var t := WeightedSum(d, BgNineWeights) % 11;
    if t != 10 then t
    else
      var t2 := WeightedSum(d, BgNineFallbackWeights) % 11;
      if t2 == 10 then 0 else t2
  }

  /** `/^\d\d[0-5]\d[0-3]\d{5}$/` and a month (century-coded) in 1..12, 21..32 or 41..52. */
  predicate BgBirthDate(b: string)
    requires |b| >= 5
  {
    '0' <= b[2] <= '5' && '0' <= b[4] <= '3' &&
    var month := Value(b[2..4]);
    (0 < month < 13) || (20 < month < 33) || (40 < month < 53)
  }

  /** Physical persons: the weighted sum mod 11, 10 read as 0. */
  function BgPhysicalCheckDigit(d: string): (r: int)
    requires |d| == 9
    ensures 0 <= r <= 9
  {
    var t := WeightedSum(d, BgPhysicalWeights) % 11;
    if t == 10 then 0 else t
  }

  /** Legal entities: the weighted sum mod 10. */
  function BgLegalCheckDigit(d: string): (r: int)
    requires |d| == 9
    ensures 0 <= r <= 9
  {
    WeightedSum(d, BgLegalWeights) % 10
  }

  /** Foreigners: `11 - total % 11`, 11 read as 0; the value 10 admits no check digit. */
  function BgForeignCheckDigit(d: string): (r: int)
    requires |d| == 9
    ensures 0 <= r <= 10
  {
    var t := 11 - WeightedSum(d, BgForeignWeights) % 11;
    if t == 11 then 0 else t
  }

  /** `/^BG[0-9]{9,10}$/i` and the rule for the length. */
  predicate BgValid(s: string) { HasPrefixCI(s, "BG") && BgBody(s[2..]) }

  predicate BgBody(b: string)
  {
    (|b| == 9 || |b| == 10) && AllDigits(b) &&
    if |b| == 9 then BgNineCheckDigit(b[..8]) == Digit(b[8])
    else BgTenthAccepted(b[..9], b[9])
  }

  /** The three ten-digit rules, tried in turn: physical persons, legal entities, foreigners. */
  predicate BgTenthAccepted(d: string, c: char)
    requires |d| == 9
  {
    (BgBirthDate(d) && BgPhysicalCheckDigit(d) == Digit(c))
    || BgLegalCheckDigit(d) == Digit(c)
    || (BgForeignCheckDigit(d) != 10 && BgForeignCheckDigit(d) == Digit(c))
  }

  method CheckBg(s: string) returns (ok: bool)
    ensures ok == BgValid(s)
  {
    if !(HasPrefixCI(s, "BG") && (|s| == 11 || |s| == 12) && AllDigits(s[2..])) {
      return false;
    }
    var v := s[2..];
    if |v| == 9 {
      var total := WeightedTotal(v[..8], BgNineWeights);
      total := total % 11;
      var checkSum := Digit(v[8]);
      if total != 10 {
        return total == checkSum;
      }
      total := WeightedTotal(v[..8], BgNineFallbackWeights);
      total := total % 11;
      if total == 10 {
        total := 0;
      }
      return total == checkSum;
    }
    assert v[..9][2..4] == v[2..4] && v[..9][2] == v[2] && v[..9][4] == v[4];
    if '0' <= v[2] <= '5' && '0' <= v[4] <= '3' {
      var month := Value(v[2..4]);
      if (0 < month < 13) || (20 < month < 33) || (40 < month < 53) {
        var total := WeightedTotal(v[..9], BgPhysicalWeights);
        total := total % 11;
        if total == 10 {
          total := 0;
        }
        if total == Digit(v[9]) {
          return true;
        }
      }
    }
    var total := WeightedTotal(v[..9], BgLegalWeights);
    var checksum := Digit(v[9]);
    if total % 10 == checksum {
      return true;
    }
    total := WeightedTotal(v[..9], BgForeignWeights);
    total := 11 - total % 11;
    if total == 10 {
      return false;
    }
    if total == 11 {
      total := 0;
    }
    ok := total == checksum;
  }

  /** Exactly one digit completes a nine-digit Bulgarian stem. */
  lemma BgNineCompletion(stem: string, c: char)
    requires |stem| == 8 && AllDigits(stem)
    ensures BgValid("BG" + stem + [c]) <==> c == DigitChar(BgNineCheckDigit(stem))
  {
    Completion("BG", stem, c);
    DigitCharIff(c, BgNineCheckDigit(stem));
  }

  /**
   * The tenth digits accepted after a nine-digit stem: the legal-entity
   * digit always, the foreigners' digit unless it is 10, and the physical
   * persons' digit when the stem encodes a birth date.
   */
  lemma BgTenCompletion(stem: string, c: char)
    requires |stem| == 9 && AllDigits(stem)
    ensures BgValid("BG" + stem + [DigitChar(BgLegalCheckDigit(stem))])
    ensures BgValid("BG" + stem + [c]) <==>
      c == DigitChar(BgLegalCheckDigit(stem))
      || (BgForeignCheckDigit(stem) != 10 && c == DigitChar(BgForeignCheckDigit(stem)))
      || (BgBirthDate(stem) && c == DigitChar(BgPhysicalCheckDigit(stem)))
  {
    Completion("BG", stem, c);
    Completion("BG", stem, DigitChar(BgLegalCheckDigit(stem)));
    DigitCharIff(c, BgLegalCheckDigit(stem));
    DigitCharIff(c, BgPhysicalCheckDigit(stem));
    if BgForeignCheckDigit(stem) != 10 {
      DigitCharIff(c, BgForeignCheckDigit(stem));
    }
  }

  // --------------------------------------------------------- Czech Republic

  const CzWeights: seq<int> := [8, 7, 6, 5, 4, 3, 2]
  const CzLookup: seq<int> := [8, 7, 6, 5, 4, 3, 2, 1, 0, 9, 8]

  /** Legal entities: `11 - total % 11` with 10 read as 0 and 11 read as 1. */
  function CzLegalCheckDigit(d: string): (r: int)
    requires |d| == 7
    ensures 0 <= r <= 9
  {
    var t := 11 - WeightedSum(d, CzWeights) % 11;
    if t == 10 then 0 else if t == 11 then 1 else t
  }

  /** `/^[0-5][0-9][0156][0-9][0-3][0-9]\d{3}$/` on a digit string: a birth date. */
  predicate CzIndividualShape(b: string)
  {
    |b| == 9 && '0' <= b[0] <= '5' &&
    (b[2] == '0' || b[2] == '1' || b[2] == '5' || b[2] == '6') && '0' <= b[4] <= '3'
  }

  /** `Math.ceil(n / d)` for a positive divisor. */
  function CeilDiv(n: int, d: int): (q: int)
    requires d > 0
    ensures d * (q - 1) < n <= d * q
  {
    if n % d == 0 then n / d else n / d + 1
  }

  /** The distance from `total` to the next multiple of 11 strictly above it. */
  function CzPointer(total: int): (p: int)
    ensures p == 11 - total % 11
    ensures 1 <= p <= 11
  {
    var a := if total % 11 == 0 then total + 11 else CeilDiv(total, 11) * 11;
    a - total
  }

  /** Special individuals: the pointer looked up in `[8, 7, 6, 5, 4, 3, 2, 1, 0, 9, 8]`. */
  function CzSpecialCheckDigit(d: string): (r: int)
    requires |d| == 7
    ensures 0 <= r <= 9
  {
    assert forall i | 0 <= i < |CzLookup| :: 0 <= CzLookup[i] <= 9;
    CzLookup[CzPointer(WeightedSum(d, CzWeights)) - 1]
  }

  /** `/^\d{2}[0-3|5-8][0-9][0-3][0-9]\d{4}$/` on a digit string. */
  predicate CzTenShape(b: string)
  {
    |b| == 10 && (('0' <= b[2] <= '3') || b[2] == '|' || ('5' <= b[2] <= '8')) && '0' <= b[4] <= '3'
  }

  /** The sum of the five two-digit groups. */
  function CzGroupSum(b: string): int
    requires |b| == 10
  {
    Value(b[0..2]) + Value(b[2..4]) + Value(b[4..6]) + Value(b[6..8]) + Value(b[8..10])
  }

  /** `/^CZ\d{8,10}(\d{3})?$/i` and the rule of the first matching format. */
  predicate CzValid(s: string) { HasPrefixCI(s, "CZ") && CzBody(s[2..]) }

  predicate CzBody(b: string)
  {
    8 <= |b| <= 13 && AllDigits(b) &&
    if |b| == 8 then CzLegalCheckDigit(b[..7]) == Digit(b[7])
    else if CzIndividualShape(b) then true
    else if |b| == 9 && b[0] == '6' then CzSpecialCheckDigit(b[1..8]) == Digit(b[8])
    else if CzTenShape(b) then CzGroupSum(b) % 11 == 0 && Value(b) % 11 == 0
    else false
  }

  method CheckCz(s: string) returns (ok: bool)
    ensures ok == CzValid(s)
  {
    if !(HasPrefixCI(s, "CZ") && 10 <= |s| <= 15 && AllDigits(s[2..])) {
      return false;
    }
    var v := s[2..];
    var total := 0;
    if |v| == 8 {
      total := WeightedTotal(v[..7], CzWeights);
      total := 11 - total % 11;
      if total == 10 {
        total := 0;
      }
      if total == 11 {
        total := 1;
      }
      return total == Digit(v[7]);
    } else if CzIndividualShape(v) {
      return true;
    } else if |v| == 9 && v[0] == '6' {
      total := WeightedTotal(v[1..8], CzWeights);
      var a: int;
      if total % 11 == 0 {
        a := total + 11;
      } else {
        a := CeilDiv(total, 11) * 11;
      }
      var pointer := a - total;
      assert pointer == CzPointer(total);
      return CzLookup[pointer - 1] == Digit(v[8]);
    } else if CzTenShape(v) {
      var temp := Value(v[0..2]) + Value(v[2..4]) + Value(v[4..6]) + Value(v[6..8]) + Value(v[8..10]);
      return temp % 11 == 0 && Value(v) % 11 == 0;
    } else {
      return false;
    }
  }

  /** Exactly one digit completes an eight-digit legal-entity stem. */
  lemma CzLegalCompletion(stem: string, c: char)
    requires |stem| == 7 && AllDigits(stem)
    ensures CzValid("CZ" + stem + [c]) <==> c == DigitChar(CzLegalCheckDigit(stem))
  {
    Completion("CZ", stem, c);
    DigitCharIff(c, CzLegalCheckDigit(stem));
  }

  /**
   * Nine-digit numbers: any last digit when the first six digits have the
   * birth-date shape, otherwise only the looked-up digit after a leading 6.
   */
  lemma CzNineCompletion(stem: string, c: char)
    requires |stem| == 8 && AllDigits(stem)
    ensures CzValid("CZ" + stem + [c]) <==>
      IsDigit(c) &&
      (CzIndividualShape(stem + [c]) || (stem[0] == '6' && c == DigitChar(CzSpecialCheckDigit(stem[1..]))))
  {
    Completion("CZ", stem, c);
    var b := stem + [c];
    assert b[1..8] == stem[1..] && b[0] == stem[0];
    DigitCharIff(c, CzSpecialCheckDigit(stem[1..]));
  }

  /** The birth-date shape is decided by the first eight digits alone. */
  lemma CzBirthDateAnyLastDigit(stem: string, c: char, e: char)
    requires |stem| == 8 && AllDigits(stem) && IsDigit(c) && IsDigit(e)
    requires CzIndividualShape(stem + [c])
    ensures CzValid("CZ" + stem + [c]) && CzValid("CZ" + stem + [e])
  {
    Completion("CZ", stem, c);
    Completion("CZ", stem, e);
    assert (stem + [c])[..5] == stem[..5] == (stem + [e])[..5];
  }

  /** 100 is 1 mod 11: splitting off the last two digits adds them to the rest, mod 11. */
  lemma Mod11LastPair(x: string)
    requires |x| >= 2
    ensures Value(x) % 11 == (Value(x[..|x| - 2]) + Value(x[|x| - 2..])) % 11
  {
    var a, c := x[..|x| - 2], x[|x| - 2..];
    assert x == a + c;
    ValueAppend(a, c);
    assert Pow10(|c|) == 100;
    HundredIsOneMod11(Value(a), Value(c));
  }

  lemma HundredIsOneMod11(a: int, c: int)
    ensures (a * 100 + c) % 11 == (a + c) % 11
  {
    assert a * 100 + c == (a + c) + 11 * (9 * a);
  }

  /**
   * Ten-digit individuals: the group sum is congruent to the number itself
   * mod 11, so the group test adds nothing to the test on the whole number.
   */
  lemma CzTenDigitRule(b: string)
    requires |b| == 10 && AllDigits(b) && CzTenShape(b)
    ensures CzGroupSum(b) % 11 == Value(b) % 11
    ensures CzBody(b) <==> Value(b) % 11 == 0
  {
    CzGroupResidue(b);
  }

  lemma CzGroupResidue(b: string)
    requires |b| == 10
    ensures CzGroupSum(b) % 11 == Value(b) % 11
  {
    var g0, g1, g2, g3, g4 := Value(b[0..2]), Value(b[2..4]), Value(b[4..6]), Value(b[6..8]), Value(b[8..10]);
    var v4, v6, v8 := Value(b[..4]), Value(b[..6]), Value(b[..8]);
    assert v4 % 11 == (g0 + g1) % 11 by {
      Mod11LastPair(b[..4]);
      assert b[..4][..2] == b[0..2] && b[..4][2..] == b[2..4];
    }
    assert v6 % 11 == (v4 + g2) % 11 by {
      Mod11LastPair(b[..6]);
      assert b[..6][..4] == b[..4] && b[..6][4..] == b[4..6];
    }
    assert v8 % 11 == (v6 + g3) % 11 by {
      Mod11LastPair(b[..8]);
      assert b[..8][..6] == b[..6] && b[..8][6..] == b[6..8];
    }
    assert Value(b) % 11 == (v8 + g4) % 11 by {
      Mod11LastPair(b);
      assert b[..8] == b[..|b| - 2] && b[8..10] == b[|b| - 2..];
    }
    ChainMod11(g0, g1, g2, g3, g4, v4, v6, v8, Value(b));
  }

  /** Folding the five groups in one at a time keeps the residue of their sum. */
  lemma ChainMod11(g0: int, g1: int, g2: int, g3: int, g4: int, v4: int, v6: int, v8: int, v: int)
    requires v4 % 11 == (g0 + g1) % 11 && v6 % 11 == (v4 + g2) % 11
    requires v8 % 11 == (v6 + g3) % 11 && v % 11 == (v8 + g4) % 11
    ensures v % 11 == (g0 + g1 + g2 + g3 + g4) % 11
  {
    SumMod11(v4, g0 + g1, g2);
    SumMod11(v6, v4 + g2, g3);
    SumMod11(v8, v6 + g3, g4);
  }

  /** Replacing a summand by one congruent to it mod 11 keeps the sum's residue. */
  lemma SumMod11(x: int, y: int, z: int)
    requires x % 11 == y % 11
    ensures (x + z) % 11 == (y + z) % 11
  {
    var k := x / 11 - y / 11;
    assert x == y + 11 * k;
  }

  // -------------------------------------------------------------- Lithuania

  const LtNineWeights: seq<int> := [1, 2, 3, 4, 5, 6, 7, 8]
  const LtNineFallbackWeights: seq<int> := [3, 4, 5, 6, 7, 8, 9]
  const LtTwelveWeights: seq<int> := [1, 2, 3, 4, 5, 6, 7, 8, 9, 1, 2]
  const LtTwelveFallbackWeights: seq<int> := [3, 4, 5, 6, 7, 8, 9, 1, 2, 3, 4]

  /** The literal weights are the validator's formulas `i + 1`, `i + 3` and their mod-10 skips. */
  lemma LtWeightsFormula()
    ensures forall i | 0 <= i < 8 :: LtNineWeights[i] == i + 1
    ensures forall i | 0 <= i < 7 :: LtNineFallbackWeights[i] == i + 3
    ensures forall i | 0 <= i < 11 :: LtTwelveWeights[i] == (i + 1 + (if i >= 9 then 1 else 0)) % 10
    ensures forall i | 0 <= i < 11 :: LtTwelveFallbackWeights[i] == (i + 3 + (if i >= 7 then 1 else 0)) % 10
  {
  }

  /**
   * Legal persons: the sum with weights 1..8 mod 11; when that is 10, the
   * eighth digit plus the sum of the first seven with weights 3..9; 10 reads as 0.
   */
  function LtNineCheckDigit(d: string): (r: int)
    requires |d| == 8
    ensures 0 <= r <= 9
  {
    var t := WeightedSum(d, LtNineWeights);
    var t2 := if t % 11 == 10 then Digit(d[7]) + WeightedSum(d[..7], LtNineFallbackWeights) else t;
    if t2 % 11 == 10 then 0 else t2 % 11
  }

  /** Temporarily registered taxpayers: the same scheme over eleven digits. */
  function LtTwelveCheckDigit(d: string): (r: int)
    requires |d| == 11
    ensures 0 <= r <= 9
  {
    var t := WeightedSum(d, LtTwelveWeights);
    var t2 := if t % 11 == 10 then WeightedSum(d, LtTwelveFallbackWeights) else t;
    if t2 % 11 == 10 then 0 else t2 % 11
  }

  /** `/^LT(\d{9}|\d{12})$/i`, a `1` before the check digit's neighbour, and the check digit. */
  predicate LtValid(s: string) { HasPrefixCI(s, "LT") && LtBody(s[2..]) }

  predicate LtBody(b: string)
  {
    AllDigits(b) &&
    ((|b| == 9 && b[7] == '1' && LtNineCheckDigit(b[..8]) == Digit(b[8]))
     || (|b| == 12 && b[10] == '1' && LtTwelveCheckDigit(b[..11]) == Digit(b[11])))
  }

  method CheckLt(s: string) returns (ok: bool)
    ensures ok == LtValid(s)
  {
    if !(HasPrefixCI(s, "LT") && (|s| == 11 || |s| == 14) && AllDigits(s[2..])) {
      return false;
    }
    var v := s[2..];
    if |v| == 9 {
      if v[7] != '1' {
        return false;
      }
      var total := WeightedTotal(v[..8], LtNineWeights);
      if total % 11 == 10 {
        assert v[..8][..7] == v[..7];
        var more := WeightedTotal(v[..7], LtNineFallbackWeights);
        total := Digit(v[7]) + more;
      }
      total := total % 11;
      if total == 10 {
        total := 0;
      }
      return total == Digit(v[8]);
    } else {
      if v[10] != '1' {
        return false;
      }
      var total := WeightedTotal(v[..11], LtTwelveWeights);
      if total % 11 == 10 {
        total := WeightedTotal(v[..11], LtTwelveFallbackWeights);
      }
      total := total % 11;
      if total == 10 {
        total := 0;
      }
      return total == Digit(v[11]);
    }
  }

  /** Exactly one digit completes a nine-digit stem whose eighth digit is 1, and none any other. */
  lemma LtNineCompletion(stem: string, c: char)
    requires |stem| == 8 && AllDigits(stem)
    ensures LtValid("LT" + stem + [c]) <==> stem[7] == '1' && c == DigitChar(LtNineCheckDigit(stem))
  {
    Completion("LT", stem, c);
    DigitCharIff(c, LtNineCheckDigit(stem));
  }

  /** Exactly one digit completes a twelve-digit stem whose eleventh digit is 1, and none any other. */
  lemma LtTwelveCompletion(stem: string, c: char)
    requires |stem| == 11 && AllDigits(stem)
    ensures LtValid("LT" + stem + [c]) <==> stem[10] == '1' && c == DigitChar(LtTwelveCheckDigit(stem))
  {
    Completion("LT", stem, c);
    DigitCharIff(c, LtTwelveCheckDigit(stem));
  }

  // ----------------------------------------------------------------- Latvia

  const LvWeights: seq<int> := [9, 1, 4, 8, 3, 10, 2, 5, 7, 6]

  /** The year term of the leap-day test: ten times the character code of the fifth digit plus that of the sixth. */
  function LvYearCode(b: string): int
    requires |b| >= 6
  {
    (b[4] as int) * 10 + b[5] as int
  }

  /**
   * The natural-person test on day `d` (first two digits) and month `m`
   * (next two): a day of at most 31, a month in 1..12, at most 29 days in
   * February with the 29th only when the year term is a multiple of 4, and
   * at most 30 days in April, June, September and November.
   */
  predicate LvNaturalPerson(b: string)
    requires |b| >= 6
  {
    var first := Digit(b[0]);
    var second := Digit(b[1]);
    var third := Digit(b[2]);
    var fourth := Digit(b[3]);
    var d := first * 10 + second;
    var m := third * 10 + fourth;
    0 <= first <= 3 && !(first == 3 && second > 1) && third <= 1 &&
    !((third == 0 && fourth == 0) || (third == 1 && fourth > 2)) &&
    (if m == 2 then d <= 29 && (d == 29 ==> LvYearCode(b) % 4 == 0)
     else if m == 4 || m == 6 || m == 9 || m == 11 then d < 31
     else true)
  }

  /** The legal-entity total, less 45 when it is 4 mod 11 and the number starts with 9. */
  function LvCorrectedTotal(d: string): int
    requires |d| == 10
  {
    var total := WeightedSum(d, LvWeights);
    if total % 11 == 4 && Digit(d[0]) == 9 then total - 45 else total
  }

  /** The remainder 4 maps to 0, 5..10 to 9..4 and 0..3 to 3..0. */
  function LvRemap(modulo: int): int
  {
    if modulo == 4 then 4 - modulo
    else if modulo > 4 then 14 - modulo
    else 3 - modulo
  }

  /** The expected legal-entity check digit, always a digit. */
  function LvCheckDigit(d: string): (r: int)
    requires |d| == 10
    ensures 0 <= r <= 9
  {
    LvRemap(LvCorrectedTotal(d) % 11)
  }

  /** `/^LV\d{11}$/i` and either a valid birth date or the legal-entity check digit. */
  predicate LvValid(s: string) { HasPrefixCI(s, "LV") && LvBody(s[2..]) }

  predicate LvBody(b: string)
  {
    |b| == 11 && AllDigits(b) && (LvNaturalPerson(b) || LvCheckDigit(b[..10]) == Digit(b[10]))
  }

  method CheckLv(s: string) returns (ok: bool)
    ensures ok == LvValid(s)
  {
    if !(HasPrefixCI(s, "LV") && |s| == 13 && AllDigits(s[2..])) {
      return false;
    }
    var v := s[2..];
    var firstChar := v[0] as int - 48;
    label natural: {
      if 0 <= firstChar <= 3 {
        var secondChar := v[1] as int - 48;
        if firstChar == 3 && secondChar > 1 {
          break natural;
        }
        var d := firstChar * 10 + secondChar;
        var thirdChar := v[2] as int - 48;
        if thirdChar > 1 {
          break natural;
        }
        var fourthChar := v[3] as int - 48;
        if (thirdChar == 0 && fourthChar == 0) || (thirdChar == 1 && fourthChar > 2) {
          break natural;
        }
        var m := thirdChar * 10 + fourthChar;
        if m == 2 {
          if d > 29 {
            break natural;
          }
          if d == 29 {
            var fifthChar := v[4] as int;
            var sixthChar := v[5] as int;
            var y := fifthChar * 10 + sixthChar;
            if y % 4 != 0 {
              break natural;
            }
          }
          return true;
        } else if m == 4 || m == 6 || m == 9 || m == 11 {
          if d < 31 {
            return true;
          }
          break natural;
        } else {
          return true;
        }
      }
    }
    assert !LvNaturalPerson(v);
    assert v[..10][0] == v[0];
    var total := WeightedTotal(v[..10], LvWeights);
    if total % 11 == 4 && firstChar == 9 {
      total := total - 45;
    }
    var modulo := total % 11;
    if modulo == 4 {
      total := 4 - modulo;
    } else if modulo > 4 {
      total := 14 - modulo;
    } else if modulo < 4 {
      total := 3 - modulo;
    }
    ok := total == Digit(v[10]);
  }

  /** The year term agrees mod 4 with the two-digit year: the character codes add 528, a multiple of 4. */
  lemma LvYearResidue(b: string)
    requires |b| >= 6 && IsDigit(b[4]) && IsDigit(b[5])
    ensures LvYearCode(b) % 4 == Value(b[4..6]) % 4
  {
    var y := b[4..6];
    assert y == [] + [b[4]] + [b[5]];
    ValuePushDigit([], b[4]);
    ValuePushDigit([b[4]], b[5]);
    assert LvYearCode(b) == Value(y) + 4 * 132;
  }

  /**
   * The −45 correction applies only to totals of at least 81, so it never
   * makes the total negative, and it turns remainder 4 into remainder 3,
   * which remaps to the same digit 0.
   */
  lemma LvCorrectionHarmless(d: string)
    requires |d| == 10 && AllDigits(d)
    ensures LvCorrectedTotal(d) >= 0
    ensures LvCheckDigit(d) == LvRemap(WeightedSum(d, LvWeights) % 11)
  {
    var total := WeightedSum(d, LvWeights);
    assert NonNegative(LvWeights);
    WeightedSumNonNegative(d, LvWeights);
    WeightedSumAtLeastFirst(d, LvWeights);
    if total % 11 == 4 && Digit(d[0]) == 9 {
      var q := total / 11;
      assert total - 45 == 11 * (q - 4) + 3;
    }
  }

  /** A body passing the date test takes any last digit; otherwise exactly the legal-entity digit. */
  lemma LvCompletion(stem: string, c: char)
    requires |stem| == 10 && AllDigits(stem)
    ensures LvValid("LV" + stem + [c]) <==>
      IsDigit(c) && (LvNaturalPerson(stem) || c == DigitChar(LvCheckDigit(stem)))
  {
    Completion("LV", stem, c);
    var b := stem + [c];
    assert b[..6] == stem[..6];
    assert LvNaturalPerson(b) == LvNaturalPerson(stem);
    DigitCharIff(c, LvCheckDigit(stem));
  }

  // ----------------------------------------------------------------- France

  /** A character of the key class `[A-Z0-9]`, letters in either case. */
  predicate FrKeyChar(c: char) { IsUpperLetter(UpperAscii(c)) || IsDigit(c) }

  /** `/^FR([A-Z0-9]{2})\d{9}$/i` after the code. */
  predicate FrShape(b: string)
  {
    |b| == 11 && FrKeyChar(b[0]) && FrKeyChar(b[1]) && AllDigits(b[2..])
  }

  /**
   * The key as `parseInt` reads it (its leading digits) and
   * `(12 + 3 * (siren % 97)) % 97` agree mod 97; a key with no leading digit
   * is NaN and never agrees.
   */
  predicate FrKeyMatches(b: string)
    requires |b| >= 2
  {
    var key := ParseInt(b[..2]);
    key.Some? && (12 + 3 * (Value(b[2..]) % 97)) % 97 == key.value % 97
  }

  /** An upper-case letter in the key accepts the number outright; otherwise the key is checked. */
  predicate FrValid(s: string) { HasPrefixCI(s, "FR") && FrBody(s[2..]) }

  predicate FrBody(b: string)
  {
    FrShape(b) && (IsUpperLetter(b[0]) || IsUpperLetter(b[1]) || FrKeyMatches(b))
  }

  /** For x >= 0: x and y agree mod 97 exactly when their difference is a multiple of 97. */
  lemma Mod97Congruent(x: int, y: int)
    ensures x % 97 == y % 97 <==> (x - y) % 97 == 0
  {
    var a, b := x / 97, y / 97;
    var r, t := x % 97, y % 97;
    assert x - y == 97 * (a - b) + (r - t);
    if (x - y) % 97 == 0 {
      var k := (x - y) / 97;
      assert r - t == 97 * (k - a + b);
    }
  }

  /** A two-digit key k is accepted with a siren n exactly when k ≡ 12 + 3n (mod 97). */
  lemma FrNumericKey(key: string, siren: string)
    requires |key| == 2 && AllDigits(key) && |siren| == 9 && AllDigits(siren)
    ensures FrValid("FR" + key + siren) <==> (Value(key) - 3 * Value(siren) - 12) % 97 == 0
  {
    var s := "FR" + key + siren;
    var b := key + siren;
    assert s[2..] == b && b[..2] == key && b[2..] == siren;
    var n := Value(siren);
    Mod97ScaleShift(n % 97, n, 3, 12);
    Mod97Congruent(Value(key), 12 + 3 * n);
    assert (12 + 3 * (n % 97)) % 97 == (12 + 3 * n) % 97;
  }

  /**
   * A lower-case second key character ends what `parseInt` reads: only the
   * first key digit is compared, with `(12 + 3 * (siren % 97)) % 97`.
   */
  lemma FrLowerCaseKey(d: char, x: char, siren: string)
    requires IsDigit(d) && 'a' <= x <= 'z' && |siren| == 9 && AllDigits(siren)
    ensures FrValid("FR" + [d, x] + siren) <==> (12 + 3 * (Value(siren) % 97)) % 97 == Digit(d)
  {
    var s := "FR" + [d, x] + siren;
    var b := [d, x] + siren;
    assert s[2..] == b && b[..2] == [d, x] && b[2..] == siren;
    assert LeadingDigits([x]) == 0;
    assert [d, x][1..] == [x] && [d, x][..1] == [d];
    assert LeadingDigits([d, x]) == 1;
    assert Value([d]) == Digit(d) by {
      assert [d][..0] == [];
    }
    assert ParseInt([d, x]) == Some(Digit(d));
    assert FrKeyMatches(b) <==> (12 + 3 * (Value(siren) % 97)) % 97 == Digit(d) by {
      assert Digit(d) % 97 == Digit(d);
    }
    assert FrBody(b) == FrKeyMatches(b) by {
      assert FrShape(b);
      assert !IsUpperLetter(b[0]) && !IsUpperLetter(b[1]);
    }
  }

  /** A lower-case first key character makes the key NaN unless the second is an upper-case letter. */
  lemma FrLowerCaseLead(x: char, y: char, siren: string)
    requires 'a' <= x <= 'z' && !IsUpperLetter(y) && |siren| == 9
    ensures !FrValid("FR" + [x, y] + siren)
  {
    var s := "FR" + [x, y] + siren;
    var b := [x, y] + siren;
    assert s[2..] == b && b[..2] == [x, y] && b[0] == x && b[1] == y;
  }

  // ------------------------------------------------------------------ Spain

  const NifLetters: string := "TRWAGMYFPDXBNJZSQVHLCKE"

  /** `[A-HN-SW]`, letters in either case. */
  predicate EsJuridicalInitial(c: char)
  {
    var u := UpperAscii(c);
    ('A' <= u <= 'H') || ('N' <= u <= 'S') || u == 'W'
  }

  /** `/^[A-HN-SW]\d{7}[A-J]$/i`: juridical entities other than national ones. */
  predicate EsJuridicalShape(b: string)
  {
    |b| == 9 && EsJuridicalInitial(b[0]) && AllDigits(b[1..8]) && 'A' <= UpperAscii(b[8]) <= 'J'
  }

  /** `/^[A-Z]\d{8}$/i`: national juridical entities. */
  predicate EsNationalShape(b: string)
  {
    |b| == 9 && IsUpperLetter(UpperAscii(b[0])) && AllDigits(b[1..])
  }

  /** `/^[0-9YZ]\d{7}[A-Z]$/i`: personal numbers starting with a digit, Y or Z. */
  predicate EsNifShape(b: string)
  {
    |b| == 9 && (IsDigit(b[0]) || UpperAscii(b[0]) == 'Y' || UpperAscii(b[0]) == 'Z') &&
    AllDigits(b[1..8]) && IsUpperLetter(UpperAscii(b[8]))
  }

  /** `/^[KLMX]\d{7}[A-Z]$/i`: personal numbers starting with K, L, M or X. */
  predicate EsForeignShape(b: string)
  {
    |b| == 9 &&
    var u := UpperAscii(b[0]);
    (u == 'K' || u == 'L' || u == 'M' || u == 'X') &&
    AllDigits(b[1..8]) && IsUpperLetter(UpperAscii(b[8]))
  }

  /** `10 - total % 10` of the doubled-and-folded sum, written as the letter with that position. */
  function EsJuridicalLetter(d: string): (r: char)
    requires |d| == 7
    ensures 'A' <= r <= 'J'
  {
    (10 - FoldSum(d, Alternating(7, true)) % 10 + 64) as char
  }

  /** The same `10 - total % 10` as a digit, 10 read as 0. */
  function EsNationalCheckDigit(d: string): (r: int)
    requires |d| == 7
    ensures 0 <= r <= 9
  {
    var t := 10 - FoldSum(d, Alternating(7, true)) % 10;
    if t == 10 then 0 else t
  }

  /** A leading Y or Z (either case) stands for the digit 1 or 2. */
  function EsNifDigits(b: string): (r: string)
    requires |b| >= 1
    ensures |r| == |b| && r[1..] == b[1..]
  {
    var first := UpperAscii(b[0]);
    if first == 'Y' then "1" + b[1..]
    else if first == 'Z' then "2" + b[1..]
    else b
  }

  /** The string starts with exactly `ES` and the first matching format's check holds. */
  predicate EsValid(s: string) { |s| >= 2 && s[..2] == "ES" && EsBody(s[2..]) }

  predicate EsBody(b: string)
  {
    if EsJuridicalShape(b) then b[8..] == [EsJuridicalLetter(b[1..8])]
    else if EsNationalShape(b) then EsNationalCheckDigit(b[1..8]) == Digit(b[8])
    else if EsNifShape(b) then
      var v := EsNifDigits(b);
      v[8] == NifLetters[Value(v[..8]) % 23]
    else if EsForeignShape(b) then b[8] == NifLetters[Value(b[1..8]) % 23]
    else false
  }

  method CheckEs(s: string) returns (ok: bool)
    ensures ok == EsValid(s)
  {
    if !(|s| >= 2 && s[..2] == "ES") {
      return false;
    }
    var v := s[2..];
    if EsJuridicalShape(v) {
      var total := FoldTotal(v[1..8], Alternating(7, true));
      total := 10 - total % 10;
      var check := (total + 64) as char;
      return [check] == v[8..];
    } else if EsNationalShape(v) {
      var total := FoldTotal(v[1..8], Alternating(7, true));
      total := 10 - total % 10;
      if total == 10 {
        total := 0;
      }
      return total == Digit(v[8]);
    } else if EsNifShape(v) {
      ghost var b := v;
      var firstChar := UpperAscii(v[0]);
      if firstChar == 'Y' {
        v := "1" + v[1..];
      } else if firstChar == 'Z' {
        v := "2" + v[1..];
      }
      assert v == EsNifDigits(b);
      return v[8] == NifLetters[Value(v[..8]) % 23];
    } else if EsForeignShape(v) {
      return v[8] == NifLetters[Value(v[1..8]) % 23];
    } else {
      return false;
    }
  }

  /**
   * After a juridical initial and seven digits, exactly two characters are
   * accepted: the check letter (upper case, in A..J) and the national check
   * digit, which is that letter's position mod 10.
   */
  lemma EsJuridicalCompletion(initial: char, d: string, c: char)
    requires EsJuridicalInitial(initial) && |d| == 7 && AllDigits(d)
    ensures EsValid("ES" + [initial] + d + [c]) <==>
      c == EsJuridicalLetter(d) || c == DigitChar(EsNationalCheckDigit(d))
    ensures EsNationalCheckDigit(d) == (EsJuridicalLetter(d) as int - 64) % 10
  {
    var s := "ES" + [initial] + d + [c];
    var b := [initial] + d + [c];
    assert s[..2] == "ES" && s[2..] == b;
    assert b[1..8] == d && b[8..] == [c] && b[0] == initial && b[8] == c;
    assert AllDigits(b[1..]) <==> IsDigit(c) by {
      assert b[1..] == d + [c];
      Completion("ES", d, c);
    }
    DigitCharIff(c, EsNationalCheckDigit(d));
  }

  /** After eight digits exactly one character is accepted: the NIF letter of the number mod 23. */
  lemma EsNifCompletion(d: string, c: char)
    requires |d| == 8 && AllDigits(d)
    ensures EsValid("ES" + d + [c]) <==> c == NifLetters[Value(d) % 23]
  {
    var s := "ES" + d + [c];
    var b := d + [c];
    assert s[..2] == "ES" && s[2..] == b;
    assert b[..8] == d && b[1..8] == d[1..] && b[0] == d[0] && b[8] == c;
    assert IsDigit(b[0]);
    assert forall i | 0 <= i < |NifLetters| :: IsUpperLetter(NifLetters[i]);
  }

  /**
   * A leading Y or Z, in either case, before seven digits and a non-digit
   * is read exactly as the digit 1 or 2.
   */
  lemma EsNifLetterPrefix(x: char, d: string, c: char)
    requires UpperAscii(x) == 'Y' || UpperAscii(x) == 'Z'
    requires |d| == 7 && AllDigits(d) && !IsDigit(c)
    ensures EsValid("ES" + [x] + d + [c]) ==
      EsValid("ES" + [if UpperAscii(x) == 'Y' then '1' else '2'] + d + [c])
  {
    var e := if UpperAscii(x) == 'Y' then '1' else '2';
    var b := [x] + d + [c];
    var b' := [e] + d + [c];
    assert ("ES" + [x] + d + [c])[..2] == "ES" && ("ES" + [x] + d + [c])[2..] == b;
    assert ("ES" + [e] + d + [c])[..2] == "ES" && ("ES" + [e] + d + [c])[2..] == b';
    assert b[1..8] == d == b'[1..8] && b[8] == c == b'[8] && b[0] == x && b'[0] == e;
    assert !AllDigits(b[1..]) by {
      assert b[1..][7] == c;
    }
    assert EsNifDigits(b) == b' == EsNifDigits(b');
  }
}
