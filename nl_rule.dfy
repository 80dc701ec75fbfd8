/**
 * Netherlands VAT numbers: the standard form (nine digits, `B`, two digits)
 * with a weighted mod-11 check, and the sole-proprietor form, whose
 * characters are mapped to numbers and checked with the MOD 97-10 scheme of
 * ISO/IEC 7064 (the whole mapped number is 1 mod 97), computed by reducing
 * the leading seven digits mod 97 until at most seven remain.
 */
module NlRule {
  import opened Wrappers
  import opened Text
  import opened Checksums

  const NlWeights: seq<int> := [9, 8, 7, 6, 5, 4, 3, 2]

  /** `/^NL\d{9}B\d{2}$/i`. */
  predicate NlStandardShape(s: string)
  {
    |s| == 14 && HasPrefixCI(s, "NL") && AllDigits(s[2..11]) && UpperAscii(s[11]) == 'B' && AllDigits(s[12..])
  }

  /** The weighted sum of the first eight digits, mod 11, is the ninth digit. */
  predicate NlStandardCheck(s: string)
    requires |s| >= 11
  {
    WeightedSum(s[2..10], NlWeights) % 11 == Digit(s[10])
  }

  method IsStandardNlVatNumber(s: string) returns (ok: bool)
    requires |s| >= 11 && AllDigits(s[2..11])
    ensures ok == NlStandardCheck(s)
  {
    var number := s[2..11];
    var siren := number[..8];
    var checkDigit := Digit(number[8]);
    assert siren == s[2..10];
    var value := WeightedTotal(siren, NlWeights);
    ok := value % 11 == checkDigit;
  }

  /** A character of `[A-Z0-9*+]`, letters in either case. */
  predicate NlSoleChar(c: char)
  {
    IsUpperLetter(UpperAscii(c)) || IsDigit(c) || c == '*' || c == '+'
  }

  /** `/^NL[A-Z0-9*+]{10}\d{2}$/i`. */
  predicate NlSoleShape(s: string)
  {
    |s| == 14 && HasPrefixCI(s, "NL") && (forall i | 2 <= i < 12 :: NlSoleChar(s[i])) && AllDigits(s[12..])
  }

  /** The character code mapping: `*` to 36, `+` to 37, digits to 0..9, letters to 10..35, others unchanged. */
  function MapChar(c: char): (n: nat)
    ensures c == '*' ==> n == 36
    ensures c == '+' ==> n == 37
    ensures IsDigit(c) ==> n == Digit(c)
    ensures IsUpperLetter(c) ==> n == c as int - 'A' as int + 10 && 10 <= n <= 35
  {
    var code := c as int;
    if 41 < code < 44 then code - 6
    else if 47 < code < 58 then code - 48
    else if 64 < code < 91 then code - 55
    else code
  }

  /** The decimal renderings of the mapped characters, concatenated. */
  function Numeric(u: string): (r: string)
    ensures AllDigits(r)
  {
    if |u| == 0 then ""
    else
      var p, q := Numeric(u[..|u| - 1]), NatToString(MapChar(u[|u| - 1]));
      AllDigitsAppend(p, q);
      p + q
  }

  /** The upper-cased number, mapped to digits, is 1 mod 97. */
  predicate SoleProprietorValid(s: string)
  {
    Value(Numeric(UpperString(s))) % 97 == 1
  }

  method IsSoleProprietorNumber(s: string) returns (ok: bool)
    ensures ok == SoleProprietorValid(s)
  {
    var u := UpperString(s);
    var numericVat := "";
    var i := 0;
    while i < |u|
      invariant 0 <= i <= |u|
      invariant numericVat == Numeric(u[..i])
    {
      assert u[..i + 1][..i] == u[..i];
      var nextChar := u[i] as int;
      if 41 < nextChar < 44 {
        nextChar := nextChar - 6;
      } else if 47 < nextChar < 58 {
        nextChar := nextChar - 48;
      } else if 64 < nextChar < 91 {
        nextChar := nextChar - 55;
      }
      numericVat := numericVat + NatToString(nextChar);
      i := i + 1;
    }
    assert u[..i] == u;
    ghost var whole := numericVat;
    while |numericVat| > 7
      invariant AllDigits(numericVat)
      invariant Value(numericVat) % 97 == Value(whole) % 97
      decreases |numericVat|
    {
      var part := Value(numericVat[..7]);
      ReductionStep(numericVat);
      numericVat := NatToString(part % 97) + numericVat[7..];
    }
    var parsed := ParseInt(numericVat);
    ok := parsed.Some? && parsed.value % 97 == 1;
  }

  /**
   * Replacing the leading seven digits by their value mod 97 keeps a digit
   * string, keeps its value mod 97 and makes it shorter.
   */
  lemma ReductionStep(nv: string)
    requires AllDigits(nv) && |nv| > 7
    ensures var r := NatToString(Value(nv[..7]) % 97) + nv[7..];
      AllDigits(r) && Value(r) % 97 == Value(nv) % 97 && |r| < |nv|
  {
    var part := Value(nv[..7]);
    var q, rest := NatToString(part % 97), nv[7..];
    var r := q + rest;
    assert Value(nv) == part * Pow10(|rest|) + Value(rest) by {
      assert nv == nv[..7] + rest;
      ValueAppend(nv[..7], rest);
    }
    assert Value(r) == (part % 97) * Pow10(|rest|) + Value(rest) by {
      ValueAppend(q, rest);
    }
    assert Value(r) % 97 == Value(nv) % 97 by {
      assert (part % 97) % 97 == part % 97;
      Mod97ScaleShift(part % 97, part, Pow10(|rest|), Value(rest));
    }
    assert AllDigits(r) by {
      AllDigitsSlice(nv, 7, |nv|);
      AllDigitsAppend(q, rest);
    }
  }

  /** The standard form and its check, or else the sole-proprietor form and its check. */
  predicate NlValid(s: string)
  {
    (NlStandardShape(s) && NlStandardCheck(s)) || (NlSoleShape(s) && SoleProprietorValid(s))
  }

  method CheckNl(s: string) returns (ok: bool)
    ensures ok == NlValid(s)
  {
    if NlStandardShape(s) {
      var standard := IsStandardNlVatNumber(s);
      if standard {
        return true;
      }
    }
    if NlSoleShape(s) {
      ok := IsSoleProprietorNumber(s);
      return;
    }
    return false;
  }

  /** A number in the standard form that fails its check is still tried as a sole-proprietor number. */
  lemma NlStandardFallsBackToSole(s: string)
    requires NlStandardShape(s) && !NlStandardCheck(s)
    ensures NlValid(s) <==> SoleProprietorValid(s)
  {
    forall i | 2 <= i < 12
      ensures NlSoleChar(s[i])
    {
      if i < 11 {
        assert s[2..11][i - 2] == s[i];
      }
    }
    assert forall k | 0 <= k < |s[12..]| :: s[12..][k] == s[12 + k];
  }

  /** At most one ninth digit completes a standard stem, and none when the remainder is 10. */
  lemma NlStandardCompletion(d: string, c: char)
    requires |d| == 8 && AllDigits(d) && IsDigit(c)
    ensures NlStandardCheck("NL" + d + [c] + "B00") <==>
      WeightedSum(d, NlWeights) % 11 <= 9 && c == DigitChar(WeightedSum(d, NlWeights) % 11)
  {
    var s := "NL" + d + [c] + "B00";
    assert s[2..10] == d && s[10] == c;
    if WeightedSum(d, NlWeights) % 11 <= 9 {
      DigitCharIff(c, WeightedSum(d, NlWeights) % 11);
    }
  }

  /** Mapping distributes over concatenation. */
  lemma {:induction false} NumericAppend(a: string, b: string)
    ensures Numeric(a + b) == Numeric(a) + Numeric(b)
  {
    if |b| == 0 {
      assert a + b == a;
    } else {
      var b', c := b[..|b| - 1], b[|b| - 1];
      NumericAppend(a, b');
      assert Numeric(a + b) == Numeric(a + b') + NatToString(MapChar(c)) by {
        assert (a + b)[..|a + b| - 1] == a + b';
        assert (a + b)[|a + b| - 1] == c;
      }
      assert Numeric(b) == Numeric(b') + NatToString(MapChar(c));
    }
  }

  /** Upper-casing distributes over concatenation. */
  lemma UpperStringAppend(a: string, b: string)
    ensures UpperString(a + b) == UpperString(a) + UpperString(b)
  {
  }

  /** Two digits map to themselves. */
  lemma NumericOfTwoDigits(cc: string)
    requires |cc| == 2 && AllDigits(cc)
    ensures Numeric(cc) == cc
  {
    var c0, c1 := cc[0], cc[1];
    assert cc[..1] == [c0] && [c0][..0] == [];
    assert NatToString(MapChar(c0)) == [c0] by {
      DigitInjective(DigitChar(Digit(c0)), c0);
    }
    assert NatToString(MapChar(c1)) == [c1] by {
      DigitInjective(DigitChar(Digit(c1)), c1);
    }
    assert Numeric([c0]) == [c0];
    assert cc == [c0] + [c1];
  }

  /**
   * The two trailing check digits `cc` are accepted exactly when the mapped
   * stem followed by `cc` is 1 mod 97.
   */
  lemma NlSoleCompletion(stem: string, cc: string)
    requires |cc| == 2 && AllDigits(cc)
    ensures SoleProprietorValid(stem + cc) <==>
      (Value(Numeric(UpperString(stem))) * 100 + Value(cc)) % 97 == 1
  {
    var n := Numeric(UpperString(stem));
    assert Numeric(UpperString(stem + cc)) == n + cc by {
      UpperStringAppend(stem, cc);
      assert UpperString(cc) == cc;
      NumericAppend(UpperString(stem), cc);
      NumericOfTwoDigits(cc);
    }
    assert Value(n + cc) == Value(n) * 100 + Value(cc) by {
      ValueAppend(n, cc);
      assert Pow10(2) == 100;
    }
  }
}
