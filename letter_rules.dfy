/**
 * Cyprus and Ireland: a digit sum reduced to a check letter
 * (`checkCyVatNumber`, `checkIEVatNumber`).
 */
module LetterRules {
  import opened Text
  import opened Checksums

  // ----------------------------------------------------------------- Cyprus

  /** The `switch` applied to digits at even positions: 0→1, 1→0, 2..4→2d+1, otherwise 2d+3. */
  function CyEvenTerm(d: int): int
  {
    if d == 0 then 1
    else if d == 1 then 0
    else if d == 2 || d == 3 || d == 4 then d * 2 + 1
    else d * 2 + 3
  }

  /** The loop's `total` over the digits of `d`, transformed at even positions. */
  function CySum(d: string): int
  {
    if |d| == 0 then 0
    else
      var i := |d| - 1;
      CySum(d[..i]) + (if i % 2 == 0 then CyEvenTerm(Digit(d[i])) else Digit(d[i]))
  }

  /** `String.fromCharCode(total % 26 + 65)`. */
  function CyCheckLetter(d: string): (r: char)
    ensures IsUpperLetter(r)
  {
    (CySum(d) % 26 + 65) as char
  }

  /** `/^CY\d{8}[A-Z]/`: no `i` flag and no `$`, so the code and letter are upper case and anything may follow. */
  predicate CyShape(b: string)
  {
    |b| >= 9 && AllDigits(b[..8]) && IsUpperLetter(b[8])
  }

  predicate CyValid(s: string) { |s| >= 2 && s[..2] == "CY" && CyBody(s[2..]) }

  predicate CyBody(b: string)
  {
    CyShape(b) && b[..2] != "12" && CyCheckLetter(b[..8]) == b[8]
  }

  method CyTotal(d: string) returns (total: int)
    ensures total == CySum(d)
  {
    total := 0;
    var i := 0;
    while i < |d|
      invariant 0 <= i <= |d|
      invariant total == CySum(d[..i])
    {
      assert d[..i + 1][..i] == d[..i];
      var temp := Digit(d[i]);
      if i % 2 == 0 {
        if temp == 0 {
          temp := 1;
        } else if temp == 1 {
          temp := 0;
        } else if temp == 2 || temp == 3 || temp == 4 {
          temp := temp * 2 + 1;
        } else {
          temp := temp * 2 + 3;
        }
      }
      total := total + temp;
      i := i + 1;
    }
    assert d[..i] == d;
  }

  method CheckCy(s: string) returns (ok: bool)
    ensures ok == CyValid(s)
  {
    if !(|s| >= 2 && s[..2] == "CY" && CyShape(s[2..])) {
      return false;
    }
    var v := s[2..];
    if v[..2] == "12" {
      return false;
    }
    var total := CyTotal(v[..8]);
    total := total % 26;
    ok := (total + 65) as char == v[8];
  }

  /** A Cypriot number whose digits start with "12" is never accepted. */
  lemma CyRejectsTwelve(s: string)
    requires |s| >= 4 && s[2..4] == "12"
    ensures !CyValid(s)
  {
    assert s[2..][..2] == s[2..4];
  }

  /**
   * For every eight digits not starting "12", exactly one character in the
   * ninth place is accepted, whatever follows it.
   */
  lemma CyCompletion(stem: string, c: char, rest: string)
    requires |stem| == 8 && AllDigits(stem) && stem[..2] != "12"
    ensures CyValid("CY" + stem + [c] + rest) <==> c == CyCheckLetter(stem)
  {
    var b := stem + [c] + rest;
    assert ("CY" + stem + [c] + rest)[..2] == "CY";
    assert ("CY" + stem + [c] + rest)[2..] == b;
    assert b[..8] == stem && b[8] == c && b[..2] == stem[..2];
  }

  // ---------------------------------------------------------------- Ireland

  /** `8 - i` for positions 0..6. */
  const IeWeights: seq<int> := [8, 7, 6, 5, 4, 3, 2]

  /** `/^IE\d{7}[A-W][AH]?$/i` after the code. */
  predicate IeStandardShape(b: string)
  {
    (|b| == 8 || |b| == 9) && AllDigits(b[..7]) && 'A' <= UpperAscii(b[7]) <= 'W'
    && (|b| == 9 ==> UpperAscii(b[8]) == 'A' || UpperAscii(b[8]) == 'H')
  }

  /** `/^IE[7-9][A-Z]\d{5}[A-W]$/` (no `i` flag) after the code. */
  predicate IeLegacyShape(b: string)
  {
    |b| == 8 && '7' <= b[0] <= '9' && IsUpperLetter(b[1]) && AllDigits(b[2..7]) && 'A' <= b[7] <= 'W'
  }

  /** The legacy layout rebuilt as the current one: `"0" + b[2..7] + b[0] + b[7]`. */
  function IeLegacyToStandard(b: string): (v: string)
    requires IeLegacyShape(b)
    ensures |v| == 8 && AllDigits(v[..7]) && v[7] == b[7]
  {
    var v := "0" + b[2..7] + b[0..1] + b[7..8];
    assert forall i | 1 <= i < 6 :: v[i] == b[i + 1];
    v
  }

  /**
   * The seven digits weighted 8..2, plus 72 when the ninth character is "H"
   * and 9 when it is "A" (compared with case), mod 23; 0 gives "W" and any
   * other value v the letter `String.fromCharCode(v + 64)`.
   */
  function IeCheckLetter(v: string): (r: char)
    requires |v| >= 7
    ensures r == 'W' || 'A' <= r <= 'V'
  {
    var bonus := if |v| > 8 && v[8] == 'H' then 72 else if |v| > 8 && v[8] == 'A' then 9 else 0;
    var total := (WeightedSum(v[..7], IeWeights) + bonus) % 23;
    if total == 0 then 'W' else (total + 64) as char
  }

  /**
   * The current layout is matched without regard to case, the legacy one
   * only in upper case; the check letter is compared with case.
   */
  predicate IeValid(s: string)
  {
    |s| >= 2 &&
    var b := s[2..];
    if HasPrefixCI(s, "IE") && IeStandardShape(b) then IeCheckLetter(b) == b[7]
    else if s[..2] == "IE" && IeLegacyShape(b) then
      var v := IeLegacyToStandard(b);
      IeCheckLetter(v) == v[7]
    else false
  }

  method CheckIe(s: string) returns (ok: bool)
    ensures ok == IeValid(s)
  {
    var oldFormatMatches := false;
    if !(|s| >= 2 && HasPrefixCI(s, "IE") && IeStandardShape(s[2..])) {
      oldFormatMatches := |s| >= 2 && s[..2] == "IE" && IeLegacyShape(s[2..]);
      if !oldFormatMatches {
        return false;
      }
    }
    var v := s[2..];
    if oldFormatMatches {
      v := "0" + v[2..7] + v[0..1] + v[7..8];
    }
    var total := WeightedTotal(v[..7], IeWeights);
    if |v| > 8 && v[8] == 'H' {
      total := total + 72;
    } else if |v| > 8 && v[8] == 'A' {
      total := total + 9;
    }
    total := total % 23;
    var checkChar := 'W';
    if total != 0 {
      checkChar := (total + 64) as char;
    }
    ok := checkChar == v[7];
  }

  /** A legacy number is accepted exactly when its rebuilt current form is. */
  lemma IeLegacyAsStandard(b: string)
    requires IeLegacyShape(b)
    ensures IeValid("IE" + b) <==> IeValid("IE" + IeLegacyToStandard(b))
  {
    var v := IeLegacyToStandard(b);
    assert ("IE" + b)[2..] == b && ("IE" + b)[..2] == "IE";
    assert ("IE" + v)[2..] == v && HasPrefixCI("IE" + v, "IE");
    assert !IeStandardShape(b) by {
      assert !IsDigit(b[1]);
    }
    assert IeStandardShape(v);
  }

  /** For every seven digits exactly one check letter is accepted, and it lies in A..W. */
  lemma IeCompletion(stem: string, c: char)
    requires |stem| == 7 && AllDigits(stem)
    ensures IeValid("IE" + stem + [c]) <==> c == IeCheckLetter(stem)
  {
    var s := "IE" + stem + [c];
    var b := stem + [c];
    assert s[2..] == b && s[..2] == "IE" && b[..7] == stem && stem[..7] == stem;
    assert IeCheckLetter(b) == IeCheckLetter(stem);
    assert IsDigit(b[1]) && !IeLegacyShape(b);
  }
}
