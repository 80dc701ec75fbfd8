/**
 * The countries whose rule is one weighted positional sum reduced modulo a
 * fixed number and remapped onto a check digit (or a two-digit check): the
 * functions `checkBeVatNumber` ... `checkRuVatNumber` of the validator other
 * than the multi-variant ones.
 *
 * Each country `Xx` has a predicate `XxValid(s)` over the separator-free
 * string, written as a case-insensitive prefix test and a predicate
 * `XxBody` on what follows the two-letter code, and, where the source loops,
 * a method `CheckXx` that runs the loop and is proved to decide `XxValid`.
 * The completion lemmas state, for every stem, which characters complete
 * it to an accepted number.
 */
module WeightedRules {
  import opened Text
  import opened Checksums

  // ---------------------------------------------------------------- Belgium

  /** `/^BE\d{10}$/i` and 97 minus the first eight digits mod 97 equals the last two. */
  predicate BeValid(s: string) { HasPrefixCI(s, "BE") && BeBody(s[2..]) }

  predicate BeBody(b: string)
  {
    |b| == 10 && AllDigits(b) && 97 - Value(b[..8]) % 97 == Value(b[8..])
  }

  /** Accepted exactly when the check c is in 1..97 and number + c is a multiple of 97. */
  lemma BeCheckCharacterisation(s: string)
    requires |s| == 12 && HasPrefixCI(s, "BE") && AllDigits(s[2..])
    ensures BeValid(s) <==>
      1 <= Value(s[10..]) <= 97 && (Value(s[2..10]) + Value(s[10..])) % 97 == 0
  {
    var b := s[2..];
    assert b[..8] == s[2..10] && b[8..] == s[10..];
    AllDigitsSlice(b, 0, 8);
    AllDigitsSlice(b, 8, 10);
    ValueBounds(s[2..10]);
    ValueBounds(s[10..]);
    assert Pow10(2) == 100;
    Mod97Complement(Value(s[2..10]), Value(s[10..]));
  }

  /** For n >= 0 and 0 <= c < 100: c == 97 - n % 97 iff c is in 1..97 and n + c is a multiple of 97. */
  lemma Mod97Complement(n: int, c: int)
    requires n >= 0 && 0 <= c < 100
    ensures 97 - n % 97 == c <==> 1 <= c <= 97 && (n + c) % 97 == 0
  {
    var q, r := n / 97, n % 97;
    assert n + c == (r + c) + 97 * q;
    assert (n + c) % 97 == (r + c) % 97;
  }

  // ------------------------------------------------------------ Switzerland

  const ChWeights: seq<int> := [5, 4, 3, 2, 7, 6, 5, 4]

  predicate ChSuffix(t: string)
  {
    t == [] || EqualsCI(t, "MWST") || EqualsCI(t, "TVA") || EqualsCI(t, "IVA")
  }

  /** `/^CHE\d{9}(MWST|TVA|IVA)?$/i` after the code. */
  predicate ChShape(b: string)
  {
    |b| >= 10 && UpperAscii(b[0]) == 'E' && AllDigits(b[1..10]) && ChSuffix(b[10..])
  }

  /** `(11 - total % 11) % 11`; the value 10 means that no check digit is valid. */
  function ChCheckDigit(d: string): (r: int)
    requires |d| == 8
    ensures 0 <= r <= 10
  {
    (11 - WeightedSum(d, ChWeights) % 11) % 11
  }

  predicate ChValid(s: string) { HasPrefixCI(s, "CH") && ChBody(s[2..]) }

  predicate ChBody(b: string)
  {
    ChShape(b) && ChCheckDigit(b[1..9]) != 10 && ChCheckDigit(b[1..9]) == Digit(b[9])
  }

  method CheckCh(s: string) returns (ok: bool)
    ensures ok == ChValid(s)
  {
    if !(HasPrefixCI(s, "CH") && ChShape(s[2..])) {
      return false;
    }
    var v := s[3..12];
    assert v[..8] == s[2..][1..9] && v[8] == s[2..][9];
    var total := WeightedTotal(v[..8], ChWeights);
    total := (11 - total % 11) % 11;
    if total == 10 {
      return false;
    }
    ok := total == Digit(v[8]);
  }

  /** At most one digit completes a Swiss stem, and none when the remainder maps to 10. */
  lemma ChCompletion(stem: string, c: char)
    requires |stem| == 9 && UpperAscii(stem[0]) == 'E' && AllDigits(stem[1..])
    ensures ChValid("CH" + stem + [c]) <==>
      ChCheckDigit(stem[1..]) != 10 && c == DigitChar(ChCheckDigit(stem[1..]))
  {
    Completion("CH", stem, c);
    var b := stem + [c];
    assert b[1..9] == stem[1..] && b[10..] == [];
    assert AllDigits(b[1..10]) <==> IsDigit(c) by {
      assert b[1..10] == stem[1..] + [c];
      Completion("CH", stem[1..], c);
    }
    if ChCheckDigit(stem[1..]) != 10 {
      DigitCharIff(c, ChCheckDigit(stem[1..]));
    }
  }

  // ---------------------------------------------------------------- Denmark

  const DkWeights: seq<int> := [2, 7, 6, 5, 4, 3, 2, 1]

  /** `/^DK\d{8}$/i` and the weighted sum of all eight digits is a multiple of 11. */
  predicate DkValid(s: string) { HasPrefixCI(s, "DK") && DkBody(s[2..]) }

  predicate DkBody(b: string)
  {
    |b| == 8 && AllDigits(b) && WeightedSum(b, DkWeights) % 11 == 0
  }

  method CheckDk(s: string) returns (ok: bool)
    ensures ok == DkValid(s)
  {
    if !(HasPrefixCI(s, "DK") && |s| == 10 && AllDigits(s[2..])) {
      return false;
    }
    var v := s[2..];
    var total := WeightedTotal(v, DkWeights);
    total := total % 11;
    ok := total == 0;
  }

  /**
   * The last weight is 1, so the eighth digit must be minus the weighted sum
   * of the first seven mod 11: at most one digit completes a stem.
   */
  lemma DkCompletion(stem: string, c: char)
    requires |stem| == 7 && AllDigits(stem)
    ensures DkValid("DK" + stem + [c]) <==>
      (var r := (11 - WeightedSum(stem, DkWeights[..7]) % 11) % 11;
       r <= 9 && c == DigitChar(r))
  {
    Completion("DK", stem, c);
    var b := stem + [c];
    assert DkWeights[..7] == [2, 7, 6, 5, 4, 3, 2];
    assert WeightedSum(b, DkWeights) == WeightedSum(stem, DkWeights[..7]) + Digit(c);
    var r := (11 - WeightedSum(stem, DkWeights[..7]) % 11) % 11;
    if r <= 9 {
      DigitCharIff(c, r);
    }
  }

  // ---------------------------------------------------------------- Estonia

  const EeWeights: seq<int> := [3, 7, 1, 3, 7]

  /** `total = 3 + d0 + Σ weights × d1..d5`, then `10 - total % 10` with 10 read as 0. */
  function EeCheckDigit(d: string): (r: int)
    requires |d| == 6
    ensures 0 <= r <= 9
  {
    var total := 3 + Digit(d[0]) + WeightedSum(d[1..6], EeWeights);
    var t := 10 - total % 10;
    if t == 10 then 0 else t
  }

  /** `/^EE10\d{7}$/i`; the check is on the seven digits after "EE10". */
  predicate EeValid(s: string) { HasPrefixCI(s, "EE") && EeBody(s[2..]) }

  predicate EeBody(b: string)
  {
    |b| == 9 && b[..2] == "10" && AllDigits(b[2..]) && EeCheckDigit(b[2..8]) == Digit(b[8])
  }

  method CheckEe(s: string) returns (ok: bool)
    ensures ok == EeValid(s)
  {
    if !(HasPrefixCI(s, "EE") && |s| == 11 && s[2..4] == "10" && AllDigits(s[4..])) {
      if |s| == 11 {
        assert s[2..][..2] == s[2..4] && s[2..][2..] == s[4..];
      }
      return false;
    }
    assert s[2..][..2] == s[2..4] && s[2..][2..] == s[4..];
    var v := s[4..];
    var total := 3 + Digit(v[0]);
    var sum := WeightedTotal(v[1..6], EeWeights);
    total := total + sum;
    total := 10 - total % 10;
    if total == 10 {
      total := 0;
    }
    ghost var d := s[2..][2..8];
    assert d == v[..6];
    assert d[0] == v[0] && d[1..6] == v[1..6];
    ok := total == Digit(v[6]);
  }

  lemma EeCompletion(stem: string, c: char)
    requires |stem| == 8 && stem[..2] == "10" && AllDigits(stem[2..])
    ensures EeValid("EE" + stem + [c]) <==> c == DigitChar(EeCheckDigit(stem[2..]))
  {
    Completion("EE", stem, c);
    var b := stem + [c];
    assert b[..2] == "10" && b[2..8] == stem[2..] && b[2..] == stem[2..] + [c];
    Completion("EE", stem[2..], c);
    DigitCharIff(c, EeCheckDigit(stem[2..]));
  }

  // ----------------------------------------------------------------- Greece

  function Pow2(n: nat): (r: nat)
    ensures r >= 1
  {
    if n == 0 then 1 else 2 * Pow2(n - 1)
  }

  /** `1 << (8 - i)` for positions 0..7. */
  const ElWeights: seq<int> := [256, 128, 64, 32, 16, 8, 4, 2]

  lemma ElWeightsAreShifts()
    ensures |ElWeights| == 8 && forall i | 0 <= i < 8 :: ElWeights[i] == Pow2(8 - i)
  {
    assert Pow2(1) == 2 && Pow2(2) == 4 && Pow2(3) == 8 && Pow2(4) == 16;
    assert Pow2(5) == 32 && Pow2(6) == 64 && Pow2(7) == 128 && Pow2(8) == 256;
  }

  /** Weighted sum mod 11, a remainder above 9 read as 0. */
  function ElCheckDigit(d: string): (r: int)
    requires |d| == 8
    ensures 0 <= r <= 9
  {
    var t := WeightedSum(d, ElWeights) % 11;
    if t > 9 then 0 else t
  }

  /** The nine-digit form of an eight- or nine-digit body: a leading "0" is added to eight digits. */
  function ElPadded(b: string): (v: string)
    ensures |b| == 8 ==> v == "0" + b
    ensures |b| != 8 ==> v == b
  {
    if |b| == 8 then "0" + b else b
  }

  /** `/^EL\d{8,9}$/i`. */
  predicate ElValid(s: string) { HasPrefixCI(s, "EL") && ElBody(s[2..]) }

  predicate ElBody(b: string)
  {
    (|b| == 8 || |b| == 9) && AllDigits(b) &&
    var v := ElPadded(b);
    ElCheckDigit(v[..8]) == Digit(v[8])
  }

  method CheckEl(s: string) returns (ok: bool)
    ensures ok == ElValid(s)
  {
    if !(HasPrefixCI(s, "EL") && (|s| == 10 || |s| == 11) && AllDigits(s[2..])) {
      return false;
    }
    var v := s[2..];
    if |v| == 8 {
      v := "0" + v;
    }
    var total := WeightedTotal(v[..8], ElWeights);
    total := total % 11;
    if total > 9 {
      total := 0;
    }
    ok := total == Digit(v[8]);
  }

  /** An eight-digit Greek number is the nine-digit one with a leading zero. */
  lemma ElPadding(b: string)
    requires |b| == 8
    ensures ElValid("EL" + b) == ElValid("EL0" + b)
  {
    assert ("EL" + b)[2..] == b;
    assert ("EL0" + b)[2..] == "0" + b;
    assert AllDigits(b) <==> AllDigits("0" + b) by {
      assert forall i | 0 <= i < |b| :: ("0" + b)[i + 1] == b[i];
    }
  }

  lemma ElCompletion(stem: string, c: char)
    requires |stem| == 8 && AllDigits(stem)
    ensures ElValid("EL" + stem + [c]) <==> c == DigitChar(ElCheckDigit(stem))
  {
    Completion("EL", stem, c);
    DigitCharIff(c, ElCheckDigit(stem));
  }

  // ---------------------------------------------------------------- Finland

  const FiWeights: seq<int> := [7, 9, 10, 5, 8, 4, 2]

  /** `11 - total % 11`, values above 9 read as 0. */
  function FiCheckDigit(d: string): (r: int)
    requires |d| == 7
    ensures 0 <= r <= 9
  {
    var t := 11 - WeightedSum(d, FiWeights) % 11;
    if t > 9 then 0 else t
  }

  /** `/^FI\d{8}$/i`. */
  predicate FiValid(s: string) { HasPrefixCI(s, "FI") && FiBody(s[2..]) }

  predicate FiBody(b: string)
  {
    |b| == 8 && AllDigits(b) && FiCheckDigit(b[..7]) == Digit(b[7])
  }

  method CheckFi(s: string) returns (ok: bool)
    ensures ok == FiValid(s)
  {
    if !(HasPrefixCI(s, "FI") && |s| == 10 && AllDigits(s[2..])) {
      return false;
    }
    var v := s[2..];
    var total := WeightedTotal(v[..7], FiWeights);
    total := 11 - total % 11;
    if total > 9 {
      total := 0;
    }
    ok := total == Digit(v[7]);
  }

  lemma FiCompletion(stem: string, c: char)
    requires |stem| == 7 && AllDigits(stem)
    ensures FiValid("FI" + stem + [c]) <==> c == DigitChar(FiCheckDigit(stem))
  {
    Completion("FI", stem, c);
    DigitCharIff(c, FiCheckDigit(stem));
  }

  // ---------------------------------------------------------------- Hungary

  const HuWeights: seq<int> := [9, 7, 3, 1, 9, 7, 3]

  /** `10 - total % 10`, 10 read as 0. */
  function HuCheckDigit(d: string): (r: int)
    requires |d| == 7
    ensures 0 <= r <= 9
  {
    var t := 10 - WeightedSum(d, HuWeights) % 10;
    if t == 10 then 0 else t
  }

  /** `/^HU\d{8}$/i`. */
  predicate HuValid(s: string) { HasPrefixCI(s, "HU") && HuBody(s[2..]) }

  predicate HuBody(b: string)
  {
    |b| == 8 && AllDigits(b) && HuCheckDigit(b[..7]) == Digit(b[7])
  }

  method CheckHu(s: string) returns (ok: bool)
    ensures ok == HuValid(s)
  {
    if !(HasPrefixCI(s, "HU") && |s| == 10 && AllDigits(s[2..])) {
      return false;
    }
    var v := s[2..];
    var total := WeightedTotal(v[..7], HuWeights);
    total := 10 - total % 10;
    if total == 10 {
      total := 0;
    }
    ok := total == Digit(v[7]);
  }

  lemma HuCompletion(stem: string, c: char)
    requires |stem| == 7 && AllDigits(stem)
    ensures HuValid("HU" + stem + [c]) <==> c == DigitChar(HuCheckDigit(stem))
  {
    Completion("HU", stem, c);
    DigitCharIff(c, HuCheckDigit(stem));
  }

  // ------------------------------------------------------------- Luxembourg

  /** `/^LU\d{8}$/i` and the first six digits mod 89 equal the last two mod 89. */
  predicate LuValid(s: string) { HasPrefixCI(s, "LU") && LuBody(s[2..]) }

  predicate LuBody(b: string)
  {
    |b| == 8 && AllDigits(b) && Value(b[..6]) % 89 == Value(b[6..]) % 89
  }

  /**
   * The two-digit check is reduced mod 89 too, so for a stem whose value
   * mod 89 is r both r and r + 89 are accepted (two checks when r <= 10).
   */
  lemma LuCompletion(stem: string, cc: string)
    requires |stem| == 6 && AllDigits(stem) && |cc| == 2 && AllDigits(cc)
    ensures LuValid("LU" + stem + cc) <==>
      Value(cc) == Value(stem) % 89 || Value(cc) == Value(stem) % 89 + 89
  {
    var b := stem + cc;
    assert ("LU" + stem + cc)[2..] == b;
    assert b[..6] == stem && b[6..] == cc;
    assert AllDigits(b);
    ValueBounds(cc);
    assert Pow10(2) == 100;
  }

  // ------------------------------------------------------------------ Malta

  /** `i + (i > 1 ? 4 : 3)` for positions 0..5. */
  const MtWeights: seq<int> := [3, 4, 6, 7, 8, 9]

  lemma MtWeightsFormula()
    ensures |MtWeights| == 6 && forall i | 0 <= i < 6 :: MtWeights[i] == i + (if i > 1 then 4 else 3)
  {
  }

  /** `37 - total % 37`: a two-digit check between 1 and 37. */
  function MtCheckValue(d: string): (r: int)
    requires |d| == 6
    ensures 1 <= r <= 37
  {
    37 - WeightedSum(d, MtWeights) % 37
  }

  /** `/^MT[1-9]\d{7}$/i`. */
  predicate MtValid(s: string) { HasPrefixCI(s, "MT") && MtBody(s[2..]) }

  predicate MtBody(b: string)
  {
    |b| == 8 && AllDigits(b) && b[0] != '0' && MtCheckValue(b[..6]) == Value(b[6..])
  }

  method CheckMt(s: string) returns (ok: bool)
    ensures ok == MtValid(s)
  {
    if !(HasPrefixCI(s, "MT") && |s| == 10 && AllDigits(s[2..]) && s[2] != '0') {
      return false;
    }
    var v := s[2..];
    var total := WeightedTotal(v[..6], MtWeights);
    total := 37 - total % 37;
    ok := total == Value(v[6..]);
  }

  /** Exactly one two-digit check completes a Maltese stem: the one whose value is `MtCheckValue`. */
  lemma MtCompletion(stem: string, cc: string)
    requires |stem| == 6 && AllDigits(stem) && stem[0] != '0' && |cc| == 2 && AllDigits(cc)
    ensures MtValid("MT" + stem + cc) <==> Value(cc) == MtCheckValue(stem)
  {
    var b := stem + cc;
    assert ("MT" + stem + cc)[2..] == b;
    assert b[..6] == stem && b[6..] == cc && b[0] == stem[0];
    assert AllDigits(b);
  }

  // ----------------------------------------------------------------- Norway

  const NoWeights: seq<int> := [3, 2, 7, 6, 5, 4, 3, 2]

  /** `11 - total % 11` with 11 read as 0; the value 10 admits no check digit. */
  function NoCheckDigit(d: string): (r: int)
    requires |d| == 8
    ensures 0 <= r <= 10
  {
    var t := 11 - WeightedSum(d, NoWeights) % 11;
    if t == 11 then 0 else t
  }

  /** `/^NO\d{9}$/i`. */
  predicate NoValid(s: string) { HasPrefixCI(s, "NO") && NoBody(s[2..]) }

  predicate NoBody(b: string)
  {
    |b| == 9 && AllDigits(b) && NoCheckDigit(b[..8]) != 10 && NoCheckDigit(b[..8]) == Digit(b[8])
  }

  method CheckNo(s: string) returns (ok: bool)
    ensures ok == NoValid(s)
  {
    if !(HasPrefixCI(s, "NO") && |s| == 11 && AllDigits(s[2..])) {
      return false;
    }
    var v := s[2..];
    var total := WeightedTotal(v[..8], NoWeights);
    total := 11 - total % 11;
    if total == 11 {
      total := 0;
    }
    if total == 10 {
      return false;
    }
    ok := total == Digit(v[8]);
  }

  lemma NoCompletion(stem: string, c: char)
    requires |stem| == 8 && AllDigits(stem)
    ensures NoValid("NO" + stem + [c]) <==>
      NoCheckDigit(stem) != 10 && c == DigitChar(NoCheckDigit(stem))
  {
    Completion("NO", stem, c);
    if NoCheckDigit(stem) != 10 {
      DigitCharIff(c, NoCheckDigit(stem));
    }
  }

  // ----------------------------------------------------------------- Poland

  const PlWeights: seq<int> := [6, 5, 7, 2, 3, 4, 5, 6, 7]

  /** Weighted sum mod 11, a remainder above 9 read as 0. */
  function PlCheckDigit(d: string): (r: int)
    requires |d| == 9
    ensures 0 <= r <= 9
  {
    var t := WeightedSum(d, PlWeights) % 11;
    if t > 9 then 0 else t
  }

  /** `/^PL\d{10}$/i`. */
  predicate PlValid(s: string) { HasPrefixCI(s, "PL") && PlBody(s[2..]) }

  predicate PlBody(b: string)
  {
    |b| == 10 && AllDigits(b) && PlCheckDigit(b[..9]) == Digit(b[9])
  }

  method CheckPl(s: string) returns (ok: bool)
    ensures ok == PlValid(s)
  {
    if !(HasPrefixCI(s, "PL") && |s| == 12 && AllDigits(s[2..])) {
      return false;
    }
    var v := s[2..];
    var total := WeightedTotal(v[..9], PlWeights);
    total := total % 11;
    if total > 9 {
      total := 0;
    }
    ok := total == Digit(v[9]);
  }

  lemma PlCompletion(stem: string, c: char)
    requires |stem| == 9 && AllDigits(stem)
    ensures PlValid("PL" + stem + [c]) <==> c == DigitChar(PlCheckDigit(stem))
  {
    Completion("PL", stem, c);
    DigitCharIff(c, PlCheckDigit(stem));
  }

  // --------------------------------------------------------------- Portugal

  const PtWeights: seq<int> := [9, 8, 7, 6, 5, 4, 3, 2]

  /** The two leading digits `([1-3]|5|6)\d | 45 | 7([012]|[45]|[789]) | 9[0189]`. */
  predicate PtLeadingPair(x: char, y: char)
  {
    x == '1' || x == '2' || x == '3' || x == '5' || x == '6'
    || (x == '4' && y == '5')
    || (x == '7' && (y == '0' || y == '1' || y == '2' || y == '4' || y == '5'
                     || y == '7' || y == '8' || y == '9'))
    || (x == '9' && (y == '0' || y == '1' || y == '8' || y == '9'))
  }

  /** `11 - total % 11`, values above 9 read as 0. */
  function PtCheckDigit(d: string): (r: int)
    requires |d| == 8
    ensures 0 <= r <= 9
  {
    var t := 11 - WeightedSum(d, PtWeights) % 11;
    if t > 9 then 0 else t
  }

  /** The Portuguese pattern: "PT", an allowed leading pair, then seven digits. */
  predicate PtValid(s: string) { HasPrefixCI(s, "PT") && PtBody(s[2..]) }

  predicate PtBody(b: string)
  {
    |b| == 9 && AllDigits(b) && PtLeadingPair(b[0], b[1]) && PtCheckDigit(b[..8]) == Digit(b[8])
  }

  method CheckPt(s: string) returns (ok: bool)
    ensures ok == PtValid(s)
  {
    if !(HasPrefixCI(s, "PT") && |s| == 11 && AllDigits(s[2..]) && PtLeadingPair(s[2], s[3])) {
      return false;
    }
    var total := WeightedTotal(s[2..10], PtWeights);
    assert s[2..10] == s[2..][..8];
    total := 11 - total % 11;
    if total > 9 {
      total := 0;
    }
    ok := total == Digit(s[10]);
  }

  lemma PtCompletion(stem: string, c: char)
    requires |stem| == 8 && AllDigits(stem) && PtLeadingPair(stem[0], stem[1])
    ensures PtValid("PT" + stem + [c]) <==> c == DigitChar(PtCheckDigit(stem))
  {
    Completion("PT", stem, c);
    DigitCharIff(c, PtCheckDigit(stem));
  }

  // ---------------------------------------------------------------- Romania

  const RoWeights: seq<int> := [7, 5, 3, 2, 1, 7, 5, 3, 2]

  /**
   * The weights of `multipliers.slice(10 - length)`, right-aligned to the
   * digits before the check; `(10 * total) % 11` with 10 read as 0.
   */
  function RoCheckDigit(d: string): (r: int)
    requires 1 <= |d| <= 9
    ensures 0 <= r <= 9
  {
    var t := (10 * WeightedSum(d, RoWeights[9 - |d|..])) % 11;
    if t == 10 then 0 else t
  }

  /** `/^RO[1-9]\d{1,9}$/i`: two to ten digits, the first not 0. */
  predicate RoValid(s: string) { HasPrefixCI(s, "RO") && RoBody(s[2..]) }

  predicate RoBody(b: string)
  {
    2 <= |b| <= 10 && AllDigits(b) && b[0] != '0'
    && RoCheckDigit(b[..|b| - 1]) == Digit(b[|b| - 1])
  }

  method CheckRo(s: string) returns (ok: bool)
    ensures ok == RoValid(s)
  {
    if !(HasPrefixCI(s, "RO") && 4 <= |s| <= 12 && AllDigits(s[2..]) && s[2] != '0') {
      return false;
    }
    var v := s[2..];
    var length := |v|;
    var multipliers := RoWeights[10 - length..];
    var total := WeightedTotal(v[..length - 1], multipliers);
    total := (10 * total) % 11;
    if total == 10 {
      total := 0;
    }
    ok := total == Digit(v[length - 1]);
  }

  lemma RoCompletion(stem: string, c: char)
    requires 1 <= |stem| <= 9 && AllDigits(stem) && stem[0] != '0'
    ensures RoValid("RO" + stem + [c]) <==> c == DigitChar(RoCheckDigit(stem))
  {
    Completion("RO", stem, c);
    DigitCharIff(c, RoCheckDigit(stem));
  }

  // ----------------------------------------------------------------- Sweden

  /** The term for an even position: `(digit < 5 ? 0 : 1) + (digit * 2) % 10`. */
  function SeEvenTerm(c: char): int
  {
    (if Digit(c) < 5 then 0 else 1) + (Digit(c) * 2) % 10
  }

  /** `r`: the even-position terms among the first `n` digits. */
  function SeEvenSum(v: string, n: nat): int
    requires n <= |v|
  {
    if n == 0 then 0
    else SeEvenSum(v, n - 1) + (if (n - 1) % 2 == 0 then SeEvenTerm(v[n - 1]) else 0)
  }

  /** `s`: the odd-position digits among the first `n`. */
  function SeOddSum(v: string, n: nat): int
    requires n <= |v|
  {
    if n == 0 then 0
    else SeOddSum(v, n - 1) + (if (n - 1) % 2 == 1 then Digit(v[n - 1]) else 0)
  }

  /** `(10 - (r + s) % 10) % 10` over the first nine of the ten digits. */
  function SeCheckDigit(v: string): (r: int)
    requires |v| >= 9
    ensures 0 <= r <= 9
  {
    (10 - (SeEvenSum(v, 9) + SeOddSum(v, 9)) % 10) % 10
  }

  /** `/^SE\d{10}01$/i`. */
  predicate SeValid(s: string) { HasPrefixCI(s, "SE") && SeBody(s[2..]) }

  predicate SeBody(b: string)
  {
    |b| == 12 && AllDigits(b) && b[10..] == "01" && SeCheckDigit(b[..10]) == Digit(b[9])
  }

  method CheckSe(s: string) returns (ok: bool)
    ensures ok == SeValid(s)
  {
    if !(HasPrefixCI(s, "SE") && |s| == 14 && AllDigits(s[2..]) && s[12..] == "01") {
      if |s| == 14 {
        assert s[2..][10..] == s[12..];
      }
      return false;
    }
    assert s[2..][10..] == s[12..] && s[2..][..10] == s[2..12];
    var v := s[2..12];
    var r := 0;
    var i := 0;
    while i < 9
      invariant 0 <= i <= 10 && i % 2 == 0
      invariant r == SeEvenSum(v, i)
    {
      var digit := Digit(v[i]);
      r := r + (if digit < 5 then 0 else 1) + (digit * 2) % 10;
      i := i + 2;
    }
    var t := 0;
    i := 1;
    while i < 9
      invariant 1 <= i <= 9 && i % 2 == 1
      invariant t == SeOddSum(v, i)
    {
      t := t + Digit(v[i]);
      i := i + 2;
    }
    var checkDigit := (10 - (r + t) % 10) % 10;
    ok := checkDigit == Digit(v[9]);
  }

  /** Both sums only read the first `n` digits. */
  lemma {:induction false} SeSumsPrefix(v: string, w: string, n: nat)
    requires n <= |v| && n <= |w| && v[..n] == w[..n]
    ensures SeEvenSum(v, n) == SeEvenSum(w, n) && SeOddSum(v, n) == SeOddSum(w, n)
  {
    if n > 0 {
      assert v[n - 1] == v[..n][n - 1] && w[n - 1] == w[..n][n - 1];
      assert v[..n - 1] == v[..n][..n - 1] && w[..n - 1] == w[..n][..n - 1];
      SeSumsPrefix(v, w, n - 1);
    }
  }

  /**
   * The Swedish sum is the doubling-and-folding sum with the doubled digits
   * at the even positions: `r + s` over the first n digits equals `FoldSum`.
   */
  lemma {:induction false} SeSumIsFoldSum(v: string, n: nat)
    requires n <= |v| && AllDigits(v)
    ensures SeEvenSum(v, n) + SeOddSum(v, n) == FoldSum(v[..n], Alternating(n, true))
  {
    if n > 0 {
      SeSumIsFoldSum(v, n - 1);
      assert v[..n][..n - 1] == v[..n - 1];
      assert Alternating(n, true)[..n - 1] == Alternating(n - 1, true);
      assert v[..n][n - 1] == v[n - 1];
      assert IsDigit(v[n - 1]);
    }
  }

  /** The Swedish check digit is the Luhn check digit of the first nine digits. */
  lemma SeCompletion(stem: string, c: char)
    requires |stem| == 9 && AllDigits(stem)
    ensures SeValid("SE" + stem + [c] + "01") <==>
      c == DigitChar((10 - FoldSum(stem, Alternating(9, true)) % 10) % 10)
  {
    var b := stem + [c] + "01";
    assert ("SE" + stem + [c] + "01")[2..] == b;
    assert b[10..] == "01" && b[..10] == stem + [c] && b[9] == c;
    assert AllDigits(b) <==> IsDigit(c) by {
      assert forall i | 0 <= i < 9 :: b[i] == stem[i];
    }
    SeSumsPrefix(stem + [c], stem, 9) by {
      assert (stem + [c])[..9] == stem == stem[..9];
    }
    SeSumIsFoldSum(stem, 9);
    assert stem[..9] == stem;
    DigitCharIff(c, SeCheckDigit(stem));
  }

  // --------------------------------------------------------------- Slovenia

  /** `8 - i` for positions 0..6. */
  const SiWeights: seq<int> := [8, 7, 6, 5, 4, 3, 2]

  /** `11 - total % 11` with 10 read as 0; the value 11 admits no check digit. */
  function SiCheckDigit(d: string): (r: int)
    requires |d| == 7
    ensures 0 <= r <= 11 && r != 10
  {
    var t := 11 - WeightedSum(d, SiWeights) % 11;
    if t == 10 then 0 else t
  }

  /** `/^SI[1-9]\d{7}$/i`. */
  predicate SiValid(s: string) { HasPrefixCI(s, "SI") && SiBody(s[2..]) }

  predicate SiBody(b: string)
  {
    |b| == 8 && AllDigits(b) && b[0] != '0'
    && SiCheckDigit(b[..7]) != 11 && SiCheckDigit(b[..7]) == Digit(b[7])
  }

  method CheckSi(s: string) returns (ok: bool)
    ensures ok == SiValid(s)
  {
    if !(HasPrefixCI(s, "SI") && |s| == 10 && AllDigits(s[2..]) && s[2] != '0') {
      return false;
    }
    var v := s[2..];
    var total := WeightedTotal(v[..7], SiWeights);
    total := 11 - total % 11;
    if total == 10 {
      total := 0;
    }
    ok := total != 11 && total == Digit(v[7]);
  }

  lemma SiCompletion(stem: string, c: char)
    requires |stem| == 7 && AllDigits(stem) && stem[0] != '0'
    ensures SiValid("SI" + stem + [c]) <==>
      SiCheckDigit(stem) != 11 && c == DigitChar(SiCheckDigit(stem))
  {
    Completion("SI", stem, c);
    if SiCheckDigit(stem) != 11 {
      DigitCharIff(c, SiCheckDigit(stem));
    }
  }

  // --------------------------------------------------------------- Slovakia

  /** `/^SK\d{10}$/i` and the ten-digit number is a multiple of 11. */
  predicate SkValid(s: string) { HasPrefixCI(s, "SK") && SkBody(s[2..]) }

  predicate SkBody(b: string) { |b| == 10 && AllDigits(b) && Value(b) % 11 == 0 }

  /** At most one last digit makes a Slovak number a multiple of 11. */
  lemma SkCompletion(stem: string, c: char)
    requires |stem| == 9 && AllDigits(stem)
    ensures SkValid("SK" + stem + [c]) <==>
      (var r := (11 - (10 * Value(stem)) % 11) % 11; r <= 9 && c == DigitChar(r))
  {
    Completion("SK", stem, c);
    ValuePushDigit(stem, c);
    var r := (11 - (10 * Value(stem)) % 11) % 11;
    if IsDigit(c) {
      Mod11Complement(10 * Value(stem), Digit(c));
    }
    if r <= 9 {
      DigitCharIff(c, r);
    }
  }

  /** The one summand in 0..10 that completes `x` to a multiple of 11. */
  lemma Mod11Complement(x: int, d: int)
    requires 0 <= d <= 10
    ensures (x + d) % 11 == 0 <==> d == (11 - x % 11) % 11
  {
    var q := x / 11;
    assert x == 11 * q + x % 11;
    if d == (11 - x % 11) % 11 {
      if x % 11 == 0 {
        assert x + d == 11 * q;
      } else {
        assert x + d == 11 * (q + 1);
      }
    }
  }

  // ----------------------------------------------------------------- Russia

  const RuWeights: seq<int> := [2, 4, 10, 3, 5, 9, 4, 6, 8]

  /** Weighted sum mod 11, a remainder above 9 reduced mod 10. */
  function RuCheckDigit(d: string): (r: int)
    requires |d| == 9
    ensures 0 <= r <= 9
  {
    var t := WeightedSum(d, RuWeights) % 11;
    if t > 9 then t % 10 else t
  }

  /**
   * `/^RU(\d{10}|\d{12)$/i`: the second alternative has no closing brace,
   * so it reads a digit followed by the literal characters "{12".
   */
  predicate RuShape(b: string)
  {
    (|b| == 10 && AllDigits(b)) || (|b| == 4 && IsDigit(b[0]) && b[1..] == "{12")
  }

  /**
   * Only the ten-digit body reaches a checksum; the other shape runs the
   * twelve-digit branch, whose comparisons read `charAt(10)` of a
   * four-character string (NaN) and fail.
   */
  predicate RuValid(s: string) { HasPrefixCI(s, "RU") && RuBody(s[2..]) }

  predicate RuBody(b: string)
  {
    RuShape(b) && |b| == 10 && RuCheckDigit(b[..9]) == Digit(b[9])
  }

  method CheckRu(s: string) returns (ok: bool)
    ensures ok == RuValid(s)
  {
    if !(HasPrefixCI(s, "RU") && RuShape(s[2..])) {
      return false;
    }
    var v := s[2..];
    if |v| == 10 {
      var total := WeightedTotal(v[..9], RuWeights);
      total := total % 11;
      if total > 9 {
        total := total % 10;
      }
      return total == Digit(v[9]);
    }
    ok := false;
  }

  /** No twelve-digit Russian number is accepted. */
  lemma RuRejectsTwelveDigits(s: string)
    requires |s| == 14 && AllDigits(s[2..])
    ensures !RuValid(s)
  {
  }

  lemma RuCompletion(stem: string, c: char)
    requires |stem| == 9 && AllDigits(stem)
    ensures RuValid("RU" + stem + [c]) <==> c == DigitChar(RuCheckDigit(stem))
  {
    Completion("RU", stem, c);
    DigitCharIff(c, RuCheckDigit(stem));
  }
}
