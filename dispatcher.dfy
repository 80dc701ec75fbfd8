/**
 * The entry point `validateVatNumber`: remove the separators, read the
 * country code from the first two characters without regard to case, and
 * hand the separator-free string (not re-cased) to that country's rule.
 * `EU` followed by nine digits is accepted on its format alone; any other
 * code is rejected.
 */
module Dispatcher {
  import opened Text
  import WeightedRules
  import RecurrenceRules
  import FoldRules
  import LetterRules
  import VariantRules
  import GbRule
  import NlRule

  /** The codes the validator routes to a country rule. */
  const CountryCodes: set<string> := {"AT", "BE", "BG", "CH", "CY", "CZ", "DE", "DK", "EE", "EL", "ES", "FI", "HR", "HU", "FR", "GB", "IE", "IT", "LT", "LU", "LV", "MT", "NL", "NO", "PL", "PT", "RO", "RS", "RU", "SE", "SK", "SI"}

  /** The first two characters (fewer if the string is shorter), upper-cased. */
  function CountryCode(s: string): (code: string)
    ensures |code| == if |s| < 2 then |s| else 2
    ensures forall i | 0 <= i < |code| :: code[i] == UpperAscii(s[i])
  {
    UpperString(Substring(s, 0, 2))
  }

  /** `/^EU\d{9}$/i`, the only pattern of the fallback branch. */
  predicate EuValid(s: string)
  {
    HasPrefixCI(s, "EU") && |s| == 11 && AllDigits(s[2..])
  }

  /** The branches of the validator's switch, `Eu` for its fallback pattern and `Unknown` for every other code. */
  datatype Rule = At | Be | Bg | Ch | Cy | Cz | De | Dk | Ee | El | Es | Fi | Hr | Hu | Fr | Gb | Ie | It | Lt | Lu | Lv | Mt | Nl | No | Pl | Pt | Ro | Rs | Ru | Se | Sk | Si | Eu | Unknown

  /** The branch the upper-cased code selects. */
  function RuleOf(code: string): (r: Rule)
    ensures r == Cy <==> code == "CY"
    ensures r == Es <==> code == "ES"
    ensures r == Ie <==> code == "IE"
    ensures r == Eu <==> code == "EU"
    ensures r == Unknown <==> code !in CountryCodes && code != "EU"
  {
    match code
    case "AT" => At
    case "BE" => Be
    case "BG" => Bg
    case "CH" => Ch
    case "CY" => Cy
    case "CZ" => Cz
    case "DE" => De
    case "DK" => Dk
    case "EE" => Ee
    case "EL" => El
    case "ES" => Es
    case "FI" => Fi
    case "HR" => Hr
    case "HU" => Hu
    case "FR" => Fr
    case "GB" => Gb
    case "IE" => Ie
    case "IT" => It
    case "LT" => Lt
    case "LU" => Lu
    case "LV" => Lv
    case "MT" => Mt
    case "NL" => Nl
    case "NO" => No
    case "PL" => Pl
    case "PT" => Pt
    case "RO" => Ro
    case "RS" => Rs
    case "RU" => Ru
    case "SE" => Se
    case "SK" => Sk
    case "SI" => Si
    case "EU" => Eu
    case _ => Unknown
  }

  /** The country rule of branch `r`, applied to the separator-free string `s`. */
  predicate Apply(r: Rule, s: string)
  {
    match r
    case At => FoldRules.AtValid(s)
    case Be => WeightedRules.BeValid(s)
    case Bg => VariantRules.BgValid(s)
    case Ch => WeightedRules.ChValid(s)
    case Cy => LetterRules.CyValid(s)
    case Cz => VariantRules.CzValid(s)
    case De => RecurrenceRules.DeValid(s)
    case Dk => WeightedRules.DkValid(s)
    case Ee => WeightedRules.EeValid(s)
    case El => WeightedRules.ElValid(s)
    case Es => VariantRules.EsValid(s)
    case Fi => WeightedRules.FiValid(s)
    case Hr => RecurrenceRules.HrValid(s)
    case Hu => WeightedRules.HuValid(s)
    case Fr => VariantRules.FrValid(s)
    case Gb => GbRule.GbValid(s)
    case Ie => LetterRules.IeValid(s)
    case It => FoldRules.ItValid(s)
    case Lt => VariantRules.LtValid(s)
    case Lu => WeightedRules.LuValid(s)
    case Lv => VariantRules.LvValid(s)
    case Mt => WeightedRules.MtValid(s)
    case Nl => NlRule.NlValid(s)
    case No => WeightedRules.NoValid(s)
    case Pl => WeightedRules.PlValid(s)
    case Pt => WeightedRules.PtValid(s)
    case Ro => WeightedRules.RoValid(s)
    case Rs => RecurrenceRules.RsValid(s)
    case Ru => WeightedRules.RuValid(s)
    case Se => WeightedRules.SeValid(s)
    case Sk => WeightedRules.SkValid(s)
    case Si => WeightedRules.SiValid(s)
    case Eu => EuValid(s)
    case Unknown => false
  }

  predicate IsValidVatNumber(input: string)
  {
    var s := StripSeparators(input);
    Apply(RuleOf(CountryCode(s)), s)
  }

  method ValidateVatNumber(input: string) returns (ok: bool)
    ensures ok == IsValidVatNumber(input)
  {
    var s := StripSeparators(input);
    var countryCode := CountryCode(s);
    match RuleOf(countryCode)
    case At =>
      ok := FoldRules.CheckAt(s);
    case Be =>
      ok := WeightedRules.BeValid(s);
    case Bg =>
      ok := VariantRules.CheckBg(s);
    case Ch =>
      ok := WeightedRules.CheckCh(s);
    case Cy =>
      ok := LetterRules.CheckCy(s);
    case Cz =>
      ok := VariantRules.CheckCz(s);
    case De =>
      ok := RecurrenceRules.CheckDe(s);
    case Dk =>
      ok := WeightedRules.CheckDk(s);
    case Ee =>
      ok := WeightedRules.CheckEe(s);
    case El =>
      ok := WeightedRules.CheckEl(s);
    case Es =>
      ok := VariantRules.CheckEs(s);
    case Fi =>
      ok := WeightedRules.CheckFi(s);
    case Hr =>
      ok := RecurrenceRules.CheckHr(s);
    case Hu =>
      ok := WeightedRules.CheckHu(s);
    case Fr =>
      ok := VariantRules.FrValid(s);
    case Gb =>
      ok := GbRule.CheckGb(s);
    case Ie =>
      ok := LetterRules.CheckIe(s);
    case It =>
      ok := FoldRules.CheckIt(s);
    case Lt =>
      ok := VariantRules.CheckLt(s);
    case Lu =>
      ok := WeightedRules.LuValid(s);
    case Lv =>
      ok := VariantRules.CheckLv(s);
    case Mt =>
      ok := WeightedRules.CheckMt(s);
    case Nl =>
      ok := NlRule.CheckNl(s);
    case No =>
      ok := WeightedRules.CheckNo(s);
    case Pl =>
      ok := WeightedRules.CheckPl(s);
    case Pt =>
      ok := WeightedRules.CheckPt(s);
    case Ro =>
      ok := WeightedRules.CheckRo(s);
    case Rs =>
      ok := RecurrenceRules.CheckRs(s);
    case Ru =>
      ok := WeightedRules.CheckRu(s);
    case Se =>
      ok := WeightedRules.CheckSe(s);
    case Sk =>
      ok := WeightedRules.SkValid(s);
    case Si =>
      ok := WeightedRules.CheckSi(s);
    case Eu =>
      ok := EuValid(s);
    case Unknown =>
      ok := false;
  }

  /** Inserting a separator anywhere never changes the result. */
  lemma SeparatorInsensitive(a: string, c: char, b: string)
    requires IsSeparator(c)
    ensures IsValidVatNumber(a + [c] + b) == IsValidVatNumber(a + b)
  {
    assert StripSeparators([c]) == [] by {
      assert [c][1..] == [];
    }
    assert StripSeparators(a + [c] + b) == StripSeparators(a + b) by {
      StripAppend(a + [c], b);
      StripAppend(a, [c]);
      StripAppend(a, b);
      assert StripSeparators(a) + [] == StripSeparators(a);
    }
  }

  /** A code outside the switch, other than `EU`, is rejected. */
  lemma UnknownCodeRejected(input: string)
    requires CountryCode(StripSeparators(input)) !in CountryCodes
    requires CountryCode(StripSeparators(input)) != "EU"
    ensures !IsValidVatNumber(input)
  {
    assert RuleOf(CountryCode(StripSeparators(input))) == Unknown;
  }

  /** With the code `EU`, exactly the strings of eleven characters ending in nine digits are accepted. */
  lemma EuRule(input: string)
    requires CountryCode(StripSeparators(input)) == "EU"
    ensures var s := StripSeparators(input);
      IsValidVatNumber(input) <==> |s| == 11 && AllDigits(s[2..])
  {
    var s := StripSeparators(input);
    var code := CountryCode(s);
    assert RuleOf(code) == Eu;
    assert HasPrefixCI(s, "EU") by {
      assert code[0] == UpperAscii(s[0]) && code[1] == UpperAscii(s[1]);
    }
  }

  /** `EU` followed by nine digits is accepted, the prefix in either case. */
  lemma EuAccepted(x: char, y: char, d: string)
    requires UpperAscii(x) == 'E' && UpperAscii(y) == 'U'
    requires |d| == 9 && AllDigits(d)
    ensures IsValidVatNumber([x, y] + d)
  {
    var s := [x, y] + d;
    forall i | 0 <= i < |s|
      ensures !IsSeparator(s[i])
    {
      if i >= 2 {
        assert s[i] == d[i - 2];
      }
    }
    StripNoSeparators(s);
    assert s[2..] == d;
    EuRule(s);
  }

  /**
   * Changing the case of the two code letters never changes the result,
   * except for `CY`, `ES` and `IE`, whose rules test the prefix with case.
   */
  lemma PrefixCaseInsensitive(s: string, t: string)
    requires |s| == |t| >= 2 && s[2..] == t[2..]
    requires UpperAscii(s[0]) == UpperAscii(t[0]) && UpperAscii(s[1]) == UpperAscii(t[1])
    requires forall i | 0 <= i < |s| :: !IsSeparator(s[i]) && !IsSeparator(t[i])
    requires CountryCode(s) != "CY" && CountryCode(s) != "ES" && CountryCode(s) != "IE"
    ensures IsValidVatNumber(s) == IsValidVatNumber(t)
  {
    StripNoSeparators(s);
    StripNoSeparators(t);
    assert CountryCode(t) == CountryCode(s);
    ApplyCaseInsensitive(RuleOf(CountryCode(s)), s, t);
  }

  /** Every rule but those of `CY`, `ES` and `IE` reads its prefix without regard to case. */
  lemma ApplyCaseInsensitive(r: Rule, s: string, t: string)
    requires |s| == |t| >= 2 && s[2..] == t[2..]
    requires UpperAscii(s[0]) == UpperAscii(t[0]) && UpperAscii(s[1]) == UpperAscii(t[1])
    requires r != Cy && r != Es && r != Ie
    ensures Apply(r, s) == Apply(r, t)
  {
    match r {
      case At => PrefixCaseBlind(s, t, "AT");
      case Be => PrefixCaseBlind(s, t, "BE");
      case Bg => PrefixCaseBlind(s, t, "BG");
      case Ch => PrefixCaseBlind(s, t, "CH");
      case Cz => PrefixCaseBlind(s, t, "CZ");
      case De => PrefixCaseBlind(s, t, "DE");
      case Dk => PrefixCaseBlind(s, t, "DK");
      case Ee => PrefixCaseBlind(s, t, "EE");
      case El => PrefixCaseBlind(s, t, "EL");
      case Fi => PrefixCaseBlind(s, t, "FI");
      case Hr => PrefixCaseBlind(s, t, "HR");
      case Hu => PrefixCaseBlind(s, t, "HU");
      case Fr => PrefixCaseBlind(s, t, "FR");
      case Gb => PrefixCaseBlind(s, t, "GB");
      case It => PrefixCaseBlind(s, t, "IT");
      case Lt => PrefixCaseBlind(s, t, "LT");
      case Lu => PrefixCaseBlind(s, t, "LU");
      case Lv => PrefixCaseBlind(s, t, "LV");
      case Mt => PrefixCaseBlind(s, t, "MT");
      case Nl => NlCaseBlind(s, t);
      case No => PrefixCaseBlind(s, t, "NO");
      case Pl => PrefixCaseBlind(s, t, "PL");
      case Pt => PrefixCaseBlind(s, t, "PT");
      case Ro => PrefixCaseBlind(s, t, "RO");
      case Rs => PrefixCaseBlind(s, t, "RS");
      case Ru => PrefixCaseBlind(s, t, "RU");
      case Se => PrefixCaseBlind(s, t, "SE");
      case Sk => PrefixCaseBlind(s, t, "SK");
      case Si => PrefixCaseBlind(s, t, "SI");
      case Eu => PrefixCaseBlind(s, t, "EU");
      case Unknown =>
    }
  }

  /** A two-letter prefix test without regard to case sees only the upper-cased first two characters. */
  lemma PrefixCaseBlind(s: string, t: string, p: string)
    requires |s| == |t| >= 2 && |p| == 2
    requires UpperAscii(s[0]) == UpperAscii(t[0]) && UpperAscii(s[1]) == UpperAscii(t[1])
    ensures HasPrefixCI(s, p) == HasPrefixCI(t, p)
  {
  }

  /** The Dutch rule upper-cases the whole number itself, so the case of its prefix does not matter. */
  lemma NlCaseBlind(s: string, t: string)
    requires |s| == |t| >= 2 && s[2..] == t[2..]
    requires UpperAscii(s[0]) == UpperAscii(t[0]) && UpperAscii(s[1]) == UpperAscii(t[1])
    ensures NlRule.NlValid(s) == NlRule.NlValid(t)
  {
    PrefixCaseBlind(s, t, "NL");
    assert UpperString(s) == UpperString(t);
    assert forall i | 2 <= i < |s| :: s[i] == t[i] by {
      assert forall i | 2 <= i < |s| :: s[i] == s[2..][i - 2] && t[i] == t[2..][i - 2];
    }
    assert NlRule.SoleProprietorValid(s) == NlRule.SoleProprietorValid(t);
    if |s| == 14 {
      assert s[2..11] == t[2..11] && s[12..] == t[12..] && s[11] == t[11];
      assert s[2..10] == t[2..10] && s[10] == t[10];
      assert NlRule.NlStandardShape(s) == NlRule.NlStandardShape(t);
      assert NlRule.NlSoleShape(s) == NlRule.NlSoleShape(t);
      if NlRule.NlStandardShape(s) {
        assert NlRule.NlStandardCheck(s) == NlRule.NlStandardCheck(t);
      }
    } else {
      assert !NlRule.NlStandardShape(s) && !NlRule.NlStandardShape(t);
      assert !NlRule.NlSoleShape(s) && !NlRule.NlSoleShape(t);
    }
  }

  /** `CY` and `ES` numbers are accepted only with the upper-case prefix. */
  lemma ExactPrefixCodes(input: string)
    requires var s := StripSeparators(input);
      (CountryCode(s) == "CY" || CountryCode(s) == "ES") && s[..2] != CountryCode(s)
    ensures !IsValidVatNumber(input)
  {
    var s := StripSeparators(input);
    if CountryCode(s) == "CY" {
      assert RuleOf(CountryCode(s)) == Cy && !LetterRules.CyValid(s);
    } else {
      assert RuleOf(CountryCode(s)) == Es && !VariantRules.EsValid(s);
    }
  }
}
