/**
 * Austria and Italy: the doubling-and-folding sum of Annex B of
 * ISO/IEC 7812-1 (`checkAtVatNumber`, `checkItVatNumber`).
 */
module FoldRules {
  import opened Text
  import opened Checksums

  // ---------------------------------------------------------------- Austria

  /** Seven digits weighted 1, 2, 1, ...; `10 - (total + 4) % 10` with 10 read as 0. */
  function AtCheckDigit(d: string): (r: int)
    requires |d| == 7
    ensures 0 <= r <= 9
  {
    var t := 10 - (FoldSum(d, Alternating(7, false)) + 4) % 10;
    if t == 10 then 0 else t
  }

  /** `/^ATU\d{8}$/i`. */
  predicate AtValid(s: string) { HasPrefixCI(s, "AT") && AtBody(s[2..]) }

  predicate AtBody(b: string)
  {
    |b| == 9 && UpperAscii(b[0]) == 'U' && AllDigits(b[1..]) && AtCheckDigit(b[1..8]) == Digit(b[8])
  }

  method CheckAt(s: string) returns (ok: bool)
    ensures ok == AtValid(s)
  {
    if !(HasPrefixCI(s, "AT") && |s| == 11 && UpperAscii(s[2]) == 'U' && AllDigits(s[3..])) {
      if |s| == 11 {
        assert s[2..][1..] == s[3..];
      }
      return false;
    }
    var v := s[3..];
    assert s[2..][1..8] == v[..7] && s[2..][8] == v[7];
    var total := FoldTotal(v[..7], Alternating(7, false));
    total := 10 - (total + 4) % 10;
    if total == 10 {
      total := 0;
    }
    ok := total == Digit(v[7]);
  }

  /** For every seven-digit stem exactly one final digit is accepted. */
  lemma AtCompletion(stem: string, c: char)
    requires |stem| == 7 && AllDigits(stem)
    ensures AtValid("ATU" + stem + [c]) <==> c == DigitChar(AtCheckDigit(stem))
  {
    var b := "U" + stem + [c];
    assert ("ATU" + stem + [c])[2..] == b;
    assert b[1..] == stem + [c] && b[1..8] == stem && b[8] == c;
    Completion("AT", stem, c);
    DigitCharIff(c, AtCheckDigit(stem));
  }

  // ------------------------------------------------------------------ Italy

  /** The office code (digits 8 to 10) is in 1..201, or is 888 or 999. */
  predicate ItOfficeAccepted(office: int)
  {
    !((office == 0 || office > 201) && office != 999 && office != 888)
  }

  /** Ten digits weighted 1, 2, 1, ...; `10 - total % 10`, values above 9 read as 0. */
  function ItCheckDigit(d: string): (r: int)
    requires |d| == 10
    ensures 0 <= r <= 9
  {
    var t := 10 - FoldSum(d, Alternating(10, false)) % 10;
    if t > 9 then 0 else t
  }

  /** `/^IT\d{11}$/i`, a non-zero seven-digit number, an accepted office code and the check digit. */
  predicate ItValid(s: string) { HasPrefixCI(s, "IT") && ItBody(s[2..]) }

  predicate ItBody(b: string)
  {
    |b| == 11 && AllDigits(b) && Value(b[..7]) != 0 && ItOfficeAccepted(Value(b[7..10]))
    && ItCheckDigit(b[..10]) == Digit(b[10])
  }

  method CheckIt(s: string) returns (ok: bool)
    ensures ok == ItValid(s)
  {
    if !(HasPrefixCI(s, "IT") && |s| == 13 && AllDigits(s[2..])) {
      return false;
    }
    var total := 0;
    var v := s[2..];
    if Value(v[..7]) == 0 {
      return false;
    }
    var lastDigits := Value(v[7..10]);
    if (lastDigits == 0 || lastDigits > 201) && lastDigits != 999 && lastDigits != 888 {
      return false;
    }
    total := FoldTotal(v[..10], Alternating(10, false));
    total := 10 - total % 10;
    if total > 9 {
      total := 0;
    }
    ok := total == Value(v[10..]);
    assert v[10..] == [] + [v[10]];
    ValuePushDigit([], v[10]);
  }

  /** For every stem with a non-zero number and an accepted office code exactly one final digit is accepted. */
  lemma ItCompletion(stem: string, c: char)
    requires |stem| == 10 && AllDigits(stem) && Value(stem[..7]) != 0 && ItOfficeAccepted(Value(stem[7..]))
    ensures ItValid("IT" + stem + [c]) <==> c == DigitChar(ItCheckDigit(stem))
  {
    Completion("IT", stem, c);
    var b := stem + [c];
    assert b[..7] == stem[..7] && b[7..10] == stem[7..];
    DigitCharIff(c, ItCheckDigit(stem));
  }
}
