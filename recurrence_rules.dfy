/**
 * Germany, Croatia and Serbia: the MOD 11,10 recurrence of ISO/IEC 7064
 * (`checkDeVatNumber`, `checkHrVatNumber`, `checkRsVatNumber`).
 */
module RecurrenceRules {
  import opened Text
  import opened Checksums

  // ---------------------------------------------------------------- Germany

  /** `11 - product`, with 10 read as 0. */
  function DeCheckDigit(d: string): (r: int)
    requires |d| == 8
    ensures 0 <= r <= 9
  {
    var product := Iso7064Product(d);
    if 11 - product == 10 then 0 else 11 - product
  }

  /** `/^DE[1-9]\d{8}$/i`. */
  predicate DeValid(s: string) { HasPrefixCI(s, "DE") && DeBody(s[2..]) }

  predicate DeBody(b: string)
  {
    |b| == 9 && AllDigits(b) && b[0] != '0' && DeCheckDigit(b[..8]) == Digit(b[8])
  }

  method CheckDe(s: string) returns (ok: bool)
    ensures ok == DeValid(s)
  {
    if !(HasPrefixCI(s, "DE") && |s| == 11 && AllDigits(s[2..]) && s[2] != '0') {
      return false;
    }
    var v := s[2..];
    var product := Iso7064Loop(v[..8]);
    var checkDigit: int;
    if 11 - product == 10 {
      checkDigit := 0;
    } else {
      checkDigit := 11 - product;
    }
    ok := checkDigit == Digit(v[8]);
  }

  /** For every eight-digit stem starting 1-9 exactly one final digit is accepted. */
  lemma DeCompletion(stem: string, c: char)
    requires |stem| == 8 && AllDigits(stem) && stem[0] != '0'
    ensures DeValid("DE" + stem + [c]) <==> c == DigitChar(DeCheckDigit(stem))
  {
    Completion("DE", stem, c);
    DigitCharIff(c, DeCheckDigit(stem));
  }

  // ---------------------------------------------------------------- Croatia

  /** `/^HR\d{11}$/i` and `(product + last digit) % 10 == 1` after ten digits. */
  predicate HrValid(s: string) { HasPrefixCI(s, "HR") && HrBody(s[2..]) }

  predicate HrBody(b: string)
  {
    |b| == 11 && AllDigits(b) && (Iso7064Product(b[..10]) + Digit(b[10])) % 10 == 1
  }

  method CheckHr(s: string) returns (ok: bool)
    ensures ok == HrValid(s)
  {
    if !(HasPrefixCI(s, "HR") && |s| == 13 && AllDigits(s[2..])) {
      return false;
    }
    var v := s[2..];
    var product := Iso7064Loop(v[..10]);
    ok := (product + Digit(v[10])) % 10 == 1;
  }

  /** Since the product is in 1..10, exactly one final digit, `(11 - product) % 10`, is accepted. */
  lemma HrCompletion(stem: string, c: char)
    requires |stem| == 10 && AllDigits(stem)
    ensures HrValid("HR" + stem + [c]) <==> c == DigitChar((11 - Iso7064Product(stem)) % 10)
  {
    Completion("HR", stem, c);
    var p := Iso7064Product(stem);
    assert 1 <= p <= 10;
    if IsDigit(c) {
      Iso7064Completion(p, Digit(c));
    }
    DigitCharIff(c, (11 - p) % 10);
  }

  // ----------------------------------------------------------------- Serbia

  /** `/^RS\d{9}$/i` and `(product + last digit) % 10 == 1` after eight digits. */
  predicate RsValid(s: string) { HasPrefixCI(s, "RS") && RsBody(s[2..]) }

  predicate RsBody(b: string)
  {
    |b| == 9 && AllDigits(b) && (Iso7064Product(b[..8]) + Digit(b[8])) % 10 == 1
  }

  method CheckRs(s: string) returns (ok: bool)
    ensures ok == RsValid(s)
  {
    if !(HasPrefixCI(s, "RS") && |s| == 11 && AllDigits(s[2..])) {
      return false;
    }
    var v := s[2..];
    var product := Iso7064Loop(v[..8]);
    ok := (product + Digit(v[8])) % 10 == 1;
  }

  lemma RsCompletion(stem: string, c: char)
    requires |stem| == 8 && AllDigits(stem)
    ensures RsValid("RS" + stem + [c]) <==> c == DigitChar((11 - Iso7064Product(stem)) % 10)
  {
    Completion("RS", stem, c);
    var p := Iso7064Product(stem);
    assert 1 <= p <= 10;
    if IsDigit(c) {
      Iso7064Completion(p, Digit(c));
    }
    DigitCharIff(c, (11 - p) % 10);
  }
}
