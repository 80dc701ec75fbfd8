# VAT number validator, modelled in Dafny

This project models `validateVatNumber` from `src/vat-number-validator.ts`, together with every per-country `checkXxVatNumber` predicate it dispatches to.

The dispatcher works in four steps:
- It removes the separators ` .,_-`.
- It upper-cases the first two characters to get a country code.
- It passes the separator-free string, not re-cased, to that country's rule.
- It accepts `EU` followed by nine digits on the format alone, and rejects every other code.

Each country rule checks a format guard (a regular expression in the source, a hand-written character predicate here) and then runs a short checksum over the digits.

The model has the same shape for every country:
- a predicate `XxValid(s)` says what the rule accepts. It is built from the prefix test and a body predicate on `s[2..]`.
- Where the source computes with loops, a method `CheckXx` follows the source's statements. Its postcondition is `ok == XxValid(s)`.
- The loops update their accumulators like the source does. They are proved against recursive specification functions in `Checksums`: `WeightedSum`, `FoldSum` and `Iso7064Product`.
- Completion lemmas state exactly which final characters complete a given stem. These give each rule its independent characterisation: usually exactly one check digit, and otherwise precisely which ones.

`parseInt` is modelled as the value of the longest leading run of decimal digits, or `None` when there is none. Any comparison with `None` is false, as any comparison with `NaN` is in the source.

## Modules

| file | module | contents |
|---|---|---|
| wrappers.dfy | `Wrappers` | `Option` |
| text.dfy | `Text` | digits, decimal value, `parseInt`, `substring`, ASCII case, separator removal |
| checksums.dfy | `Checksums` | weighted sums, digit-folding sums, the MOD 11,10 recurrence, and their loops |
| weighted_rules.dfy | `WeightedRules` | BE, CH, DK, EE, EL, FI, HU, LU, MT, NO, PL, PT, RO, SE, SI, SK, RU |
| fold_rules.dfy | `FoldRules` | AT, IT |
| recurrence_rules.dfy | `RecurrenceRules` | DE, HR, RS |
| letter_rules.dfy | `LetterRules` | CY, IE |
| variant_rules.dfy | `VariantRules` | BG, CZ, LT, LV, FR, ES |
| gb_rule.dfy | `GbRule` | GB |
| nl_rule.dfy | `NlRule` | NL, both forms |
| dispatcher.dfy | `Dispatcher` | `validateVatNumber` |

## Model

| member | source | states |
|---|---|---|
| Text.StripSeparators | src/vat-number-validator.ts:1091 | Removing separators leaves a string with none of ` .,_-` in it, and it never makes the string longer. `StripSingle` and `StripAppend` state that everything else is kept, in order. |
| Text.StripAppend | src/vat-number-validator.ts:1091 | Separator removal acts on each part of a concatenation independently. |
| Text.StripSingle | src/vat-number-validator.ts:1091 | A single character is removed iff it is one of ` .,_-`, and kept otherwise. With `StripAppend`, this fixes the result for every string: the input's other characters, in their order. |
| Text.UpperString | src/vat-number-validator.ts:756 | `toUpperCase` keeps the length and upper-cases each character on its own. |
| Text.Substring | src/vat-number-validator.ts:1093 | `substring` within bounds is the slice, and never longer than the requested range. |
| Text.LeadingDigits | src/vat-number-validator.ts:641-645 | The length of the leading digit run: all characters before it are digits, and the one after it is not. |
| Text.ParseInt | src/vat-number-validator.ts:641-645 | `parseInt(x, 10)` is `NaN` iff `x` does not start with a digit. On a digit string it is the string's value, and it is never negative. |
| Text.ParseIntStopsAtNonDigit | src/vat-number-validator.ts:641-645 | `parseInt` of digits followed by a non-digit reads the digits alone. |
| Checksums.WeightedTotal | src/vat-number-validator.ts:312-317 | The loop `total += digit * multipliers[i]` computes the weighted sum of the digits. The other weighted loops use the same method. |
| Checksums.WeightedSumNonNegative | src/vat-number-validator.ts:868-872 | A weighted sum of digits with non-negative weights is non-negative. This is what makes the GB reduction loop start from a total of 0 or more. |
| Checksums.FoldTotal | src/vat-number-validator.ts:8-17 | The doubling loop that adds `1 + temp % 10` for a product above 9 computes the digit-folding sum. |
| Checksums.Fold | src/vat-number-validator.ts:12-16 | A folded product of a digit and a weight of 1 or 2 lies in 0..9. It keeps the product's residue mod 9. |
| Checksums.Iso7064Step | src/vat-number-validator.ts:266-270 | One step of the MOD 11,10 recurrence always leaves `product` in 1..10. |
| Checksums.Iso7064Loop | src/vat-number-validator.ts:263-271 | The recurrence loop computes `Iso7064Product` of the digits, and `product` ends in 1..10. |
| Checksums.Iso7064Completion | src/vat-number-validator.ts:302 | For a product in 1..10, exactly one digit makes `(product + digit) % 10 == 1`, namely `(11 - product) % 10`. |
| FoldRules.CheckAt | src/vat-number-validator.ts:1-26 | Accepts exactly what `AtValid` accepts: `ATU` and eight digits, any case, with the folded check digit. |
| FoldRules.AtCheckDigit | src/vat-number-validator.ts:19-23 | The Austrian check digit is in 0..9. |
| FoldRules.AtCompletion | src/vat-number-validator.ts:1-26 | For every seven digits, exactly one eighth digit is accepted, namely the folded check digit. |
| WeightedRules.BeCheckCharacterisation | src/vat-number-validator.ts:35-37 | A ten-digit Belgian number is accepted iff its check `c` satisfies 1 ≤ c ≤ 97 and (first eight digits + c) is divisible by 97. |
| WeightedRules.Mod97Complement | src/vat-number-validator.ts:37 | `97 - n % 97 == c` holds iff c is in 1..97 and n + c ≡ 0 mod 97. |
| VariantRules.CheckBg | src/vat-number-validator.ts:40-131 | Accepts exactly what `BgValid` accepts. This covers the nine-digit rule with its fallback weights, and the ten-digit physical-person, legal and foreign rules in the source's order. |
| VariantRules.BgNineCheckDigit | src/vat-number-validator.ts:49-73 | The nine-digit check digit, including the weights 3..10 fallback, is in 0..9. |
| VariantRules.BgPhysicalCheckDigit | src/vat-number-validator.ts:80-91 | The physical-person check digit is in 0..9. |
| VariantRules.BgLegalCheckDigit | src/vat-number-validator.ts:99-109 | The legal-entity check digit, the weighted sum mod 10, is in 0..9. |
| VariantRules.BgForeignCheckDigit | src/vat-number-validator.ts:113-128 | The foreigner check is in 0..10, where 10 means reject. |
| VariantRules.BgNineCompletion | src/vat-number-validator.ts:48-74 | For every eight digits, exactly one ninth digit is accepted. |
| VariantRules.BgTenCompletion | src/vat-number-validator.ts:76-130 | The legal-entity digit always completes a nine-digit stem. The accepted tenth digits are exactly the legal digit, the foreigner digit unless it is 10, and the physical-person digit when the stem has the birth-date shape. |
| WeightedRules.CheckCh | src/vat-number-validator.ts:133-155 | Accepts exactly what `ChValid` accepts: `CHE`, nine digits and an optional `MWST`/`TVA`/`IVA`, with the mod-11 check. |
| WeightedRules.ChCheckDigit | src/vat-number-validator.ts:148 | The Swiss check value is in 0..10, where 10 means reject. |
| WeightedRules.ChCompletion | src/vat-number-validator.ts:141-154 | A ninth digit is accepted iff the check value is not 10 and the digit equals it. |
| LetterRules.CyTotal | src/vat-number-validator.ts:168-187 | The loop with its `switch` on even positions computes `CySum`. |
| LetterRules.CheckCy | src/vat-number-validator.ts:157-191 | Accepts exactly what `CyValid` accepts. The prefix is case-sensitive and trailing characters are allowed. Bodies starting `12` are rejected, and the check letter is compared case-sensitively. |
| LetterRules.CyCheckLetter | src/vat-number-validator.ts:189-190 | The Cypriot check letter is an upper-case letter. |
| LetterRules.CyRejectsTwelve | src/vat-number-validator.ts:164-166 | A body starting with `12` is rejected. |
| LetterRules.CyCompletion | src/vat-number-validator.ts:157-191 | For a stem not starting `12`, exactly one ninth character is accepted, whatever follows it. |
| VariantRules.CheckCz | src/vat-number-validator.ts:193-254 | Accepts exactly what `CzValid` accepts: the legal-entity, birth-date, special (`6…`) and ten-digit branches, tried in the source's order. |
| VariantRules.CzLegalCheckDigit | src/vat-number-validator.ts:205-217 | The legal-entity check digit is in 0..9, with 10 read as 0 and 11 as 1. |
| VariantRules.CeilDiv | src/vat-number-validator.ts:233 | `Math.ceil(total / 11)` is the least q with 11 * q ≥ total. |
| VariantRules.CzPointer | src/vat-number-validator.ts:229-236 | `pointer` equals 11 - total % 11 and lies in 1..11, so `lookup[pointer - 1]` is always in bounds. |
| VariantRules.CzSpecialCheckDigit | src/vat-number-validator.ts:238-240 | The special-case check digit is in 0..9. |
| VariantRules.CzLegalCompletion | src/vat-number-validator.ts:202-219 | For every seven digits, exactly one eighth digit is accepted. |
| VariantRules.CzNineCompletion | src/vat-number-validator.ts:220-240 | A nine-digit body is accepted iff it has the birth-date shape, or it starts with 6 and ends in the lookup digit. |
| VariantRules.CzBirthDateAnyLastDigit | src/vat-number-validator.ts:220-222 | A nine-digit body of the birth-date shape is accepted with any last digit; there is no checksum. |
| VariantRules.CzGroupResidue | src/vat-number-validator.ts:241-250 | The sum of the five two-digit groups of a ten-digit number is congruent to the number mod 11. |
| VariantRules.CzTenDigitRule | src/vat-number-validator.ts:241-250 | For ten-digit individuals, the sum of the five two-digit groups is congruent to the whole number mod 11. The body is therefore accepted iff the number is a multiple of 11. |
| RecurrenceRules.CheckDe | src/vat-number-validator.ts:256-281 | Accepts exactly what `DeValid` accepts. |
| RecurrenceRules.DeCheckDigit | src/vat-number-validator.ts:273-278 | The German check digit is in 0..9. |
| RecurrenceRules.DeCompletion | src/vat-number-validator.ts:256-281 | For every eight digits starting 1..9, exactly one ninth digit is accepted. |
| WeightedRules.CheckDk | src/vat-number-validator.ts:896-913 | Accepts exactly what `DkValid` accepts. |
| WeightedRules.DkCompletion | src/vat-number-validator.ts:903-912 | At most one eighth digit makes the weighted sum a multiple of 11, and none when the needed remainder is 10. |
| WeightedRules.CheckEe | src/vat-number-validator.ts:492-513 | Accepts exactly what `EeValid` accepts. |
| WeightedRules.EeCheckDigit | src/vat-number-validator.ts:499-510 | The Estonian check digit is in 0..9. |
| WeightedRules.EeCompletion | src/vat-number-validator.ts:492-513 | For every `10` and six digits, exactly one ninth digit is accepted. |
| WeightedRules.ElWeightsAreShifts | src/vat-number-validator.ts:529 | The Greek weights are `1 << (8 - i)`, that is 2^(8-i). |
| WeightedRules.ElPadded | src/vat-number-validator.ts:522-524 | An eight-digit body gets a leading `0`; others are unchanged. |
| WeightedRules.CheckEl | src/vat-number-validator.ts:515-539 | Accepts exactly what `ElValid` accepts. |
| WeightedRules.ElCheckDigit | src/vat-number-validator.ts:532-536 | The Greek check digit is in 0..9. |
| WeightedRules.ElPadding | src/vat-number-validator.ts:522-524 | An eight-digit body is accepted iff the same body with a leading zero is. |
| WeightedRules.ElCompletion | src/vat-number-validator.ts:515-539 | For every eight digits, exactly one ninth digit is accepted. |
| VariantRules.CheckEs | src/vat-number-validator.ts:541-605 | Accepts exactly what `EsValid` accepts. The `ES` prefix is case-sensitive. The juridical, national, NIF (`0-9YZ`) and NIF (`KLMX`) forms are tried in the source's order. |
| VariantRules.EsJuridicalLetter | src/vat-number-validator.ts:562-563 | The juridical check letter is in `A`..`J`. |
| VariantRules.EsNationalCheckDigit | src/vat-number-validator.ts:581-585 | The national check digit is in 0..9. |
| VariantRules.EsNifDigits | src/vat-number-validator.ts:590-595 | Replacing a leading `Y`/`Z` by `1`/`2` changes only the first character. |
| VariantRules.EsJuridicalCompletion | src/vat-number-validator.ts:548-587 | After an initial of `[A-HN-SW]` and seven digits, exactly the juridical letter or the national digit is accepted, and the digit is the letter's position mod 10. |
| VariantRules.EsNifCompletion | src/vat-number-validator.ts:588-597 | Eight digits are completed by exactly the letter of `TRWAGMYFPDXBNJZSQVHLCKE` at their value mod 23. |
| VariantRules.EsNifLetterPrefix | src/vat-number-validator.ts:590-595 | A leading `Y` or `Z`, in either case, is judged as the digit `1` or `2`. |
| WeightedRules.CheckFi | src/vat-number-validator.ts:607-629 | Accepts exactly what `FiValid` accepts. |
| WeightedRules.FiCheckDigit | src/vat-number-validator.ts:622-626 | The Finnish check digit is in 0..9. |
| WeightedRules.FiCompletion | src/vat-number-validator.ts:607-629 | For every seven digits, exactly one eighth digit is accepted. |
| VariantRules.FrNumericKey | src/vat-number-validator.ts:641-645 | With a two-digit key, the number is accepted iff key - 3 * siren - 12 is a multiple of 97. |
| VariantRules.Mod97Congruent | src/vat-number-validator.ts:645 | Two numbers agree mod 97 iff their difference is a multiple of 97. |
| VariantRules.FrLowerCaseKey | src/vat-number-validator.ts:636-645 | A digit followed by a lower-case letter passes the case-sensitive letter test. `parseInt` then reads only the digit, which is compared with the expected key. |
| VariantRules.FrLowerCaseLead | src/vat-number-validator.ts:636-645 | A lower-case first key character with no upper-case letter beside it gives `NaN`, and the number is rejected. |
| GbRule.ReduceTotal | src/vat-number-validator.ts:874-878 | The subtract-97 loop followed by negation leaves `(97 - t % 97) % 97`, which is in 0..96. |
| GbRule.GbCheckTotal | src/vat-number-validator.ts:868-878 | The GB check total is in 0..96. |
| GbRule.CheckGb | src/vat-number-validator.ts:842-893 | Accepts exactly what `GbValid` accepts. The guard is anchored (see Findings). |
| GbRule.GbCheckSchemes | src/vat-number-validator.ts:874-892 | The first scheme makes the weighted sum plus the check a multiple of 97. The second makes the weighted sum plus the check plus 55 one. |
| GbRule.GbGovernmentDepartment | src/vat-number-validator.ts:851-854 | `GBGD` and three digits is accepted iff the number is below 500. |
| GbRule.GbHealthAuthority | src/vat-number-validator.ts:856-859 | `GBHA` and three digits is accepted iff the number is above 499. |
| GbRule.GbCodeBody | src/vat-number-validator.ts:849-859 | The upper-case codes `GD` and `HA` with three digits pass the guard and are decided by the three-digit range alone. |
| GbRule.GbLowerCaseCodeRejected | src/vat-number-validator.ts:849-866 | `gd`, `Ha` and the other non-upper-case spellings pass the guard, but fail the case-sensitive comparison and end in a `NaN` total. |
| GbRule.GbNineDigitRule | src/vat-number-validator.ts:862-892 | A nine-digit body is accepted iff it is not zero and its last two digits are the check of one of the two schemes within their number ranges. |
| GbRule.GbAllZeroRejected | src/vat-number-validator.ts:862-864 | An all-zero body of nine or twelve digits is rejected. |
| GbRule.GbSampleValid | src/vat-number-validator.ts:842-893 | `GB123456782` is accepted. |
| GbRule.GbAnchored | src/vat-number-validator.ts:843 | An accepted GB number has 7, 11 or 14 characters. |
| GbRule.GbTrailingCharacter | src/vat-number-validator.ts:843 | A valid nine-digit number followed by any non-digit passes the guard as written, and the anchored guard rejects it. |
| RecurrenceRules.CheckHr | src/vat-number-validator.ts:283-303 | Accepts exactly what `HrValid` accepts. |
| RecurrenceRules.HrCompletion | src/vat-number-validator.ts:290-302 | For every ten digits, exactly one eleventh digit is accepted: `(11 - product) % 10`. |
| WeightedRules.CheckHu | src/vat-number-validator.ts:305-326 | Accepts exactly what `HuValid` accepts. |
| WeightedRules.HuCheckDigit | src/vat-number-validator.ts:319-323 | The Hungarian check digit is in 0..9. |
| WeightedRules.HuCompletion | src/vat-number-validator.ts:305-326 | For every seven digits, exactly one eighth digit is accepted. |
| LetterRules.CheckIe | src/vat-number-validator.ts:649-684 | Accepts exactly what `IeValid` accepts. The current form matches in any case; the legacy form is case-sensitive and is reassembled before the check. |
| LetterRules.IeLegacyToStandard | src/vat-number-validator.ts:658-660 | A legacy body becomes seven digits followed by its check letter. |
| LetterRules.IeCheckLetter | src/vat-number-validator.ts:662-681 | The expected check character is `W` (remainder 0) or one of `A`..`V`, within the `[A-W]` the guard allows. |
| LetterRules.IeLegacyAsStandard | src/vat-number-validator.ts:652-660 | A legacy number is accepted iff its reassembled current-form number is. |
| LetterRules.IeCompletion | src/vat-number-validator.ts:649-684 | For every seven digits, exactly one eighth character is accepted. |
| FoldRules.CheckIt | src/vat-number-validator.ts:686-721 | Accepts exactly what `ItValid` accepts. This includes the zero-number and office-code range rejections. |
| FoldRules.ItCheckDigit | src/vat-number-validator.ts:714-718 | The Italian check digit is in 0..9. |
| FoldRules.ItCompletion | src/vat-number-validator.ts:686-721 | With a non-zero number and an accepted office code, exactly one eleventh digit is accepted. |
| VariantRules.CheckLt | src/vat-number-validator.ts:328-390 | Accepts exactly what `LtValid` accepts, for both the nine- and twelve-digit forms. |
| VariantRules.LtWeightsFormula | src/vat-number-validator.ts:344-378 | The literal weights equal the source's formulas `i + 1`, `i + 3` and their mod-10 variants. |
| VariantRules.LtNineCheckDigit | src/vat-number-validator.ts:341-359 | The legal-person check digit, with its fallback, is in 0..9. |
| VariantRules.LtTwelveCheckDigit | src/vat-number-validator.ts:368-386 | The temporary-taxpayer check digit, with its fallback, is in 0..9. |
| VariantRules.LtNineCompletion | src/vat-number-validator.ts:335-361 | A nine-digit number is accepted iff its eighth digit is `1` and its ninth is the check digit. |
| VariantRules.LtTwelveCompletion | src/vat-number-validator.ts:362-388 | A twelve-digit number is accepted iff its eleventh digit is `1` and its twelfth is the check digit. |
| WeightedRules.LuCompletion | src/vat-number-validator.ts:392-401 | A two-digit check is accepted iff it is the six-digit number mod 89, or that plus 89. |
| VariantRules.CheckLv | src/vat-number-validator.ts:403-490 | Accepts exactly what `LvValid` accepts. The `break`s of the date test fall through to the legal-entity checksum. |
| VariantRules.LvYearResidue | src/vat-number-validator.ts:443-446 | The value built from raw character codes, `10 * code5 + code6`, has the same residue mod 4 as the two-digit year, because 528 ≡ 0 mod 4. |
| VariantRules.LvCorrectionHarmless | src/vat-number-validator.ts:475-487 | The -45 correction never makes the total negative. It never changes the expected digit either. |
| VariantRules.LvCheckDigit | src/vat-number-validator.ts:479-487 | The remapped expected digit is in 0..9. |
| VariantRules.LvCompletion | src/vat-number-validator.ts:403-490 | A ten-digit stem passing the date test takes any last digit; otherwise exactly the legal-entity digit is accepted. |
| WeightedRules.MtWeightsFormula | src/vat-number-validator.ts:732 | The literal weights are `i + (i > 1 ? 4 : 3)`. |
| WeightedRules.CheckMt | src/vat-number-validator.ts:723-738 | Accepts exactly what `MtValid` accepts. |
| WeightedRules.MtCheckValue | src/vat-number-validator.ts:735 | The Maltese check value is in 1..37. |
| WeightedRules.MtCompletion | src/vat-number-validator.ts:723-738 | A two-digit check is accepted iff it equals the check value. |
| NlRule.IsStandardNlVatNumber | src/vat-number-validator.ts:741-753 | The standard check: the weighted sum of eight digits, mod 11, equals the ninth digit. |
| NlRule.MapChar | src/vat-number-validator.ts:760-768 | `*` maps to 36 and `+` to 37; digits map to their value and upper-case letters to 10..35. |
| NlRule.Numeric | src/vat-number-validator.ts:759-771 | The concatenated decimal renderings are all digits. |
| NlRule.IsSoleProprietorNumber | src/vat-number-validator.ts:755-781 | The build loop and the reduction loop accept iff the whole upper-cased, character-mapped number is 1 mod 97. |
| NlRule.ReductionStep | src/vat-number-validator.ts:773-776 | Each reduction step keeps a digit string, keeps its value mod 97, and makes it strictly shorter. |
| NlRule.CheckNl | src/vat-number-validator.ts:783-791 | Accepts exactly what `NlValid` accepts: the standard form with its check, or else the sole-proprietor form with its check. |
| NlRule.NlStandardFallsBackToSole | src/vat-number-validator.ts:783-788 | A standard-form number that fails its check is still judged as a sole-proprietor number. |
| NlRule.NlStandardCompletion | src/vat-number-validator.ts:741-753 | At most one ninth digit completes a standard stem, and none when the remainder is 10. |
| NlRule.NumericAppend | src/vat-number-validator.ts:759-771 | Character mapping distributes over concatenation. |
| NlRule.NlSoleCompletion | src/vat-number-validator.ts:755-781 | Two trailing check digits are accepted iff the mapped stem times 100 plus them is 1 mod 97. |
| WeightedRules.CheckNo | src/vat-number-validator.ts:794-818 | Accepts exactly what `NoValid` accepts. |
| WeightedRules.NoCheckDigit | src/vat-number-validator.ts:808-811 | The Norwegian check value is in 0..10, where 10 means reject. |
| WeightedRules.NoCompletion | src/vat-number-validator.ts:794-818 | A ninth digit is accepted iff the check value is not 10 and the digit equals it. |
| WeightedRules.CheckPl | src/vat-number-validator.ts:820-840 | Accepts exactly what `PlValid` accepts. |
| WeightedRules.PlCheckDigit | src/vat-number-validator.ts:834-837 | The Polish check digit is in 0..9. |
| WeightedRules.PlCompletion | src/vat-number-validator.ts:820-840 | For every nine digits, exactly one tenth digit is accepted. |
| WeightedRules.CheckPt | src/vat-number-validator.ts:967-986 | Accepts exactly what `PtValid` accepts, including the allowed leading pairs. |
| WeightedRules.PtCheckDigit | src/vat-number-validator.ts:979-983 | The Portuguese check digit is in 0..9. |
| WeightedRules.PtCompletion | src/vat-number-validator.ts:967-986 | For eight digits with an allowed leading pair, exactly one ninth digit is accepted. |
| WeightedRules.CheckRo | src/vat-number-validator.ts:988-1013 | Accepts exactly what `RoValid` accepts. The weights are right-aligned to the number's length. |
| WeightedRules.RoCheckDigit | src/vat-number-validator.ts:1007-1010 | The Romanian check digit is in 0..9. |
| WeightedRules.RoCompletion | src/vat-number-validator.ts:988-1013 | For every one to nine digits not starting with 0, exactly one further digit is accepted. |
| RecurrenceRules.CheckRs | src/vat-number-validator.ts:1015-1034 | Accepts exactly what `RsValid` accepts. |
| RecurrenceRules.RsCompletion | src/vat-number-validator.ts:1022-1033 | For every eight digits, exactly one ninth digit is accepted: `(11 - product) % 10`. |
| WeightedRules.CheckRu | src/vat-number-validator.ts:1036-1058 | Accepts exactly what `RuValid` accepts: the ten-digit rule. Every other shape the guard lets through is rejected. |
| WeightedRules.RuCheckDigit | src/vat-number-validator.ts:1051-1055 | The Russian check digit is in 0..9. |
| WeightedRules.RuRejectsTwelveDigits | src/vat-number-validator.ts:1037 | No twelve-digit number is accepted, because the guard's second branch reads `\d{12` as a digit followed by the text `{12`. |
| WeightedRules.RuCompletion | src/vat-number-validator.ts:1043-1058 | For every nine digits, exactly one tenth digit is accepted. |
| WeightedRules.CheckSe | src/vat-number-validator.ts:915-935 | Accepts exactly what `SeValid` accepts. |
| WeightedRules.SeCheckDigit | src/vat-number-validator.ts:933 | The Swedish check digit is in 0..9. |
| WeightedRules.SeSumIsFoldSum | src/vat-number-validator.ts:922-931 | The two stepped loops together compute the digit-folding sum with weights 2, 1, 2, … over the first nine digits. |
| WeightedRules.SeCompletion | src/vat-number-validator.ts:915-935 | For every nine digits, exactly one tenth digit is accepted before the `01` suffix. |
| WeightedRules.CheckSi | src/vat-number-validator.ts:937-956 | Accepts exactly what `SiValid` accepts. |
| WeightedRules.SiCheckDigit | src/vat-number-validator.ts:950-953 | The Slovenian check value is in 0..11 and is never 10. |
| WeightedRules.SiCompletion | src/vat-number-validator.ts:937-956 | An eighth digit is accepted iff the check value is not 11 and the digit equals it. |
| WeightedRules.SkCompletion | src/vat-number-validator.ts:958-965 | At most one tenth digit makes the number a multiple of 11. |
| WeightedRules.Mod11Complement | src/vat-number-validator.ts:964 | The one summand in 0..10 that completes x to a multiple of 11 is `(11 - x % 11) % 11`. |
| Dispatcher.CountryCode | src/vat-number-validator.ts:1093 | The code is the first two characters (fewer for a shorter string), upper-cased. |
| Dispatcher.RuleOf | src/vat-number-validator.ts:1095-1166 | Exactly `CY`, `ES`, `IE` and `EU` select their branches. A code selects no country rule iff it is outside the switch and is not `EU`. |
| Dispatcher.ValidateVatNumber | src/vat-number-validator.ts:1086-1168 | Calls the selected country check, and accepts exactly what `IsValidVatNumber` accepts. |
| Dispatcher.SeparatorInsensitive | src/vat-number-validator.ts:1091 | Inserting any of ` .,_-` anywhere in the input never changes the result. |
| Dispatcher.UnknownCodeRejected | src/vat-number-validator.ts:1160-1165 | A code outside the switch, other than `EU`, is rejected. |
| Dispatcher.EuRule | src/vat-number-validator.ts:1160-1165 | With the code `EU`, exactly the eleven-character strings ending in nine digits are accepted. |
| Dispatcher.EuAccepted | src/vat-number-validator.ts:1160-1165 | `EU` in either case followed by nine digits is accepted. |
| Dispatcher.PrefixCaseInsensitive | src/vat-number-validator.ts:1093-1159 | Changing the case of the two code letters never changes the result, except for `CY`, `ES` and `IE`. |
| Dispatcher.ApplyCaseInsensitive | src/vat-number-validator.ts:1095-1165 | Every branch except `CY`, `ES` and `IE` reads its prefix without regard to case. |
| Dispatcher.NlCaseBlind | src/vat-number-validator.ts:783-788 | The Dutch rule's result does not depend on the case of its prefix. |
| Dispatcher.ExactPrefixCodes | src/vat-number-validator.ts:158 | A `CY` or `ES` code typed in anything but upper case is rejected. |

## Left out

- Non-string input (`typeof` test at the top of `validateVatNumber`) cannot be expressed with Dafny's types; the model takes a `string`.
- The regular-expression engine: each guard is a hand-written predicate over characters, matching the pattern as JavaScript reads it.
- Upper-casing is ASCII-only. Non-ASCII characters that JavaScript upper-cases to ASCII (such as dotless `ı`) select a branch whose case-insensitive, non-Unicode pattern still does not match them, so the result is `false` either way.
- `parseInt` is modelled on digit strings only: leading white space, signs and radix prefixes are not skipped, because every call site reaches it after a guard or on a fixed slice.
- GbRule.CheckGb: follows the anchored guard, so it rejects inputs the source's unanchored guard accepts, such as `GB123456782X`; the as-written behaviour is `GbValidAsWritten` (see Findings).
- JavaScript number semantics (`NaN`, floating point, `-0` from `0 * -1`) are not modelled: values are unbounded integers and a `NaN` comparison is false.
- The Russian twelve-digit arithmetic is not modelled. No twelve-digit number passes the guard, so those lines are unreachable for digit strings. The one other shape the guard admits, a digit followed by `{12`, reaches them and ends in a `NaN` comparison, which the model rejects directly.
- The Belgian, Luxembourg, Slovak and French rules have no loops, so they are predicates without a method; the dispatcher's `BE`, `FR`, `LU` and `SK` branches evaluate them directly.

## Findings

| source | as written | input that shows it | evidently intended | confidence | as-written member | corrected member |
|---|---|---|---|---|---|---|
| src/vat-number-validator.ts:843 | `/^GB\d{9}\|\d{12}\|(GD\|HA)\d{3}$/i` anchors only the first alternative at the start and only the last at the end. Any valid nine-digit number followed by more characters, any string holding twelve consecutive digits, and any string ending in `GD`/`HA` and three digits pass the guard. | `GB123456782X` (`GB123456782` is valid, then a trailing `X`) | `/^GB(\d{9}\|\d{12}\|(GD\|HA)\d{3})$/i`: the whole number is exactly one of the three shapes | not executed | GbRule.GbTrailingCharacter | GbRule.GbAnchored |
