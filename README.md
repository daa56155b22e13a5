# persogen MRZ encoder in Dafny

persogen generates sample German identity cards. Its core is an encoder for
the machine readable zone (MRZ) on the back of the card. That zone is the
three-line, 30-column TD1 layout of ICAO Doc 9303 Part 5.

This project models that encoder and proves properties of it:

- the character values and the weighted 7-3-1 modulo-10 check digit;
- the validators for the two parts of the card number, the authority id
  and the assigned number, and their generators;
- the document number, and the YYMM and YYMMDD date encoders;
- the `MachineReadableZone` constructor and its `toString`.

Modules, one per file:

- `Errors` (`errors.dfy`): the exceptions the source throws, as an `Error`
  datatype with three kinds: invalid character, invalid length and invalid
  first character. Also the `Result` and `Option` wrappers.
- `Checksum` (`checksum.dfy`): `Digit`, the stateful `Multiplier` as a
  class, and `checkDigit`. `checkDigit` is an imperative loop that is
  proved equal to a recursive specification, `CheckDigitOf`.
- `Strings` (`strings.dfy`): the JavaScript string operations the encoder
  uses, namely the decimal `toString`, `slice(-2)`, `padStart(2, '0')` and
  `repeat`.
- `Fields` (`fields.dfy`): `AuthorityID`, `AssignedNumber` and `DocumentID`.
- `Dates` (`dates.dfy`): `DateYYMM` and `DateYYMMDD`.
- `Mrz` (`mrz.dfy`): `MachineReadableZone`, and a reader-side view of the
  zone that splits the lines and recomputes the check digits at their
  fixed positions.

Two behaviours of the code are modelled as written, not as ICAO describes
them:

- `checkDigit` skips the filler `<` before it draws a weight. So a filler
  neither counts nor advances the 7-3-1 cycle.
  - ICAO Doc 9303 Part 3, section 4.9 instead gives the filler the value 0
    and still spends a weight on it.
  - `Checksum.IcaoWeightedSum` is the ICAO definition. The two agree on
    strings without fillers, and `"1<1"` shows where they differ.
  - An ICAO reader takes the composite over the upper line from column 6
    and the middle line's columns 1-7, 9-15 and 19-29, fillers included.
    Those fillers come as a run of 15 after the document number and a run
    of 7 at the end. The first run is a multiple of 3 long and the second
    is trailing, so neither changes ICAO's sum. The zone's four check
    digits therefore satisfy that reader too.
- The year part of a date is `getFullYear().toString().slice(-2)`. The
  model keeps this exactly:
  - years 0..9 give a single character. Each of the three dates in line 2
    (birth, expiry, issuing) with such a year makes the line one character
    shorter, so it has 27 to 29 characters;
  - years -9..-1 give a minus sign, so `checkDigit` throws and `toString`
    fails.

  The 30-column results are stated for years whose decimal form has at
  least two digits.

The restricted alphabet of the authority id and the assigned number is
`0123456789CFGHJKLMNPRTVWXYZ`, which is 27 symbols.

Lengths are JavaScript's `length`: UTF-16 code units (`Strings.Utf16Length`),
so a character outside the Basic Multilingual Plane counts twice.

## Model

| member | source | states |
|---|---|---|
| Checksum.NewDigit | assets/js/persogen.ts:6-11 | `Digit` accepts exactly the one-character strings whose character is in 0-9 or A-Z. Anything else (empty, longer, lower case, `<`) is an invalid-character error carrying the input. |
| Checksum.IsDigitCharInAlphabet | assets/js/persogen.ts:3-7 | The closed-form test used for `Digit` is exactly membership in the 36-character alphabet. |
| Checksum.DigitValue | assets/js/persogen.ts:17-19 | `Digit.valueOf` is a value 0..35. That it is the `indexOf` position is stated by `Checksum.DigitValueIsIndexOf`. |
| Checksum.DigitValueIsIndexOf | assets/js/persogen.ts:17-19 | The value of a digit character is its index in the alphabet (`indexOf`), and the alphabet holds that character at that index. |
| Checksum.DigitValueOfPosition | assets/js/persogen.js:12-16 | Every position 0..35 of the alphabet holds a valid digit whose value is that position. |
| Checksum.Multiplier.constructor | assets/js/persogen.ts:22-24 | A new multiplier starts at index 0 of the weights 7, 3, 1. |
| Checksum.Multiplier.ValueOf | assets/js/persogen.ts:26-30 | Returns the weight at the current index and advances the index by one modulo 3, keeping it in 0..2. |
| Checksum.CheckDigitOf | assets/js/persogen.ts:33-45 | The specification of `checkDigit`: sum of `(value * weight) % 10` over non-filler characters, weights cycling 7, 3, 1 over those characters only, result `sum % 10`, always in 0..9. |
| Checksum.CheckDigit | assets/js/persogen.ts:33-45 | The loop with a `Multiplier` object and a running sum returns exactly `CheckDigitOf`, including the error for the first invalid non-filler character. |
| Checksum.CheckDigitFails | assets/js/persogen.ts:38-41 | `checkDigit` succeeds iff every non-filler character is a valid digit. When it fails, the error names a non-filler character that is not a digit. |
| Checksum.CheckDigitStopsAt | assets/js/persogen.js:31-35 | The first invalid non-filler character, scanning left to right, is the one reported. |
| Checksum.CheckablePrefix | assets/js/persogen.ts:37-42 | After a prefix of valid digits, the check digit fails exactly when it fails on the rest, with the same error. |
| Checksum.SignificantMembers | assets/js/persogen.ts:38-40 | The characters that count are exactly the non-filler characters of the input, and none of them is a filler. |
| Checksum.FillerInsensitive | assets/js/persogen.ts:38-40 | Inserting (or removing) a `<` anywhere leaves the result, or the error, unchanged. |
| Checksum.CheckDigitOfSignificant | assets/js/persogen.ts:38-40 | The result only depends on the non-filler characters. |
| Checksum.AllFillerCheckDigit | assets/js/persogen.ts:34-44 | An empty or all-`<` string has check digit 0. |
| Checksum.CheckDigitExample | assets/js/persogen.ts:33-45 | `"520"` has check digit 1 (35 + 6 + 0 = 41) and `"<<<<"` has 0. |
| Checksum.IcaoAgreesWithoutFiller | assets/js/persogen.ts:33-45 | On strings without fillers, the check digit equals the one of ICAO Doc 9303 Part 3, section 4.9. |
| Checksum.IcaoDiffersWithFiller | assets/js/persogen.ts:38-41 | With a filler they differ: `"1<1"` gives 0 here and 8 under ICAO. |
| Checksum.IcaoTrailingFillers | assets/js/persogen.ts:205-212 | In ICAO's sum, fillers at the end of what is summed add nothing (the seven fillers before line 2's composite digit). |
| Checksum.IcaoSkipsFillers | assets/js/persogen.ts:197-202 | In ICAO's sum, a run of fillers whose length is a multiple of 3 (line 1's fifteen) leaves every later character on its weight, so the sum is that of the string without the run. |
| Strings.DecimalValueOfNatToString | assets/js/persogen.ts:134-135 | The decimal `toString` of a natural number reads back as that number. |
| Strings.PadTwoDigits | assets/js/persogen.ts:135 | `n.toString().padStart(2, '0')` for n < 100 is the two decimal digits of n. |
| Strings.Utf16Length | assets/js/persogen.ts:53 | JavaScript's `length` counts UTF-16 code units: at least one and at most two per character. |
| Strings.Utf16LengthOfBmp | assets/js/persogen.ts:89 | `length` equals the number of characters exactly when every character is in the Basic Multilingual Plane. |
| Strings.LastTwoDigits | assets/js/persogen.ts:134 | `slice(-2)` of the decimal form of a number of at least two digits is the two digits of that number modulo 100. |
| Fields.NewAuthorityId | assets/js/persogen.ts:52-61 | Accepted iff length 4 (in UTF-16 code units), first character in `LMNPRTVWXY` and every character in the 27-symbol alphabet. Each error is reported exactly when its check is the first to fail, in the order length, first character, alphabet. |
| Fields.AuthorityIdStartingWithZ | assets/js/persogen.ts:53-56 | `Z` is allowed in an authority id, but every id of length 4 starting with `Z` gets the first-character error. |
| Fields.AllowedLength | assets/js/persogen.ts:53-58 | A string that passes the alphabet test has as many UTF-16 code units as characters, so an accepted id has 4 characters and an accepted assigned number 5. |
| Fields.LengthCountsCodeUnits | assets/js/persogen.ts:52-58 | `"L0😀"` has length 4 and fails the alphabet test; `"😀01X"` and `"1234😀"` fail the length test. |
| Fields.NewAssignedNumber | assets/js/persogen.ts:88-95 | Accepted iff length 5 (in UTF-16 code units) and every character in the 27-symbol alphabet. The length error takes priority over the character error. |
| Fields.AssignedNumberRejectsLowerCase | assets/js/persogen.js:78-80 | A lower-case letter or a filler anywhere makes an assigned number invalid. |
| Fields.AllowedAreDigits | assets/js/persogen.ts:85 | Every character of the restricted alphabet is a valid `Digit` character and not the filler. |
| Fields.FirstCharactersAllowed | assets/js/persogen.ts:48-49 | The allowed first characters belong to the allowed alphabet. |
| Fields.KnownAuthorityIdValid | assets/js/persogen.ts:68-79 | Each of the ten hard-coded authority codes passes the `AuthorityID` validator. |
| Fields.GenerateAuthorityId | assets/js/persogen.ts:67-81 | Any draw in 0..9 gives one of the ten known codes, and the validator accepts it unchanged. |
| Fields.GenerateAssignedNumber | assets/js/persogen.ts:101-108 | Five draws in 0..26 give the five alphabet characters at those positions, and the `AssignedNumber` validator accepts the result. |
| Fields.DocumentIdString | assets/js/persogen.ts:120-122 | The document number has 9 characters: the authority id followed by the assigned number, all valid digits and no filler. |
| Fields.DocumentCheckDigit | assets/js/persogen.ts:124-126 | The document number's check digit never throws and is a value 0..9 equal to `CheckDigitOf` of the 9 characters. |
| Dates.NewDateYYMM | assets/js/persogen.ts:133-136 | The `DateYYMM` constructor, a specification function with no contract. Its shape is stated by `Dates.YYMMShape`, `Dates.OneDigitYearYYMM` and `Dates.NegativeYearEncoding`. |
| Dates.YYMMString | assets/js/persogen.ts:138-140 | `DateYYMM.toString`, a specification function with no contract. Its shape is stated by `Dates.YYMMShape` and `Dates.OneDigitYearYYMM`. |
| Dates.NewDateYYMMDD | assets/js/persogen.ts:146-149 | The `DateYYMMDD` constructor, a specification function with no contract. Its shape is stated by `Dates.YYMMDDShape`, `Dates.OneDigitYearShape` and `Dates.NegativeYearEncoding`. |
| Dates.YYMMDDString | assets/js/persogen.ts:151-153 | `DateYYMMDD.toString`, a specification function with no contract. Its shape is stated by `Dates.YYMMDDShape` and `Dates.OneDigitYearShape`, and its check digit by `Dates.DateCheckDigitFails`. |
| Dates.YearSuffix | assets/js/persogen.ts:134 | For a year of at least two digits, its sign dropped, the year part is the two digits of the year modulo 100. |
| Dates.ShortYearSuffix | assets/js/persogen.ts:134 | For years 0..9 the year part is that one digit. For years -9..-1 it is `-` and one digit. |
| Dates.YYMMShape | assets/js/persogen.ts:133-140 | For a valid date with a two-digit year, `DateYYMM` is four decimal digits: year modulo 100, then the month, zero-padded. |
| Dates.YYMMDDShape | assets/js/persogen.ts:146-153 | For such a date, `DateYYMMDD` is six decimal digits: YYMM followed by the zero-padded day. |
| Dates.OneDigitYearYYMM | assets/js/persogen.ts:133-140 | For years 0..9 `DateYYMM` has 3 characters: the one year digit, then the month. |
| Dates.OneDigitYearShape | assets/js/persogen.ts:146-153 | For years 0..9 `DateYYMMDD` has 5 characters: the one year digit, the month and the day. |
| Dates.NegativeYearEncoding | assets/js/persogen.ts:134 | For years -9..-1 both encodings start with `-`. |
| Dates.DecimalEncoding | assets/js/persogen.ts:133-153 | For every other year both encodings are decimal digits only. |
| Dates.DateCheckDigit | assets/js/persogen.ts:155-157 | The date's check digit is `CheckDigitOf` of its own YYMMDD string. |
| Dates.DateCheckDigitFails | assets/js/persogen.ts:155-157 | For a valid date the check digit throws iff the year is -9..-1, and then on `-`. |
| Mrz.NewMachineReadableZone | assets/js/persogen.ts:186-194 | The zone is built iff the authority id and the assigned number are valid; there is no partial result. The authority id's error takes priority. Otherwise the document code is `ID`, the issuing state and nationality `D`, and the other fields are the validated parts, the two dates as YYMMDD and the issuing date as YYMM. |
| Mrz.Render | assets/js/persogen.ts:196-221 | `toString` as a specification function with no contract. Its properties are stated by `Mrz.ToString`, `Mrz.RenderWellFormed`, `Mrz.RenderedZoneChecksOut`, `Mrz.RenderedFields` and `Mrz.RenderFails`. |
| Mrz.Line1 | assets/js/persogen.ts:197-202 | Line 1, a specification function with no contract. Its layout is stated by `Mrz.Line1Layout`. |
| Mrz.Line2 | assets/js/persogen.ts:204-212 | Line 2, a specification function with no contract. Its layout is stated by `Mrz.Line2Pieces`, `Mrz.Line2Layout` and `Mrz.Line2Length`. |
| Mrz.Line3 | assets/js/persogen.ts:214-218 | Line 3, a specification function with no contract. Its value is stated by `Mrz.Line3Layout`. |
| Mrz.CompositeString | assets/js/persogen.ts:212 | What the composite check digit covers, a specification function with no contract. Its check digit is stated by `Mrz.CompositeFails` and `Mrz.LinesCheckOut`. |
| Mrz.ToString | assets/js/persogen.ts:196-221 | The line-by-line builder returns exactly `Render`: the same lines, or the error of the first check digit that throws (birth, then expiry, then composite). |
| Mrz.NewZoneWellFormed | assets/js/persogen.js:144-152 | Valid card number parts and valid dates with at least two-digit years give a zone with code `ID`, state and nationality `D`, 6-digit dates and a 4-digit version. |
| Mrz.RenderWellFormed | assets/js/persogen.ts:196-220 | For a well-formed zone, every check digit is computable and `toString` returns line 1, line 2 and line 3 joined by `\n`. |
| Mrz.Line1Layout | assets/js/persogen.ts:197-202 | Line 1 is `IDD<<`, then the 9-character document number (authority id at 5..8, assigned number at 9..13), its check digit at 14 and 15 fillers: 30 characters, no newline. |
| Mrz.Line1NoNewline | assets/js/persogen.ts:197-202 | Line 1 holds no newline, so splitting the zone gives it back whole. |
| Mrz.Line2Pieces | assets/js/persogen.ts:204-212 | Line 2 is birth date + digit, `<`, expiry date + digit, `D<<`, version, seven fillers, composite digit. |
| Mrz.Line2Layout | assets/js/persogen.js:160-168 | In a well-formed zone line 2 has 30 characters: birth date 0..5 and its digit at 6, filler at 7, expiry date 8..13 and its digit at 14, `D<<` at 15..17, version at 18..21, fillers 22..28, composite digit at 29. |
| Mrz.Line2Length | assets/js/persogen.ts:204-212 | Line 2 has 14 characters besides the three dates, so a one-digit year shortens it below 30. |
| Mrz.Line3Layout | assets/js/persogen.ts:214-218 | Line 3 is the constant `MUSTERMANN<<ERIKA<<<<<<<<<<<<<` of 30 characters. |
| Mrz.SplitJoin | assets/js/persogen.ts:220 | Splitting at newlines undoes joining a newline-free line to the rest with `\n`. |
| Mrz.SplitThreeLines | assets/js/persogen.ts:220 | Three newline-free lines joined by single newlines split back into exactly those three lines, so there is no trailing newline. |
| Mrz.LinesCheckOut | assets/js/persogen.ts:200-212 | Read at their fixed positions, the check digits of lines 1 and 2 match the document number, both dates and the composite field. This holds for the check digit here and for the ICAO one, whose reader takes the composite at the TD1 positions, fillers included. |
| Mrz.IcaoCompositeFillers | assets/js/persogen.ts:197-212 | The composite an ICAO reader takes (line 1 from column 6; line 2 columns 1-7, 9-15 and 19-29) has the same ICAO sum as the encoder's composite string. |
| Mrz.RenderedZoneChecksOut | assets/js/persogen.ts:196-220 | A well-formed zone renders as exactly three lines of 30 characters whose four check digits a reader accepts, under either definition. |
| Mrz.RenderedFields | assets/js/persogen.ts:196-220 | The fields of a well-formed zone can be read back at fixed positions of the rendered lines, and line 3 is the constant name. |
| Mrz.RenderFails | assets/js/persogen.ts:205-212 | For valid card number parts and valid dates, `toString` throws iff one of the three years is -9..-1. The error is then the invalid character `-`; an issuing year like that only trips the composite digit. |
| Mrz.CompositeFails | assets/js/persogen.ts:212 | The composite check digit fails exactly when the version number's own characters make it fail, with the same error. |

## Left out

- The page glue (assets/js/persogen.ts:224-339, assets/js/persogen.js:177-283): loading HTML, event handlers, rendering errors into the page, reset and random buttons. This is DOM manipulation with no encoder logic.
- assets/js/script.js: translated labels chosen by browser language and written into the page.
- `generateBirthDate`, `generateExpiryDate` and `generateIssuingDate` (assets/js/persogen.ts:160-175). These read the clock, use JavaScript date arithmetic and format as ISO text.
- JavaScript `Date` objects. A date is the triple `getFullYear()`, `getMonth() + 1`, `getDate()`. The model has no parsing, time zones or local-time conversion, and no invalid date (whose getters give `NaN`).
- Fields.GenerateAuthorityId: `Math.random()` is replaced by the drawn index, a parameter in 0..9.
- Fields.GenerateAssignedNumber: `Math.random()` is replaced by the five drawn indices, parameters in 0..26.
- The text of the error messages, including the permitted-character lists and the stray backquote in the `Digit` message. Errors are kept as their kind, the field and the offending text.
- The regular expression test of the two validators is modelled as a membership predicate over the characters (`Fields.MatchesAllowed`).
- `toString` coercions of objects and numbers are written out. A field object becomes its string and a check digit 0..9 becomes its decimal character.
- The second evaluations of `documentID.checkDigit()`, `birthDate.checkDigit()` and `expiryDate.checkDigit()` inside the composite of `toString` (assets/js/persogen.ts:212) reuse the values of the first calls. Each pair of calls computes the same value from the same fields.
- Checksum.CheckDigit: `charAt` walks UTF-16 code units, so on a character outside the Basic Multilingual Plane the source throws with its leading surrogate. The model throws at the same place, with the whole character. The encoder only passes it fields of ASCII characters.
