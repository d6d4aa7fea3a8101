# Identity numbers: validation and parsing

A model of the core of a small TypeScript library. The library validates national
identity numbers and passport numbers for South Africa (ZA), the United Kingdom (UK)
and the United States (US). It also reads metadata out of a valid identity number.
The core has four parts, and each is one Dafny module:

- `Dictionaries` (`dictionaries.dfy`) models `src/dictionaries.ts`.
  - It holds the pattern tables. For each country, one table gives the identity-number patterns and another gives the passport patterns.
  - It holds the inverse tables, which map a pattern's source text to its countries, and the country-to-label table.
  - Each regular expression is a hand-written predicate, and `Test(p, s)` says whether `p` matches `s`.
  - `Captures` gives the capture groups.
- `Validators` (`validators.dfy`) models `src/validators.ts`.
  - The Luhn checksum is a method with a loop, proved against the spec function `LuhnValid`.
  - The per-country validators are methods that try each of a country's patterns in turn, proved against `Accepts`.
  - The "all countries" sweeps are methods that walk a table in insertion order, proved against `ValidCountries`.
- `Parsers` (`parsers.dfy`) models `src/parsers.ts`.
  - Date handling is modelled as `parseShortDate` turning YYMMDD into YYYY-MM-DD, plus age computation.
  - The Canadian region switch is modelled on its own.
  - The ZA, UK and US metadata parsers are modelled, along with the dispatcher that runs the parser of the first listed country without testing its pattern.
- `Facade` (`index.dfy`) models `src/index.ts`.
  - `validateId` builds a result record and fills it in step by step.
  - `parseId` adds metadata to a valid result.
  - The spec function `Validation` states the whole record, and the spec function `Parsed` states the record after parsing.

`JsRuntime` (`js_runtime.dfy`) holds the JavaScript behaviour the core relies on:
- `parseInt` with NaN, with leading whitespace, sign and digit run handled as JavaScript does (`Number = Finite(int) | NaN`);
- `${undefined}`;
- `split(' ').join('')`, `slice`, `startsWith`, `padStart` and `Number.toString`.

The current date is an input. The two `new Date()` reads in `parseShortDate` and `getAge` become a `today: Date` parameter. `parseShortDate` uses its year.

Where the code differs from the evident intent of its patterns (negative look-aheads, an optional suffix letter) and from the stated whitespace normalisation, the model follows the code:
- **US identity pattern.** It contains the literal texts `!000`, `!00` and `!0000` where negative look-aheads were evidently meant. So a plain SSN such as 219-09-9999 is Invalid, and the US parser's `sequence` is always NaN (see `UsRejectsPlainSsn`, `UsIdentityNeedsLiterals`, `UsSerialGroup`).
- **UK identity pattern.** It needs the literal text `<suffix>` (see `UkIdentityNeedsSuffix`).
  - Its UK `sequence` comes from capture groups 2 to 4.
  - The pattern has only one capture group.
  - So the sequence is the text "undefinedundefinedundefined", which reads as NaN.
- **Spaces.** The result record echoes the number with U+0020 spaces removed. The validators and the parser still receive the raw number, so a ZA or US number, or a passport, with a space in it is reported Invalid (see `ValidatorSeesRawInput`). The UK pattern itself allows one white-space character before each digit pair and before `<suffix>`, so a UK number spaced there is Valid (see `UkSpacedNumberValid`). No other whitespace is removed.

## Model

| member | source | states |
|---|---|---|
| Validators.LuhnCheck | src/validators.ts:101-118 | The loop's answer is exactly the Luhn condition: the sum with every second digit from the right doubled, and 9 taken off a two-digit double, is a multiple of 10. Any input that is not all digits is rejected, and the empty string is accepted. |
| Validators.LuhnCompletion | src/validators.ts:105-117 | For every digit string there is exactly one check digit that makes it Luhn-valid when appended, and it is `CheckDigit(s)`. |
| Validators.LuhnDetectsSingleSubstitution | src/validators.ts:105-117 | Two digit strings of the same length that differ in exactly one position are never both Luhn-valid. |
| Validators.LuhnSumOneChange | src/validators.ts:105-113 | Changing one digit changes the Luhn sum by exactly the change in that digit's (possibly doubled) contribution. |
| Validators.LuhnDigitInjective | src/validators.ts:106-112 | The per-digit Luhn contribution, doubled or not, is different for different digits. |
| Validators.LuhnDigit | src/validators.ts:106-112 | A digit contributes its value, or twice its value, minus 9 when that exceeds 9; always at most 9. |
| Validators.MatchPatterns | src/validators.ts:59-63 | Trying a country's patterns in turn gives true exactly when at least one of them matches. |
| Validators.ValidateIdentityNumberForCountry | src/validators.ts:58-80 | Valid exactly when one of the country's identity patterns matches and, for ZA, the Luhn check also passes; otherwise Invalid, never Unknown. |
| Validators.ValidatePassportNumberForCountry | src/validators.ts:88-95 | Valid exactly when one of the country's passport patterns matches, otherwise Invalid. |
| Validators.ValidateIdentityNumberForAllCountries | src/validators.ts:8-26 | The countries found are those whose identity validation accepts the number, in table order; the status is Valid exactly when that list is non-empty. |
| Validators.ValidatePassportNumberForAllCountries | src/validators.ts:32-50 | The countries found are those whose passport patterns accept the number, in table order; the status is Valid exactly when that list is non-empty. |
| Validators.SweepMembers | src/validators.ts:11-21 | A country is in the sweep's result exactly when it is a visited key whose validation accepts the number. |
| Validators.ValidCountriesCharacterised | src/validators.ts:8-50 | The countries found are exactly the accepting ones, with no duplicates, in the order of the table's keys. |
| Validators.AtMostOneIdentityCountry | src/dictionaries.ts:15-19 | No string is a valid identity number for two countries, so the automatic identity sweep finds at most one country. |
| Validators.PassportCountriesIncludeUs | src/dictionaries.ts:27-31 | Whenever some country accepts a passport number, the US is among the countries found. |
| Validators.NineDigitPassportCountries | src/validators.ts:32-50 | Any nine-digit passport number is found for exactly the US and the UK, in that order. |
| Validators.ZaExampleLuhn | src/validators.ts:101-118 | The Luhn sum of 8001015009087 is 40. |
| Validators.ZaExampleValid | src/validators.ts:58-80 | 8001015009087 is a valid ZA identity number, and ZA is the only country found for it. |
| Dictionaries.Patterns | src/dictionaries.ts:15-31 | Every country has an entry in both pattern tables, and this is that entry. |
| Dictionaries.TypeLabel | src/dictionaries.ts:40-44 | Every country has a type label, and this is that label. |
| Dictionaries.Captures | src/dictionaries.ts:15-18 | A successful match has a capture list whose element 0 is the whole matched string. |
| Dictionaries.TablesIterationOrder | src/dictionaries.ts:15-31 | The keys visited are exactly the table's keys, each once: ZA, UK, US for identity numbers and ZA, US, UK for passports. |
| Dictionaries.InverseTablesConsistent | src/dictionaries.ts:15-38 | Each pattern's source text maps back, in the inverse table, to exactly the country it belongs to. Every key of an inverse table is the source of one of the patterns. |
| Dictionaries.TypeLabelsCoverTables | src/dictionaries.ts:40-44 | Every country of either table has a label, and no label is "Other". |
| Dictionaries.ZaIdentityPatternShape | src/dictionaries.ts:16 | `ZaIdentityPattern`, the ZA identity regular expression as `Test` reads it: a ZA identity number is exactly 13 digits, with month digits 01-12 and day digits 01-31. |
| Dictionaries.PassportPatternsWithinUs | src/dictionaries.ts:28-30 | Anything the ZA or UK passport patterns accept, the US passport pattern accepts too. |
| Dictionaries.NineDigitsPassport | src/dictionaries.ts:28-30 | Nine digits match the US pattern and the UK digits pattern, but not the ZA pattern or the UK letters pattern. |
| Dictionaries.UsIdentityNeedsLiterals | src/dictionaries.ts:18 | `UsIdentityPattern`, the US identity regular expression: every accepted US identity number contains "-!00" and "-!0000" at fixed places before its end, so no string made only of digits and hyphens is accepted. |
| Dictionaries.UsRejectsPlainSsn | src/dictionaries.ts:18 | The SSN 219-09-9999 is not accepted. |
| Dictionaries.UkIdentityNeedsSuffix | src/dictionaries.ts:17 | `UkIdentityPattern`, the UK identity regular expression: every accepted UK identity number ends in the literal "<suffix>", optionally followed by one letter from A to D. |
| Dictionaries.UkIdentityStart | src/dictionaries.ts:17 | Every accepted UK identity number starts with "!B" or an upper-case letter. |
| Dictionaries.UkSpacedAccepted | src/dictionaries.ts:17 | The UK pattern accepts "GB", two pattern letters, then three digit pairs and "<suffix>" each preceded by one space, as in "GBAA 11 22 33 <suffix>". |
| Dictionaries.PassportPatternsApart | src/dictionaries.ts:28-30 | `Test` on the passport patterns: no number matches both UK passport patterns, nor both the ZA pattern and the UK digits pattern. |
| Dictionaries.IdentityPatternsDisjoint | src/dictionaries.ts:16-18 | No string matches two of the three identity patterns. |
| JsRuntime.SplitJoinDeletes | src/index.ts:60 | Splitting on a space and joining with the empty string is the same as deleting every space. |
| JsRuntime.WithoutKeepsOthers | src/index.ts:60 | Deleting spaces leaves no space and keeps every other character with its multiplicity; a string without spaces is unchanged. |
| JsRuntime.WithoutAppend | src/index.ts:60 | Deleting a character, such as the space, distributes over concatenation. |
| JsRuntime.SpaceDeleted | src/index.ts:60 | Deleting spaces from two space-free parts joined by one space gives the two parts joined. |
| JsRuntime.ParseIntOfChar | src/validators.ts:106 | `parseInt` of one character is that digit's value for a digit and NaN otherwise. |
| JsRuntime.ParseIntOfDigits | src/parsers.ts:159-162 | `ParseInt`, the model of `parseInt(s, 10)`: `parseInt` of a non-empty digit string is its decimal value. |
| JsRuntime.ParseIntOfNonNumeric | src/parsers.ts:191 | `ParseInt` of a string whose first character is neither white space, a sign nor a digit (such as "undefined…" or "!0000") is NaN. |
| JsRuntime.NatToStringRoundTrip | src/parsers.ts:73 | The decimal text of a natural number is a non-empty digit string, and `parseInt` reads it back as that number. |
| Parsers.DecadeOfYear | src/parsers.ts:72-73 | For a four-digit year, reading the year's text from position 2 gives the year modulo 100. |
| Parsers.ShortDateLayout | src/parsers.ts:71-84 | `ParseShortDate`, the model of `parseShortDate`: on six digits and a four-digit current year, the result is the four-digit resolved year, a dash, the month digits, a dash and the day digits. The year lies in 1900-2099 and keeps the given two digits. It is in the 2000s exactly when those digits are below the current year's last two. The text starts with "19" exactly when the year is before 2000. |
| Parsers.ShortDateWindow | src/parsers.ts:80 | When the current year is in the 2000s, the resolved year is one of the hundred years before the current one. |
| Parsers.ShortDateReadBack | src/parsers.ts:71-84 | Reading the produced date back gives the resolved year and the short date's month and day. |
| Parsers.IsoReadBack | src/parsers.ts:51 | `BirthDate`, the model of `new Date(dateString)` on a YYYY-MM-DD text: a four-digit year, a dash, two month digits, a dash and two day digits read back as that year, month and day. |
| Parsers.AgeOn | src/parsers.ts:55-62 | The age is the number of whole years completed between the birth date and today. |
| Parsers.GetAge | src/parsers.ts:50-65 | For a readable date the age is a finite number equal to the completed years up to today. For anything else it is NaN. |
| Parsers.ParseCaRegion | src/parsers.ts:100-133 | The region and citizenship from the first digit: 1-7 are regions with citizens, 8 is "BN"/Other, 9 is temporary residents. Any other first character, or an empty number, is a "Tax Number" with Other citizenship. |
| Parsers.ParseZA | src/parsers.ts:147-176 | The parser's result is the ZA metadata of the number: nothing when the pattern does not match, otherwise the fields read from the capture groups. |
| Parsers.ZaGroupsDecoded | src/parsers.ts:156-162 | The capture groups hold the date digits, the four sequence digits, the citizenship digit and the last digit in that order. `parseInt` reads them as those digits' values. |
| Parsers.ZaMetadataMeaning | src/parsers.ts:156-173 | For any matching ZA number, the date of birth reads back as the resolved year with the number's month (1-12) and day (1-31). The century is 1900 exactly when that year is before 2000. The age is the completed years up to today. |
| Parsers.ZaExampleMetadata | src/parsers.ts:156-173 | 8001015009087 read on 16 October 2026 gives: born 1 January 1980, century 1900, age 46, male, citizen, parity 7, race "Unknown", sequence 5009. |
| Parsers.ParseUK | src/parsers.ts:182-197 | Nothing when the UK pattern does not match, otherwise metadata with only a sequence, and that sequence is NaN. |
| Parsers.ParseUS | src/parsers.ts:203-218 | Nothing when the US pattern does not match, otherwise metadata with only a sequence, and that sequence is NaN. |
| Parsers.UsSerialGroup | src/parsers.ts:212 | The US serial group is always the literal "!0000", which `parseInt` reads as NaN. |
| Parsers.ParseIdentityNumberForCountry | src/parsers.ts:226-242 | Nothing for an empty number or an empty country list, otherwise the metadata of the first listed country's parser. |
| Facade.ValidateId | src/index.ts:57-89 | The record built step by step equals `Validation`. The status and countries come from the validator for the request. The echoed number has its spaces deleted. Passports are labelled "Passport". An automatic search takes the first country's label once a country is found. |
| Facade.ParseId | src/index.ts:41-48 | The result equals `Parsed`: the validation record, with the first country's metadata added only when the status is Valid and a country was found. |
| Facade.EchoedNumberDropsOnlySpaces | src/index.ts:60 | The echoed number has no spaces and keeps every other character of the input as many times as it occurs. An input without spaces is echoed unchanged. |
| Facade.ValidationStatusAndCountries | src/index.ts:64-80 | The status is never Unknown. Valid implies a country. In automatic mode, Valid holds exactly when a country is found. An explicit country is echoed as the single country. |
| Facade.AutoIdentityFindsOneCountry | src/index.ts:72-84 | An automatic identity search finds at most one country. When it is Valid, the label is that country's label and not "Other". |
| Facade.SpacedNumberRejected | src/index.ts:60-69 | Two digit runs joined by a space are Invalid as a ZA identity number, while the echoed number is the two runs joined without the space. |
| Facade.ValidatorSeesRawInput | src/index.ts:60-69 | "800101 5009087" is Invalid as a ZA identity number, although the echoed number "8001015009087" is Valid. |
| Facade.UkSpacedNumberValid | src/index.ts:60-69 | A UK number with one space before each digit pair and before "<suffix>" is Valid for an explicit UK request: the raw input reaches the UK validator and its pattern allows those spaces. |
| Facade.ExplicitCountryStatus | src/index.ts:68-71 | With an explicit country, the status is Valid exactly when that country accepts the number, for either identifier type. |
| Facade.NineDigitPassportAuto | src/index.ts:76-84 | An automatic passport search on nine digits is Valid for US and UK and keeps the label "Passport". |
| Facade.MetadataOnlyWhenValid | src/index.ts:43-46 | Metadata is present only on a Valid result with a country, and it is that first country's metadata. |
| Facade.PassportsGetNoMetadata | src/index.ts:41-48 | A passport result never carries metadata: the parser only knows identity patterns, and a valid passport number never matches them. |
| Facade.UkIdentityHasAngle | src/dictionaries.ts:17 | Every accepted UK identity number contains a '<' character. |
| Facade.PassportValidMeansUsShape | src/index.ts:70-80 | A passport number reported Valid, for any request, has the US passport shape: nine upper-case letters or digits. |

## Left out

- The clock: both `new Date()` reads become one `today` parameter, so they are assumed to agree.
- `new Date(string)`: `BirthDate` reads the year, month and day from the `YYYY-MM-DD` positions. Time zones are not modelled. Nor is JavaScript's rejection or rollover of impossible dates such as 31 February.
- Canada: `CountryCode` holds only ZA, UK and US, so the `'CA'` cases in `validateIdentityNumberForCountry` and `parseIdentityNumberForCountry` cannot be reached. The Canadian table in `parseCA` is modelled on its own as `ParseCaRegion`. The runtime error from reading the missing `'CA'` table entry is not modelled.
- The `default` branches return `Unknown` or do nothing. They cannot be reached with the closed `CountryCode` type, and `ValidateIdentityNumberForCountry` proves `Unknown` is never returned.
- The `if (!groups) return` branches in the parsers cannot be reached after a successful `test`, so the model has no such path.
- `-0` and floating point: `Number` is an integer or NaN. `parseInt("-0")` is read as 0.
- An absent `meta` field and `meta: undefined` are both `None`.
- The regular expression engine: each pattern is a hand-written predicate with its capture groups. Matching other patterns is not modelled.
- Parsers.ShortDateLayout: stated only for a current year of four digits. `toString().slice(2)` gives the year's last two digits only then.
- Parsers.ZaMetadataMeaning: stated only for a current year of four digits, for the same reason.
