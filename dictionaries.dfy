/** The constant tables of the library: the country codes, the structural patterns of
    national-identity and passport numbers per country, the inverse tables from pattern
    text to countries, and the colloquial name of each country's identity number.
    Each regular expression is written out as a predicate that accepts exactly the
    strings the expression matches, character class by character class. */
module Dictionaries {
  import opened JsRuntime

  /** The country codes the tables know. There is no 'CA'. */
  datatype CountryCode = ZA | UK | US

  /** Which of the two tables a number is looked up in. */
  datatype IdentifierType = NationalIdentity | Passport

  /** One regular expression of the tables. */
  datatype Pattern =
    | ZaIdentity | UkIdentity | UsIdentity
    | ZaPassport | UsPassport | UkPassportDigits | UkPassportLetters

  const CountryCodeToIdentityNumberPattern: map<CountryCode, seq<Pattern>> :=
    map[ZA := [ZaIdentity], UK := [UkIdentity], US := [UsIdentity]]

  /** `Object.keys(countryCodeToIdentityNumberPattern)`: insertion order. */
  const IdentityNumberKeys: seq<CountryCode> := [ZA, UK, US]

  const CountryCodeToPassportNumberPattern: map<CountryCode, seq<Pattern>> :=
    map[ZA := [ZaPassport], US := [UsPassport], UK := [UkPassportDigits, UkPassportLetters]]

  /** `Object.keys(countryCodeToPassportNumberPattern)`: insertion order. */
  const PassportNumberKeys: seq<CountryCode> := [ZA, US, UK]

  /** The inverse tables, keyed by pattern text written as string literals (so with
      every backslash doubled, as the library writes them). */
  const IdentityNumberPatternToCountryCodes: map<string, seq<CountryCode>> := map[
    "^(?<year>\\d{2})(?<month>0[1-9]|1[0-2])(?<day>0[1-9]|[1-2][0-9]|3[0-1])(?<gender>\\d{4})(?<citizenship>\\d)(?<race>\\d)(?<checksum>\\d)$" := [ZA],
    "^(?<prefix>!BG|GB|NK|KN|TN|NT|ZZ)[A-CEGHJ-PR-TW-Z]{2}\\s?\\d{2}\\s?\\d{2}\\s?\\d{2}\\s?<suffix>[A-D]?$" := [UK],
    "^(?<area>!000|666|9\\d{2})\\d{3}-(?<group>!00)\\d{2}-(?<serial>!0000)\\d{4}$" := [US]
  ]

  const PassportNumberPatternToCountryCodes: map<string, seq<CountryCode>> := map[
    "^[A-Z]\\d{8}$" := [ZA],
    "^[A-Z0-9]{9}$" := [US],
    "^[0-9]{9}$" := [UK],
    "^[A-Z]{2}[0-9]{7}$" := [UK]
  ]

  const CountryCodeToTypeLabel: map<CountryCode, string> := map[
    ZA := "National Identity Number",
    US := "Social Security Number",
    UK := "National Insurance Number"
  ]

  /** The forward table an identifier type is validated against. */
  function PatternTable(t: IdentifierType): (m: map<CountryCode, seq<Pattern>>)
    ensures ZA in m && UK in m && US in m
  {
    match t
    case NationalIdentity => CountryCodeToIdentityNumberPattern
    case Passport => CountryCodeToPassportNumberPattern
  }

  /** The patterns an identifier type has for a country: every country has an entry
      in both tables. */
  function Patterns(t: IdentifierType, c: CountryCode): (ps: seq<Pattern>)
    ensures c in PatternTable(t) && ps == PatternTable(t)[c]
  {
    match c
    case ZA => PatternTable(t)[ZA]
    case UK => PatternTable(t)[UK]
    case US => PatternTable(t)[US]
  }

  /** `countryCodeToTypeLabel[c]`: every country has a label. */
  function TypeLabel(c: CountryCode): (name: string)
    ensures c in CountryCodeToTypeLabel && name == CountryCodeToTypeLabel[c]
  {
    match c
    case ZA => CountryCodeToTypeLabel[ZA]
    case UK => CountryCodeToTypeLabel[UK]
    case US => CountryCodeToTypeLabel[US]
  }

  /** The order in which a sweep visits the keys of that table. */
  function TableKeys(t: IdentifierType): seq<CountryCode> {
    match t
    case NationalIdentity => IdentityNumberKeys
    case Passport => PassportNumberKeys
  }

  /** `RegExp.prototype.source`: the text between the slashes of each literal. */
  function Source(p: Pattern): string {
    match p
    case ZaIdentity => @"^(?<year>\d{2})(?<month>0[1-9]|1[0-2])(?<day>0[1-9]|[1-2][0-9]|3[0-1])(?<gender>\d{4})(?<citizenship>\d)(?<race>\d)(?<checksum>\d)$"
    case UkIdentity => @"^(?<prefix>!BG|GB|NK|KN|TN|NT|ZZ)[A-CEGHJ-PR-TW-Z]{2}\s?\d{2}\s?\d{2}\s?\d{2}\s?<suffix>[A-D]?$"
    case UsIdentity => @"^(?<area>!000|666|9\d{2})\d{3}-(?<group>!00)\d{2}-(?<serial>!0000)\d{4}$"
    case ZaPassport => @"^[A-Z]\d{8}$"
    case UsPassport => @"^[A-Z0-9]{9}$"
    case UkPassportDigits => @"^[0-9]{9}$"
    case UkPassportLetters => @"^[A-Z]{2}[0-9]{7}$"
  }

  /** `pattern.test(s)` */
  predicate Test(p: Pattern, s: string) {
    match p
    case ZaIdentity => ZaIdentityPattern(s)
    case UkIdentity => UkIdentityPattern(s)
    case UsIdentity => UsIdentityPattern(s)
    case ZaPassport => |s| == 9 && IsUpper(s[0]) && AllDigits(s[1..])
    case UsPassport => |s| == 9 && forall i :: 0 <= i < 9 ==> IsUpper(s[i]) || IsDigit(s[i])
    case UkPassportDigits => |s| == 9 && AllDigits(s)
    case UkPassportLetters => |s| == 9 && IsUpper(s[0]) && IsUpper(s[1]) && AllDigits(s[2..])
  }

  // ---------------------------------------------------------------------------
  // ZA: ^(\d{2})(0[1-9]|1[0-2])(0[1-9]|[1-2][0-9]|3[0-1])(\d{4})(\d)(\d)(\d)$

  predicate ZaIdentityPattern(s: string) {
    && |s| == 13
    && IsDigit(s[0]) && IsDigit(s[1])
    && ((s[2] == '0' && '1' <= s[3] <= '9') || (s[2] == '1' && '0' <= s[3] <= '2'))
    && ((s[4] == '0' && '1' <= s[5] <= '9') || ('1' <= s[4] <= '2' && '0' <= s[5] <= '9')
        || (s[4] == '3' && '0' <= s[5] <= '1'))
    && AllDigits(s[6..10]) && IsDigit(s[10]) && IsDigit(s[11]) && IsDigit(s[12])
  }

  // ---------------------------------------------------------------------------
  // UK: ^(!BG|GB|NK|KN|TN|NT|ZZ)[A-CEGHJ-PR-TW-Z]{2}\s?\d{2}\s?\d{2}\s?\d{2}\s?<suffix>[A-D]?$
  // The `!` is an ordinary character and `<suffix>` is literal text.

  const UkPrefixes: seq<string> := ["!BG", "GB", "NK", "KN", "TN", "NT", "ZZ"]

  predicate UkIdentityPattern(s: string) {
    exists k :: 0 <= k < |UkPrefixes| && UkPrefixes[k] <= s && UkAfterPrefix(s[|UkPrefixes[k]|..])
  }

  /** `[A-CEGHJ-PR-TW-Z]` */
  predicate UkLetter(c: char) {
    || ('A' <= c <= 'C') || c == 'E' || c == 'G' || c == 'H'
    || ('J' <= c <= 'P') || ('R' <= c <= 'T') || ('W' <= c <= 'Z')
  }

  /** `[A-CEGHJ-PR-TW-Z]{2}\s?\d{2}\s?\d{2}\s?\d{2}\s?<suffix>[A-D]?$` */
  predicate UkAfterPrefix(t: string) {
    |t| >= 2 && UkLetter(t[0]) && UkLetter(t[1]) && SpacedPairs(t[2..], 3)
  }

  /** `(\s?\d{2}){k}\s?<suffix>[A-D]?$` */
  predicate SpacedPairs(t: string, k: nat)
    decreases k
  {
    if k == 0 then SuffixTail(t)
    else
      || (|t| >= 2 && IsDigit(t[0]) && IsDigit(t[1]) && SpacedPairs(t[2..], k - 1))
      || (|t| >= 3 && IsWhitespace(t[0]) && IsDigit(t[1]) && IsDigit(t[2]) && SpacedPairs(t[3..], k - 1))
  }

  /** `\s?<suffix>[A-D]?$` */
  predicate SuffixTail(t: string) {
    SuffixEnd(t) || (|t| >= 1 && IsWhitespace(t[0]) && SuffixEnd(t[1..]))
  }

  /** `<suffix>[A-D]?$` */
  predicate SuffixEnd(t: string) {
    |t| >= 8 && t[..8] == "<suffix>" && (|t| == 8 || (|t| == 9 && 'A' <= t[8] <= 'D'))
  }

  // ---------------------------------------------------------------------------
  // US: ^(!000|666|9\d{2})\d{3}-(!00)\d{2}-(!0000)\d{4}$
  // Every `!` is an ordinary character.

  predicate UsIdentityPattern(s: string) {
    || (|s| >= 4 && s[..4] == "!000" && UsAfterArea(s[4..]))
    || (|s| >= 3 && s[..3] == "666" && UsAfterArea(s[3..]))
    || (|s| >= 3 && s[0] == '9' && IsDigit(s[1]) && IsDigit(s[2]) && UsAfterArea(s[3..]))
  }

  /** `\d{3}-(!00)\d{2}-(!0000)\d{4}$` */
  predicate UsAfterArea(t: string) {
    && |t| == 19
    && AllDigits(t[..3]) && t[3] == '-'
    && t[4..7] == "!00" && AllDigits(t[7..9]) && t[9] == '-'
    && t[10..15] == "!0000" && AllDigits(t[15..])
  }

  /** The length of the `area` group of a US match. */
  function UsAreaLength(s: string): nat {
    if |s| > 0 && s[0] == '!' then 4 else 3
  }

  /** The array `s.match(p)` returns for a pattern that matches: the whole match, then
      one entry per capture group. The UK pattern has one group, the US pattern three,
      the ZA pattern seven, the passport patterns none. */
  function Captures(p: Pattern, s: string): (groups: seq<Option<string>>)
    requires Test(p, s)
    ensures |groups| > 0 && groups[0] == Some(s)
  {
    match p
    case ZaIdentity =>
      [Some(s), Some(s[0..2]), Some(s[2..4]), Some(s[4..6]), Some(s[6..10]),
       Some(s[10..11]), Some(s[11..12]), Some(s[12..13])]
    case UkIdentity =>
      [Some(s), Some(if s[0] == '!' then s[..3] else s[..2])]
    case UsIdentity =>
      var a := UsAreaLength(s);
      [Some(s), Some(s[..a]), Some(s[a + 4..a + 7]), Some(s[a + 10..a + 15])]
    case _ => [Some(s)]
  }

  // ---------------------------------------------------------------------------
  // Properties of the tables

  /** Each key order lists exactly the keys of its table, once each: identity numbers
      are visited as ZA, UK, US and passports as ZA, US, UK. */
  lemma TablesIterationOrder(t: IdentifierType)
    ensures forall c :: c in TableKeys(t) <==> c in PatternTable(t)
    ensures forall i, j :: 0 <= i < j < |TableKeys(t)| ==> TableKeys(t)[i] != TableKeys(t)[j]
    ensures TableKeys(NationalIdentity) == [ZA, UK, US] && TableKeys(Passport) == [ZA, US, UK]
  {
  }

  /** Every pattern of a forward table has its text as a key of the inverse table,
      mapped to exactly the one country it is listed under, and every key of an inverse
      table is the text of some forward pattern. */
  lemma InverseTablesConsistent()
    ensures forall c, i :: c in CountryCodeToIdentityNumberPattern && 0 <= i < |CountryCodeToIdentityNumberPattern[c]| ==>
      var p := CountryCodeToIdentityNumberPattern[c][i];
      Source(p) in IdentityNumberPatternToCountryCodes && IdentityNumberPatternToCountryCodes[Source(p)] == [c]
    ensures forall c, i :: c in CountryCodeToPassportNumberPattern && 0 <= i < |CountryCodeToPassportNumberPattern[c]| ==>
      var p := CountryCodeToPassportNumberPattern[c][i];
      Source(p) in PassportNumberPatternToCountryCodes && PassportNumberPatternToCountryCodes[Source(p)] == [c]
    ensures forall key :: key in IdentityNumberPatternToCountryCodes ==>
      exists p :: p in [ZaIdentity, UkIdentity, UsIdentity] && Source(p) == key
    ensures forall key :: key in PassportNumberPatternToCountryCodes ==>
      exists p :: p in [ZaPassport, UsPassport, UkPassportDigits, UkPassportLetters] && Source(p) == key
  {
    IdentityInverseConsistent();
    PassportInverseConsistent();
  }

  lemma IdentityInverseConsistent()
    ensures forall c, i :: c in CountryCodeToIdentityNumberPattern && 0 <= i < |CountryCodeToIdentityNumberPattern[c]| ==>
      var p := CountryCodeToIdentityNumberPattern[c][i];
      Source(p) in IdentityNumberPatternToCountryCodes && IdentityNumberPatternToCountryCodes[Source(p)] == [c]
    ensures forall key :: key in IdentityNumberPatternToCountryCodes ==>
      exists p :: p in [ZaIdentity, UkIdentity, UsIdentity] && Source(p) == key
  {
    assert IdentityNumberPatternToCountryCodes.Keys == {Source(ZaIdentity), Source(UkIdentity), Source(UsIdentity)};
  }

  lemma PassportInverseConsistent()
    ensures forall c, i :: c in CountryCodeToPassportNumberPattern && 0 <= i < |CountryCodeToPassportNumberPattern[c]| ==>
      var p := CountryCodeToPassportNumberPattern[c][i];
      Source(p) in PassportNumberPatternToCountryCodes && PassportNumberPatternToCountryCodes[Source(p)] == [c]
    ensures forall key :: key in PassportNumberPatternToCountryCodes ==>
      exists p :: p in [ZaPassport, UsPassport, UkPassportDigits, UkPassportLetters] && Source(p) == key
  {
    assert PassportNumberPatternToCountryCodes.Keys ==
      {Source(ZaPassport), Source(UsPassport), Source(UkPassportDigits), Source(UkPassportLetters)};
  }

  /** Every country of either forward table has a type label. */
  lemma TypeLabelsCoverTables(t: IdentifierType)
    ensures forall c :: c in PatternTable(t) ==> c in CountryCodeToTypeLabel
    ensures forall c :: c in CountryCodeToTypeLabel ==> CountryCodeToTypeLabel[c] != "Other"
  {
  }

  /** The ZA identity pattern accepts exactly the 13-digit strings whose digits 3-4 are
      a month 01-12 and whose digits 5-6 are a day 01-31; the day is not checked
      against the month. */
  lemma ZaIdentityPatternShape(s: string)
    ensures ZaIdentityPattern(s) <==>
      && |s| == 13 && AllDigits(s)
      && 1 <= DigitsValue(s[2..4]) <= 12
      && 1 <= DigitsValue(s[4..6]) <= 31
  {
    if |s| == 13 && AllDigits(s) {
      TwoDigitValue(s[2..4]);
      TwoDigitValue(s[4..6]);
    }
    if ZaIdentityPattern(s) {
      assert forall i :: 6 <= i < 10 ==> s[i] == s[6..10][i - 6];
      assert AllDigits(s);
    }
  }

  /** Every string the ZA passport pattern or either UK passport pattern accepts is
      also accepted by the US passport pattern. */
  lemma PassportPatternsWithinUs(s: string)
    ensures Test(ZaPassport, s) || Test(UkPassportDigits, s) || Test(UkPassportLetters, s) ==> Test(UsPassport, s)
  {
    if Test(ZaPassport, s) {
      assert forall i :: 1 <= i < 9 ==> s[i] == s[1..][i - 1];
    } else if Test(UkPassportLetters, s) {
      assert forall i :: 2 <= i < 9 ==> s[i] == s[2..][i - 2];
    }
  }

  /** A string of nine digits passes the US and the first UK passport pattern, and
      fails the ZA one and the second UK one, which need a letter in front. */
  lemma NineDigitsPassport(s: string)
    requires |s| == 9 && AllDigits(s)
    ensures Test(UsPassport, s) && Test(UkPassportDigits, s)
    ensures !Test(ZaPassport, s) && !Test(UkPassportLetters, s)
  {
  }

  /** Every string the US identity pattern accepts carries the literal texts "-!00"
      and "-!0000" at fixed distances from its end, so no string made only of digits
      and hyphens (such as 219-09-9999) is accepted. */
  lemma UsIdentityNeedsLiterals(s: string)
    ensures UsIdentityPattern(s) ==>
      && |s| >= 22
      && s[|s| - 16..|s| - 12] == "-!00"
      && s[|s| - 10..|s| - 4] == "-!0000"
    ensures (forall i :: 0 <= i < |s| ==> IsDigit(s[i]) || s[i] == '-') ==> !UsIdentityPattern(s)
  {
    if UsIdentityPattern(s) {
      UsAreaSplit(s);
      var a := UsAreaLength(s);
      var t := s[a..];
      assert t[3..7] == [t[3]] + t[4..7];
      assert t[9..15] == [t[9]] + t[10..15];
      assert s[|s| - 16..|s| - 12] == t[3..7];
      assert s[|s| - 10..|s| - 4] == t[9..15];
      assert t[4] == t[4..7][0] == '!';
      assert s[|s| - 15] == t[4];
    }
  }

  /** A US match is its area group followed by the nineteen characters after it, whose
      serial group is the literal "!0000". */
  lemma UsAreaSplit(s: string)
    requires UsIdentityPattern(s)
    ensures var a := UsAreaLength(s);
            && |s| == a + 19 && UsAfterArea(s[a..]) && s[a + 10..a + 15] == "!0000"
  {
    var a := UsAreaLength(s);
    var t := s[a..];
    assert UsAfterArea(t);
    assert forall i :: a + 10 <= i < a + 15 ==> s[i] == t[i - a];
    assert t[10..15] == "!0000";
    assert forall i :: 0 <= i < 5 ==> s[a + 10..a + 15][i] == t[10..15][i];
  }

  lemma UsRejectsPlainSsn()
    ensures !UsIdentityPattern("219-09-9999")
  {
    UsIdentityNeedsLiterals("219-09-9999");
  }

  /** Ends in the literal text "<suffix>", optionally followed by one letter A-D. */
  predicate EndsInSuffix(t: string) {
    || (|t| >= 8 && t[|t| - 8..] == "<suffix>")
    || (|t| >= 9 && t[|t| - 9..|t| - 1] == "<suffix>" && 'A' <= t[|t| - 1] <= 'D')
  }

  /** A string ends as its tail does. */
  lemma EndsInSuffixAfter(t: string, n: nat)
    requires n <= |t| && EndsInSuffix(t[n..])
    ensures EndsInSuffix(t)
  {
    var u := t[n..];
    if |u| >= 8 && u[|u| - 8..] == "<suffix>" {
      assert t[|t| - 8..] == u[|u| - 8..];
    } else {
      assert t[|t| - 9..|t| - 1] == u[|u| - 9..|u| - 1];
      assert t[|t| - 1] == u[|u| - 1];
    }
  }

  lemma SuffixEndEnds(e: string)
    requires SuffixEnd(e)
    ensures EndsInSuffix(e)
  {
    if |e| == 8 {
      SuffixOnly(e);
    } else {
      SuffixAndLetter(e);
    }
  }

  lemma SuffixOnly(e: string)
    requires |e| == 8 && e[..8] == "<suffix>"
    ensures EndsInSuffix(e)
  {
    assert e[|e| - 8..] == e[..8];
  }

  lemma SuffixAndLetter(e: string)
    requires |e| == 9 && e[..8] == "<suffix>" && 'A' <= e[8] <= 'D'
    ensures EndsInSuffix(e)
  {
    assert e[|e| - 9..|e| - 1] == e[..8];
  }

  /** What is left after `k` spaced digit pairs ends in the literal text "<suffix>",
      optionally followed by one letter A-D. */
  lemma {:induction false} SpacedPairsEnd(t: string, k: nat)
    requires SpacedPairs(t, k)
    ensures EndsInSuffix(t)
    decreases k
  {
    if k == 0 {
      if SuffixEnd(t) {
        SuffixEndEnds(t);
      } else {
        SuffixEndEnds(t[1..]);
        EndsInSuffixAfter(t, 1);
      }
    } else if |t| >= 2 && IsDigit(t[0]) && IsDigit(t[1]) && SpacedPairs(t[2..], k - 1) {
      SpacedPairsEnd(t[2..], k - 1);
      EndsInSuffixAfter(t, 2);
    } else {
      SpacedPairsEnd(t[3..], k - 1);
      EndsInSuffixAfter(t, 3);
    }
  }

  /** Every string the UK identity pattern accepts ends in the literal text "<suffix>",
      optionally followed by one letter A-D. */
  lemma UkIdentityNeedsSuffix(s: string)
    requires UkIdentityPattern(s)
    ensures EndsInSuffix(s)
  {
    var k :| 0 <= k < |UkPrefixes| && UkPrefixes[k] <= s && UkAfterPrefix(s[|UkPrefixes[k]|..]);
    var n := |UkPrefixes[k]|;
    SpacedPairsEnd(s[n..][2..], 3);
    assert s[n..][2..] == s[n + 2..];
    EndsInSuffixAfter(s, n + 2);
  }

  /** A UK number written with one U+0020 space before each digit pair and before
      "<suffix>", as in "GBAA 11 22 33 <suffix>". */
  function SpacedUkNumber(letters: string, a: string, b: string, c: string): string {
    "GB" + (letters + (" " + a + (" " + b + (" " + c + " <suffix>"))))
  }

  /** The UK pattern lets a white-space character stand before each digit pair and
      before "<suffix>": every number written with spaces there is accepted. */
  lemma UkSpacedAccepted(letters: string, a: string, b: string, c: string)
    requires |letters| == 2 && UkLetter(letters[0]) && UkLetter(letters[1])
    requires |a| == 2 && |b| == 2 && |c| == 2 && AllDigits(a) && AllDigits(b) && AllDigits(c)
    ensures UkIdentityPattern(SpacedUkNumber(letters, a, b, c))
  {
    var tail := " <suffix>";
    SpacedSuffix();
    SpacedPairStep(c, tail, 1);
    SpacedPairStep(b, " " + c + tail, 2);
    SpacedPairStep(a, " " + b + (" " + c + tail), 3);
    var rest := letters + (" " + a + (" " + b + (" " + c + tail)));
    assert rest[2..] == " " + a + (" " + b + (" " + c + tail));
    assert UkAfterPrefix(rest);
    GbPrefixed(rest);
    assert SpacedUkNumber(letters, a, b, c) == "GB" + rest;
  }

  lemma SpacedSuffix()
    ensures SuffixTail(" <suffix>")
  {
    var tail := " <suffix>";
    assert tail[1..] == "<suffix>";
  }

  /** "GB" in front of what the pattern expects after its prefix is a UK match. */
  lemma GbPrefixed(rest: string)
    requires UkAfterPrefix(rest)
    ensures UkIdentityPattern("GB" + rest)
  {
    var s := "GB" + rest;
    assert UkPrefixes[1] == "GB" && s[..2] == "GB" && s[2..] == rest;
  }

  /** A space and a digit pair in front of `k - 1` spaced pairs make `k` of them. */
  lemma SpacedPairStep(d: string, x: string, k: nat)
    requires |d| == 2 && AllDigits(d) && k > 0 && SpacedPairs(x, k - 1)
    ensures SpacedPairs(" " + d + x, k)
  {
    var t := " " + d + x;
    assert t[0] == ' ' && t[1] == d[0] && t[2] == d[1] && t[3..] == x;
  }

  /** No passport number matches both UK passport patterns, nor the ZA pattern and
      the UK digits pattern: the first character tells them apart. */
  lemma PassportPatternsApart(s: string)
    ensures !(Test(UkPassportDigits, s) && Test(UkPassportLetters, s))
    ensures !(Test(ZaPassport, s) && Test(UkPassportDigits, s))
  {
  }

  /** A UK identity number starts with "!B" or with an upper-case letter. */
  lemma UkIdentityStart(s: string)
    requires UkIdentityPattern(s)
    ensures |s| >= 2 && ((s[0] == '!' && s[1] == 'B') || IsUpper(s[0]))
  {
    var k :| 0 <= k < |UkPrefixes| && UkPrefixes[k] <= s && UkAfterPrefix(s[|UkPrefixes[k]|..]);
    UkPrefixShape(k);
    var p := UkPrefixes[k];
    assert s[0] == p[0] && s[1] == p[1];
  }

  lemma UkPrefixShape(k: nat)
    requires k < |UkPrefixes|
    ensures |UkPrefixes[k]| >= 2
    ensures (UkPrefixes[k][0] == '!' && UkPrefixes[k][1] == 'B') || IsUpper(UkPrefixes[k][0])
  {
  }

  /** A US identity number starts with "!0" or with a digit. */
  lemma UsIdentityStart(s: string)
    requires UsIdentityPattern(s)
    ensures |s| >= 2 && ((s[0] == '!' && s[1] == '0') || IsDigit(s[0]))
  {
    if |s| >= 4 && s[..4] == "!000" {
      assert s[0] == s[..4][0] && s[1] == s[..4][1];
    } else if |s| >= 3 && s[..3] == "666" {
      assert s[0] == s[..3][0];
    }
  }

  /** No string matches two identity patterns: ZA numbers are 13 digits, UK numbers
      start with '!' followed by 'B' or with a letter, US numbers are at least 22
      characters long and start with "!0" or a digit. */
  lemma IdentityPatternsDisjoint(s: string)
    ensures !(ZaIdentityPattern(s) && UkIdentityPattern(s))
    ensures !(ZaIdentityPattern(s) && UsIdentityPattern(s))
    ensures !(UkIdentityPattern(s) && UsIdentityPattern(s))
  {
    ZaNotUk(s);
    ZaNotUs(s);
    UkNotUs(s);
  }

  lemma ZaNotUk(s: string)
    ensures !(ZaIdentityPattern(s) && UkIdentityPattern(s))
  {
    if UkIdentityPattern(s) {
      UkIdentityStart(s);
    }
  }

  lemma ZaNotUs(s: string)
    ensures !(ZaIdentityPattern(s) && UsIdentityPattern(s))
  {
    if UsIdentityPattern(s) {
      UsIdentityNeedsLiterals(s);
    }
  }

  lemma UkNotUs(s: string)
    ensures !(UkIdentityPattern(s) && UsIdentityPattern(s))
  {
    if UkIdentityPattern(s) && UsIdentityPattern(s) {
      UkIdentityStart(s);
      UsIdentityStart(s);
    }
  }
}
