/** Decoding what an identity number encodes: the short birth date and the age it
    gives, the Canadian region digit, the per-country parsers and the dispatcher that
    picks one of them. The clock is a parameter: `today` is the date `new Date()`
    would report. */
module Parsers {
  import opened JsRuntime
  import opened Dictionaries

  /** 'Citizen' | 'Permanent Resident' | 'Temporary Resident' | 'Other' */
  datatype Citizenship = Citizen | PermanentResident | TemporaryResident | Other

  /** 'Male' | 'Female' | 'Unknown' */
  datatype Gender = Male | Female | UnknownGender

  /** A calendar date as the `Date` getters report it: full year, month 1-12, day. */
  datatype Date = Date(year: int, month: int, day: int)

  /** `Partial<ParsedMetadata>`: every field may be absent. */
  datatype ParsedMetadata = ParsedMetadata(
    age: Option<Number>,
    area: Option<string>,
    century: Option<int>,
    citizenship: Option<Citizenship>,
    dateOfBirth: Option<string>,
    gender: Option<Gender>,
    parity: Option<Number>,
    race: Option<string>,
    sequence: Option<Number>)

  /** The empty object `{}`. */
  const NoMetadata := ParsedMetadata(None, None, None, None, None, None, None, None, None)

  // ---------------------------------------------------------------------------
  // parseShortDate: YYMMDD to YYYY-MM-DD

  /** `parseShortDate`: the two-digit year goes to the 2000s when it is below the last
      two digits of the current year and to the 1900s otherwise; month and day are
      copied as they stand. */
  function ParseShortDate(shortDate: string, currentYear: int): string {
    var yearText := NumberToString(Finite(currentYear));
    var decadeYear := ParseInt(Slice(yearText, 2, |yearText|));
    var yy := ParseInt(Slice(shortDate, 0, 2));
    var mm := Slice(shortDate, 2, 4);
    var dd := Slice(shortDate, 4, 6);
    var fullYear := Finite(if yy.Below(decadeYear) then 2000 else 1900).Plus(yy);
    PadStart(NumberToString(fullYear), 4, '0') + "-" + mm + "-" + dd
  }

  /** The year a two-digit year `yy` stands for when the current year ends in `decade`. */
  function ResolvedYear(yy: nat, decade: nat): nat {
    (if yy < decade then 2000 else 1900) + yy
  }

  /** `currentYear.toString().slice(2)` of a four-digit year is its last two digits. */
  lemma DecadeOfYear(currentYear: int)
    requires 1000 <= currentYear <= 9999
    ensures var t := NumberToString(Finite(currentYear)); ParseInt(Slice(t, 2, |t|)) == Finite(currentYear % 100)
  {
    var t := NumberToString(Finite(currentYear));
    FourDigitText(currentYear);
    var last := [DigitChar(currentYear / 10 % 10), DigitChar(currentYear % 10)];
    assert Slice(t, 2, |t|) == last;
    TwoDigitValue(last);
    LastTwoDigits(currentYear);
    ParseIntOfDigits(last);
  }

  lemma LastTwoDigits(n: nat)
    ensures n % 100 == 10 * (n / 10 % 10) + n % 10
  {
    var q, r0 := n / 10, n % 10;
    var p, r1 := q / 10, q % 10;
    assert n == 10 * q + r0;
    assert q == 10 * p + r1;
    Mod100(n, p, 10 * r1 + r0);
  }

  lemma Mod100(n: nat, q: nat, r: nat)
    requires n == 100 * q + r && r < 100
    ensures n % 100 == r
  {
  }

  /** On six digits and a four-digit current year, `parseShortDate` gives the resolved
      year in four digits, a dash, the month digits, a dash and the day digits; the
      year lies in 1900-2099, keeps the two digits it was made from, and the text
      starts with "19" exactly when the year is before 2000. */
  lemma ShortDateLayout(shortDate: string, currentYear: int)
    requires |shortDate| == 6 && AllDigits(shortDate) && 1000 <= currentYear <= 9999
    ensures var iso := ParseShortDate(shortDate, currentYear);
            var yy := DigitsValue(shortDate[..2]);
            var year := ResolvedYear(yy, currentYear % 100);
            && yy < 100 && 1900 <= year <= 2099 && year % 100 == yy
            && (year >= 2000 <==> yy < currentYear % 100)
            && iso == NatToString(year) + "-" + shortDate[2..4] + "-" + shortDate[4..6]
            && |iso| == 10
            && (StartsWith(iso, "19") <==> year < 2000)
  {
    var yy := DigitsValue(shortDate[..2]);
    ShortDateText(shortDate, currentYear);
    ResolvedYearRange(yy, currentYear % 100);
    IsoText(ResolvedYear(yy, currentYear % 100), shortDate[2..4], shortDate[4..6]);
  }

  /** The resolved year of a two-digit year lies in 1900-2099 and ends in those digits. */
  lemma ResolvedYearRange(yy: nat, decade: nat)
    requires yy < 100
    ensures var year := ResolvedYear(yy, decade);
            && 1900 <= year <= 2099 && year % 100 == yy && (year >= 2000 <==> yy < decade)
  {
    var year := ResolvedYear(yy, decade);
    Mod100(year, year / 100, yy);
  }

  /** The date text of a year in 1900-2099 has ten characters and starts with "19"
      exactly when the year is before 2000. */
  lemma IsoText(year: nat, mm: string, dd: string)
    requires 1900 <= year <= 2099 && |mm| == 2 && |dd| == 2
    ensures var iso := NatToString(year) + "-" + mm + "-" + dd;
            |iso| == 10 && (StartsWith(iso, "19") <==> year < 2000)
  {
    YearText(year);
    var iso := NatToString(year) + "-" + mm + "-" + dd;
    assert iso[..2] == NatToString(year)[..2];
  }

  /** The text `parseShortDate` writes for six digits. */
  lemma ShortDateText(shortDate: string, currentYear: int)
    requires |shortDate| == 6 && AllDigits(shortDate) && 1000 <= currentYear <= 9999
    ensures var yy := DigitsValue(shortDate[..2]);
            && yy < 100
            && ParseShortDate(shortDate, currentYear)
               == NatToString(ResolvedYear(yy, currentYear % 100)) + "-" + shortDate[2..4] + "-" + shortDate[4..6]
  {
    var first := shortDate[..2];
    assert Slice(shortDate, 0, 2) == first;
    assert AllDigits(first) && first[0] == shortDate[0] && first[1] == shortDate[1];
    TwoDigitValue(first);
    ParseIntOfDigits(first);
    DecadeOfYear(currentYear);
    var yy := DigitsValue(first);
    var year := ResolvedYear(yy, currentYear % 100);
    var yearText := NumberToString(Finite(currentYear));
    var decadeYear := ParseInt(Slice(yearText, 2, |yearText|));
    assert Finite(if Finite(yy).Below(decadeYear) then 2000 else 1900).Plus(Finite(yy)) == Finite(year);
    YearText(year);
    var text := NatToString(year);
    assert NumberToString(Finite(year)) == text;
    assert PadStart(text, 4, '0') == text;
  }

  /** A year of 1900-2099 is written in four digits, starting with "19" exactly when it
      is before 2000. */
  lemma YearText(year: nat)
    requires 1900 <= year <= 2099
    ensures |NatToString(year)| == 4
    ensures NatToString(year)[..2] == "19" <==> year < 2000
  {
    FourDigitText(year);
    var t := NatToString(year);
    if year < 2000 {
      var r := year - 1900;
      assert year == 1000 * 1 + 100 * 9 + r && 0 <= r < 100;
      assert year / 1000 == 1;
      assert year / 100 == 19;
      assert t[..2] == [DigitChar(1), DigitChar(9)];
    } else {
      var r := year - 2000;
      assert year == 1000 * 2 + r && 0 <= r < 100;
      assert year / 1000 == 2;
      assert t[0] == DigitChar(2) != '1';
    }
  }

  /** In a current year of the 2000s, the resolved year is one of the hundred years
      before the current one: a two-digit year equal to the current one's is read as
      a century ago. */
  lemma ShortDateWindow(shortDate: string, currentYear: int)
    requires |shortDate| == 6 && AllDigits(shortDate) && 2000 <= currentYear <= 2099
    ensures var year := ResolvedYear(DigitsValue(shortDate[..2]), currentYear % 100);
            currentYear - 100 <= year < currentYear
  {
    TwoDigitValue(shortDate[..2]);
    ResolvedYearRange(DigitsValue(shortDate[..2]), currentYear % 100);
  }

  /** `new Date(iso)` for the `YYYY-MM-DD` form: the year, month and day it reads;
      anything else is an invalid date. */
  function BirthDate(iso: string): Option<Date> {
    if |iso| == 10 && AllDigits(iso[..4]) && iso[4] == '-' && AllDigits(iso[5..7])
       && iso[7] == '-' && AllDigits(iso[8..])
    then Some(Date(DigitsValue(iso[..4]), DigitsValue(iso[5..7]), DigitsValue(iso[8..])))
    else None
  }

  /** Reading back the text `parseShortDate` writes gives the resolved year and the
      month and day digits of the short date. */
  lemma ShortDateReadBack(shortDate: string, currentYear: int)
    requires |shortDate| == 6 && AllDigits(shortDate) && 1000 <= currentYear <= 9999
    ensures BirthDate(ParseShortDate(shortDate, currentYear))
         == Some(Date(ResolvedYear(DigitsValue(shortDate[..2]), currentYear % 100),
                      DigitsValue(shortDate[2..4]), DigitsValue(shortDate[4..6])))
  {
    ShortDateText(shortDate, currentYear);
    var yy := DigitsValue(shortDate[..2]);
    ResolvedYearRange(yy, currentYear % 100);
    IsoReadBack(ResolvedYear(yy, currentYear % 100), shortDate[2..4], shortDate[4..6]);
  }

  /** The date text of a four-digit year reads back as that year, month and day. */
  lemma IsoReadBack(year: nat, mm: string, dd: string)
    requires 1000 <= year <= 9999 && |mm| == 2 && |dd| == 2 && AllDigits(mm) && AllDigits(dd)
    ensures BirthDate(NatToString(year) + "-" + mm + "-" + dd) == Some(Date(year, DigitsValue(mm), DigitsValue(dd)))
  {
    var t := NatToString(year);
    NatToStringRoundTrip(year);
    FourDigitLength(year);
    var iso := t + "-" + mm + "-" + dd;
    assert iso[..4] == t && iso[4] == '-';
    assert iso[5..7] == mm && iso[7] == '-';
    assert iso[8..] == dd;
  }

  lemma FourDigitLength(year: nat)
    requires 1000 <= year <= 9999
    ensures |NatToString(year)| == 4
  {
    FourDigitText(year);
  }

  // ---------------------------------------------------------------------------
  // getAge

  /** `a` is on or before `b` in calendar order. */
  predicate OnOrBefore(a: Date, b: Date) {
    || a.year < b.year
    || (a.year == b.year && (a.month < b.month || (a.month == b.month && a.day <= b.day)))
  }

  /** `age` is the number of birthdays that have come by `today`: the age-th one is on
      or before today and the next one is after it. */
  predicate CompletedYears(birth: Date, today: Date, age: int) {
    && OnOrBefore(Date(birth.year + age, birth.month, birth.day), today)
    && !OnOrBefore(Date(birth.year + age + 1, birth.month, birth.day), today)
  }

  /** At most one age fits a birth date and a day. */
  lemma CompletedYearsUnique(birth: Date, today: Date, a: int, b: int)
    requires CompletedYears(birth, today, a) && CompletedYears(birth, today, b)
    ensures a == b
  {
  }

  /** The age on `today` of someone born on `birth`. */
  function AgeOn(birth: Date, today: Date): (age: int)
    ensures CompletedYears(birth, today, age)
  {
    var beforeBirthday := today.month < birth.month || (today.month == birth.month && today.day < birth.day);
    today.year - birth.year - (if beforeBirthday then 1 else 0)
  }

  /** `date.getFullYear()`, NaN for an invalid date. */
  function GetFullYear(d: Option<Date>): Number {
    if d.Some? then Finite(d.value.year) else NaN
  }

  /** `date.getMonth()`: the month counted from 0, NaN for an invalid date. */
  function GetMonth(d: Option<Date>): Number {
    if d.Some? then Finite(d.value.month - 1) else NaN
  }

  /** `date.getDate()`, NaN for an invalid date. */
  function GetDate(d: Option<Date>): Number {
    if d.Some? then Finite(d.value.day) else NaN
  }

  /** `getAge`: the difference of the years, less one when today's month and day come
      before the birthday's; NaN when the text is not a date. */
  method GetAge(dateString: string, today: Date) returns (age: Number)
    ensures BirthDate(dateString).None? ==> age == NaN
    ensures BirthDate(dateString).Some? ==>
              age.Finite? && CompletedYears(BirthDate(dateString).value, today, age.value)
  {
    var birthdate := BirthDate(dateString);
    var todayDate := Some(today);
    age := GetFullYear(todayDate).Minus(GetFullYear(birthdate));
    var monthDiff := GetMonth(todayDate).Minus(GetMonth(birthdate));
    var dayDiff := GetDate(todayDate).Minus(GetDate(birthdate));
    if monthDiff.LessThan(0) || (monthDiff.Is(0) && dayDiff.LessThan(0)) {
      age := age.Minus(Finite(1));
    }
  }

  // ---------------------------------------------------------------------------
  // parseCA: the region table of the first digit

  /** The switch of `parseCA` on the first digit of a Canadian Social Insurance Number:
      its region and the citizenship it implies. The first character of the empty
      string is `undefined`, which `parseInt` reads as NaN. */
  method ParseCaRegion(identityNumber: string) returns (area: string, citizenship: Citizenship)
    ensures |identityNumber| > 0 && identityNumber[0] == '1' ==> area == "NS, NB, PE, NL" && citizenship == Citizen
    ensures |identityNumber| > 0 && identityNumber[0] in "23" ==> area == "QC" && citizenship == Citizen
    ensures |identityNumber| > 0 && identityNumber[0] in "45" ==> area == "ON" && citizenship == Citizen
    ensures |identityNumber| > 0 && identityNumber[0] == '6' ==> area == "NW ON, MB, SK, AB, NT, NU" && citizenship == Citizen
    ensures |identityNumber| > 0 && identityNumber[0] == '7' ==> area == "BC, YT" && citizenship == Citizen
    ensures |identityNumber| > 0 && identityNumber[0] == '8' ==> area == "BN" && citizenship == Other
    ensures |identityNumber| > 0 && identityNumber[0] == '9' ==> area == "Temporary Resident" && citizenship == TemporaryResident
    ensures (|identityNumber| == 0 || identityNumber[0] !in "123456789") ==> area == "Tax Number" && citizenship == Other
  {
    var first := if |identityNumber| > 0 then Some([identityNumber[0]]) else None;
    var geographicDigit := ParseInt(Interpolate(first));
    if |identityNumber| > 0 {
      ParseIntOfChar(identityNumber[0]);
    } else {
      ParseIntOfNonNumeric("undefined");
    }
    area := "";
    citizenship := Citizen;
    if geographicDigit.Is(1) {
      area := "NS, NB, PE, NL";
    } else if geographicDigit.Is(2) || geographicDigit.Is(3) {
      area := "QC";
    } else if geographicDigit.Is(4) || geographicDigit.Is(5) {
      area := "ON";
    } else if geographicDigit.Is(6) {
      area := "NW ON, MB, SK, AB, NT, NU";
    } else if geographicDigit.Is(7) {
      area := "BC, YT";
    } else if geographicDigit.Is(8) {
      area := "BN";
      citizenship := Other;
    } else if geographicDigit.Is(9) {
      area := "Temporary Resident";
      citizenship := TemporaryResident;
    } else {
      area := "Tax Number";
      citizenship := Other;
    }
  }

  // ---------------------------------------------------------------------------
  // The per-country parsers

  /** What a South African identity number encodes, read off its digits: nothing when
      it does not match the pattern; otherwise the birth date `parseShortDate` writes
      for its first six digits, the century that date text starts with, the age on
      `today`, the sequence (digits 7-10) and the gender it implies (Female below 5000),
      the citizenship (Citizen exactly when digit 11 is 0), the parity (digit 13) and
      the race, always "Unknown". */
  function ZaMetadata(s: string, today: Date): Option<ParsedMetadata> {
    if !ZaIdentityPattern(s) then None
    else
      ZaIdentityPatternShape(s);
      var dateOfBirth := ParseShortDate(s[..6], today.year);
      var sequence := DigitsValue(s[6..10]);
      Some(NoMetadata.(
        age := Some(match BirthDate(dateOfBirth)
                    case Some(birth) => Finite(AgeOn(birth, today))
                    case None => NaN),
        century := Some(if StartsWith(dateOfBirth, "19") then 1900 else 2000),
        citizenship := Some(if s[10] == '0' then Citizen else PermanentResident),
        dateOfBirth := Some(dateOfBirth),
        gender := Some(if sequence < 5000 then Female else Male),
        parity := Some(Finite(DigitValue(s[12]))),
        race := Some("Unknown"),
        sequence := Some(Finite(sequence))))
  }

  /** With a four-digit current year the ZA fields mean what they say: the date of
      birth reads back as the resolved year with the month and day digits, a valid
      month and a day from 1 to 31; the century is 1900 exactly when that year is
      before 2000; the age is the number of completed years on `today`. */
  lemma ZaMetadataMeaning(s: string, today: Date)
    requires |s| == 13 && AllDigits(s) && ZaIdentityPattern(s) && 1000 <= today.year <= 9999
    ensures ZaMetadata(s, today).Some?
    ensures var m := ZaMetadata(s, today).value;
            var year := ResolvedYear(DigitsValue(s[..2]), today.year % 100);
            var birth := Date(year, DigitsValue(s[2..4]), DigitsValue(s[4..6]));
            && m.dateOfBirth.Some? && BirthDate(m.dateOfBirth.value) == Some(birth)
            && 1 <= birth.month <= 12 && 1 <= birth.day <= 31
            && m.century == Some(if year < 2000 then 1900 else 2000)
            && m.age.Some? && m.age.value.Finite? && CompletedYears(birth, today, m.age.value.value)
  {
    ZaIdentityPatternShape(s);
    var shortDate := s[..6];
    assert AllDigits(shortDate);
    assert shortDate[..2] == s[..2] && shortDate[2..4] == s[2..4] && shortDate[4..6] == s[4..6];
    ShortDateLayout(shortDate, today.year);
    ShortDateReadBack(shortDate, today.year);
  }

  /** The number 8001015009087 read on 16 October 2026: born on 1 January 1980, so in
      the 1900s and 46 years old, male (sequence 5009), a citizen, parity 7. */
  lemma ZaExampleMetadata()
    ensures var m := ZaMetadata("8001015009087", Date(2026, 10, 16));
            && m.Some?
            && m.value.dateOfBirth.Some? && BirthDate(m.value.dateOfBirth.value) == Some(Date(1980, 1, 1))
            && m.value.century == Some(1900)
            && m.value.age == Some(Finite(46))
            && m.value.gender == Some(Male)
            && m.value.citizenship == Some(Citizen)
            && m.value.parity == Some(Finite(7))
            && m.value.race == Some("Unknown")
            && m.value.sequence == Some(Finite(5009))
  {
    var s := "8001015009087";
    var today := Date(2026, 10, 16);
    assert today.year % 100 == 26 && ResolvedYear(80, 26) == 1980;
    ZaExampleDigits();
    ZaMetadataMeaning(s, today);
    var m := ZaMetadata(s, today).value;
    assert CompletedYears(Date(1980, 1, 1), today, m.age.value.value);
    assert CompletedYears(Date(1980, 1, 1), today, 46);
    CompletedYearsUnique(Date(1980, 1, 1), today, 46, m.age.value.value);
  }

  lemma ZaExampleDigits()
    ensures var s := "8001015009087";
            && ZaIdentityPattern(s) && AllDigits(s)
            && s[..6] == "800101" && DigitsValue(s[..2]) == 80
            && DigitsValue(s[2..4]) == 1 && DigitsValue(s[4..6]) == 1
            && DigitsValue(s[6..10]) == 5009 && s[10] == '0' && DigitValue(s[12]) == 7
  {
    var s := "8001015009087";
    assert ZaIdentityPattern(s);
    ZaIdentityPatternShape(s);
    TwoDigitValue(s[..2]);
    TwoDigitValue(s[2..4]);
    TwoDigitValue(s[4..6]);
    FourDigitValue(s[6..10]);
  }

  /** What the UK and US parsers return: nothing when the pattern does not match, and
      otherwise only a sequence, which is NaN. */
  function NaNSequence(p: Pattern, s: string): Option<ParsedMetadata> {
    if Test(p, s) then Some(NoMetadata.(sequence := Some(NaN))) else None
  }

  /** `groups[i]` read as text. */
  function GroupText(groups: seq<Option<string>>, i: nat): string {
    Interpolate(GroupAt(groups, i))
  }

  /** `parseZA`: the first ZA pattern that matches decides, and its groups are decoded
      field by field. */
  method ParseZA(identityNumber: string, today: Date) returns (meta: Option<ParsedMetadata>)
    ensures meta == ZaMetadata(identityNumber, today)
  {
    var patterns := CountryCodeToIdentityNumberPattern[ZA];
    assert patterns == [ZaIdentity];
    for i := 0 to |patterns|
      invariant forall k :: 0 <= k < i ==> !Test(patterns[k], identityNumber)
    {
      var pattern := patterns[i];
      if !Test(pattern, identityNumber) {
        continue;
      }
      var groups := Captures(pattern, identityNumber);
      var dateOfBirth := ParseShortDate(GroupText(groups, 1) + GroupText(groups, 2) + GroupText(groups, 3), today.year);
      var century := if StartsWith(dateOfBirth, "19") then 1900 else 2000;
      var age := GetAge(dateOfBirth, today);
      var sequence := ParseInt(GroupText(groups, 4));
      var gender := if sequence.LessThan(5000) then Female else Male;
      var citizenship := if ParseInt(GroupText(groups, 5)).Is(0) then Citizen else PermanentResident;
      var parity := ParseInt(GroupText(groups, 7));
      meta := Some(NoMetadata.(
        dateOfBirth := Some(dateOfBirth),
        century := Some(century),
        age := Some(age),
        citizenship := Some(citizenship),
        gender := Some(gender),
        parity := Some(parity),
        race := Some("Unknown"),
        sequence := Some(sequence)));
      ZaGroupsDecoded(identityNumber);
      assert dateOfBirth == ParseShortDate(identityNumber[..6], today.year);
      ghost var expected := ZaMetadata(identityNumber, today).value;
      if BirthDate(dateOfBirth).Some? {
        var birth := BirthDate(dateOfBirth).value;
        CompletedYearsUnique(birth, today, age.value, AgeOn(birth, today));
      }
      assert expected.age == Some(age);
      assert expected.sequence == Some(sequence) && expected.gender == Some(gender);
      assert expected.citizenship == Some(citizenship) && expected.parity == Some(parity);
      return;
    }
    assert !Test(patterns[0], identityNumber);
    return None;
  }

  /** The groups of a ZA match, read with `parseInt`, are the digit values of the
      sequence, citizenship and parity positions. */
  lemma ZaGroupsDecoded(s: string)
    requires ZaIdentityPattern(s)
    ensures var groups := Captures(ZaIdentity, s);
            && AllDigits(s) && |s| == 13
            && GroupText(groups, 1) + GroupText(groups, 2) + GroupText(groups, 3) == s[..6]
            && ParseInt(GroupText(groups, 4)) == Finite(DigitsValue(s[6..10]))
            && (ParseInt(GroupText(groups, 5)).Is(0) <==> s[10] == '0')
            && ParseInt(GroupText(groups, 7)) == Finite(DigitValue(s[12]))
  {
    ZaIdentityPatternShape(s);
    var groups := Captures(ZaIdentity, s);
    ZaGroupTexts(s);
    assert s[0..2] + s[2..4] + s[4..6] == s[..6];
    assert AllDigits(s[6..10]);
    ParseIntOfDigits(s[6..10]);
    ParseIntOfDigitChar(s[10]);
    ParseIntOfDigitChar(s[12]);
  }

  /** The texts of the groups of a ZA match: the six date digits in pairs, the
      sequence, and one character each for citizenship, race and parity. */
  lemma ZaGroupTexts(s: string)
    requires |s| == 13 && ZaIdentityPattern(s)
    ensures var groups := Captures(ZaIdentity, s);
            && GroupText(groups, 1) == s[0..2] && GroupText(groups, 2) == s[2..4]
            && GroupText(groups, 3) == s[4..6] && GroupText(groups, 4) == s[6..10]
            && GroupText(groups, 5) == [s[10]] && GroupText(groups, 7) == [s[12]]
  {
  }

  /** `parseInt` of one digit is that digit's value, and it is zero exactly for '0'. */
  lemma ParseIntOfDigitChar(c: char)
    requires IsDigit(c)
    ensures ParseInt([c]) == Finite(DigitValue(c))
    ensures ParseInt([c]).Is(0) <==> c == '0'
  {
    ParseIntOfChar(c);
  }

  /** `parseUK`: the UK pattern has a single capture group, so groups 2 to 4 are
      `undefined`, their interpolation reads "undefinedundefinedundefined", and the
      sequence is NaN whenever the pattern matches. */
  method ParseUK(identityNumber: string) returns (meta: Option<ParsedMetadata>)
    ensures meta == NaNSequence(UkIdentity, identityNumber)
  {
    var patterns := CountryCodeToIdentityNumberPattern[UK];
    assert patterns == [UkIdentity];
    for i := 0 to |patterns|
      invariant forall k :: 0 <= k < i ==> !Test(patterns[k], identityNumber)
    {
      var pattern := patterns[i];
      if !Test(pattern, identityNumber) {
        continue;
      }
      var groups := Captures(pattern, identityNumber);
      var text := GroupText(groups, 2) + GroupText(groups, 3) + GroupText(groups, 4);
      assert text[0] == 'u';
      ParseIntOfNonNumeric(text);
      var sequence := ParseInt(text);
      return Some(NoMetadata.(sequence := Some(sequence)));
    }
    assert !Test(patterns[0], identityNumber);
    return None;
  }

  /** `parseUS`: group 3 of the US pattern is the literal text "!0000", so the sequence
      is NaN whenever the pattern matches. */
  method ParseUS(identityNumber: string) returns (meta: Option<ParsedMetadata>)
    ensures meta == NaNSequence(UsIdentity, identityNumber)
  {
    var patterns := CountryCodeToIdentityNumberPattern[US];
    assert patterns == [UsIdentity];
    for i := 0 to |patterns|
      invariant forall k :: 0 <= k < i ==> !Test(patterns[k], identityNumber)
    {
      var pattern := patterns[i];
      if !Test(pattern, identityNumber) {
        continue;
      }
      var groups := Captures(pattern, identityNumber);
      UsSerialGroup(identityNumber);
      var sequence := ParseInt(GroupText(groups, 3));
      return Some(NoMetadata.(sequence := Some(sequence)));
    }
    assert !Test(patterns[0], identityNumber);
    return None;
  }

  /** The serial group of a US match is the literal "!0000", which `parseInt` reads as NaN. */
  lemma UsSerialGroup(s: string)
    requires UsIdentityPattern(s)
    ensures GroupText(Captures(UsIdentity, s), 3) == "!0000"
    ensures ParseInt("!0000") == NaN
  {
    UsAreaSplit(s);
    ParseIntOfNonNumeric("!0000");
  }

  // ---------------------------------------------------------------------------
  // The dispatcher

  /** What the parser of one country returns. */
  function CountryMetadata(s: string, c: CountryCode, today: Date): Option<ParsedMetadata> {
    match c
    case ZA => ZaMetadata(s, today)
    case UK => NaNSequence(UkIdentity, s)
    case US => NaNSequence(UsIdentity, s)
  }

  /** `parseIdentityNumberForCountry`: nothing for an empty number or an empty list;
      otherwise the parse of the first country listed, later ones never being
      consulted (every country code has a parser, so the first one decides). */
  method ParseIdentityNumberForCountry(identityNumber: string, countryCodes: seq<CountryCode>, today: Date)
    returns (meta: Option<ParsedMetadata>)
    ensures identityNumber == [] || countryCodes == [] ==> meta == None
    ensures identityNumber != [] && countryCodes != [] ==> meta == CountryMetadata(identityNumber, countryCodes[0], today)
  {
    if identityNumber == [] || |countryCodes| == 0 {
      return None;
    }
    for i := 0 to |countryCodes|
      invariant i == 0
    {
      match countryCodes[i]
      case ZA =>
        meta := ParseZA(identityNumber, today);
        return;
      case UK =>
        meta := ParseUK(identityNumber);
        return;
      case US =>
        meta := ParseUS(identityNumber);
        return;
    }
    assert false;
  }
}
