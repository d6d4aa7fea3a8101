/** The two entry points: `validateId`, which builds the result record for an identity
    or passport number, and `parseId`, which adds the decoded metadata to it. */
module Facade {
  import opened JsRuntime
  import opened Dictionaries
  import opened Validators
  import opened Parsers

  /** `CountryCode | 'auto'` */
  datatype CountryRequest = Auto | Country(code: CountryCode)

  /** `ValidationResult`; `type` is `identifierType` here, and an absent `meta` is None. */
  datatype ValidationResult = ValidationResult(
    countryCodeActual: seq<CountryCode>,
    countryCodeExpected: CountryRequest,
    identityNumber: string,
    meta: Option<ParsedMetadata>,
    status: ValidationStatus,
    identifierType: IdentifierType,
    typeLabel: string)

  /** The record `validateId` returns, described by what each field means: the request
      and the type echoed; the number with its spaces deleted; with an explicit
      country, that country alone and whether the raw input is accepted for it; in
      auto mode, every country the raw input is accepted for, in table order, and
      Valid exactly when there is one; the label "Passport" for passports, otherwise
      the label of the first country listed, or "Other" when none is. */
  function Validation(identityNumber: string, countryCode: CountryRequest, identifierType: IdentifierType): ValidationResult {
    var countries := match countryCode
                     case Auto => ValidCountries(identityNumber, identifierType)
                     case Country(c) => [c];
    var accepted := match countryCode
                    case Auto => countries != []
                    case Country(c) => Accepts(identityNumber, c, identifierType);
    ValidationResult(
      countryCodeActual := countries,
      countryCodeExpected := countryCode,
      identityNumber := Without(identityNumber, ' '),
      meta := None,
      status := if accepted then Valid else Invalid,
      identifierType := identifierType,
      typeLabel := if identifierType == Passport then "Passport"
                   else if countries == [] then "Other"
                   else TypeLabel(countries[0]))
  }

  /** `validateId`: build the record with status Unknown, the label the arguments
      determine and the requested country, run the validator the request selects on
      the raw input, and replace an "Other" label by the first country's. */
  method ValidateId(identityNumber: string, countryCode: CountryRequest, identifierType: IdentifierType)
    returns (result: ValidationResult)
    ensures result == Validation(identityNumber, countryCode, identifierType)
  {
    result := ValidationResult(
      countryCodeExpected := countryCode,
      identityNumber := JoinEmpty(Split(identityNumber, ' ')),
      status := Unknown,
      identifierType := identifierType,
      typeLabel := if identifierType == Passport then "Passport"
                   else match countryCode
                        case Auto => "Other"
                        case Country(c) => TypeLabel(c),
      countryCodeActual := match countryCode
                           case Auto => []
                           case Country(c) => [c],
      meta := None);

    if countryCode.Country? && identifierType == NationalIdentity {
      var status := ValidateIdentityNumberForCountry(identityNumber, countryCode.code);
      result := result.(status := status);
    } else if countryCode.Country? && identifierType == Passport {
      var status := ValidatePassportNumberForCountry(identityNumber, countryCode.code);
      result := result.(status := status);
    } else if countryCode.Auto? && identifierType == NationalIdentity {
      var status, countries := ValidateIdentityNumberForAllCountries(identityNumber);
      result := result.(status := status, countryCodeActual := countries);
    } else {
      var status, countries := ValidatePassportNumberForAllCountries(identityNumber);
      result := result.(status := status, countryCodeActual := countries);
    }

    if |result.countryCodeActual| > 0 && result.typeLabel == "Other" {
      result := result.(typeLabel := TypeLabel(result.countryCodeActual[0]));
    }

    SplitJoinDeletes(identityNumber, ' ');
    TypeLabelsCoverTables(identifierType);
  }

  /** The record `parseId` returns: the validation, with the metadata of the raw input
      for the first country listed attached unless the status is Invalid or no country
      is listed. */
  function Parsed(identityNumber: string, countryCode: CountryRequest, identifierType: IdentifierType, today: Date): ValidationResult {
    var v := Validation(identityNumber, countryCode, identifierType);
    if v.status == Invalid || v.countryCodeActual == [] then v
    else if identityNumber == [] then v.(meta := None)
    else v.(meta := CountryMetadata(identityNumber, v.countryCodeActual[0], today))
  }

  /** `parseId` */
  method ParseId(identityNumber: string, countryCode: CountryRequest, identifierType: IdentifierType, today: Date)
    returns (results: ValidationResult)
    ensures results == Parsed(identityNumber, countryCode, identifierType, today)
  {
    results := ValidateId(identityNumber, countryCode, identifierType);
    if results.status == Invalid || |results.countryCodeActual| == 0 {
      return results;
    }
    var meta := ParseIdentityNumberForCountry(identityNumber, results.countryCodeActual, today);
    results := results.(meta := meta);
  }

  // ---------------------------------------------------------------------------
  // Properties of the two records

  /** The echoed number has no space left and every other character, other white
      space included, as often as the input has it; an input without spaces is
      echoed unchanged. */
  lemma EchoedNumberDropsOnlySpaces(identityNumber: string, countryCode: CountryRequest, identifierType: IdentifierType)
    ensures var echoed := Validation(identityNumber, countryCode, identifierType).identityNumber;
            && ' ' !in echoed
            && (forall c :: c != ' ' ==> multiset(echoed)[c] == multiset(identityNumber)[c])
            && (' ' !in identityNumber ==> echoed == identityNumber)
  {
    WithoutKeepsOthers(identityNumber, ' ');
  }

  /** The status is never Unknown, and a Valid status always comes with a country. In
      auto mode the status is Valid exactly when some country is listed; with an
      explicit country that country is listed whatever the status. */
  lemma ValidationStatusAndCountries(identityNumber: string, countryCode: CountryRequest, identifierType: IdentifierType)
    ensures var r := Validation(identityNumber, countryCode, identifierType);
            && r.status != Unknown
            && (r.status == Valid ==> r.countryCodeActual != [])
            && (countryCode.Auto? ==> (r.status == Valid <==> r.countryCodeActual != []))
            && (countryCode.Country? ==> r.countryCodeActual == [countryCode.code])
  {
  }

  /** In auto mode a national identity number is found for at most one country, and
      its label is then that country's. */
  lemma AutoIdentityFindsOneCountry(identityNumber: string)
    ensures var r := Validation(identityNumber, Auto, NationalIdentity);
            && |r.countryCodeActual| <= 1
            && (r.status == Valid ==> r.typeLabel != "Other" && r.typeLabel == TypeLabel(r.countryCodeActual[0]))
  {
    AtMostOneIdentityCountry(identityNumber);
    TypeLabelsCoverTables(NationalIdentity);
  }

  /** The validator sees the raw input, not the echoed one: a run of digits with a
      space inside is Invalid for ZA, whatever the digits, while the number echoed
      for it is the digits with the space deleted. */
  lemma SpacedNumberRejected(front: string, back: string)
    requires AllDigits(front) && AllDigits(back)
    ensures var r := Validation(front + " " + back, Country(ZA), NationalIdentity);
            && r.status == Invalid
            && r.identityNumber == front + back
  {
    var raw := front + " " + back;
    assert raw[|front|] == ' ' && !IsDigit(raw[|front|]);
    ZaIdentityPatternShape(raw);
    IdentityAcceptsPattern(raw, ZA);
    assert ' ' !in front && ' ' !in back by {
      assert forall i :: 0 <= i < |front| ==> IsDigit(front[i]);
      assert forall i :: 0 <= i < |back| ==> IsDigit(back[i]);
    }
    SpaceDeleted(front, back);
  }

  /** "800101 5009087" is Invalid for ZA, although the number echoed for it,
      8001015009087, is Valid. */
  lemma ValidatorSeesRawInput()
    ensures var r := Validation("800101 5009087", Country(ZA), NationalIdentity);
            && r.status == Invalid
            && Validation(r.identityNumber, Country(ZA), NationalIdentity).status == Valid
  {
    var front, back := "800101", "5009087";
    assert AllDigits(front) && AllDigits(back);
    SpacedNumberRejected(front, back);
    assert front + " " + back == "800101 5009087";
    assert front + back == "8001015009087";
    ZaExampleValid();
  }

  /** Spaces are not always fatal: the UK pattern allows white space before each digit
      pair and before "<suffix>", so a UK number spaced that way, such as
      "GBAA 11 22 33 <suffix>", is Valid as it stands. */
  lemma UkSpacedNumberValid(letters: string, a: string, b: string, c: string)
    requires |letters| == 2 && UkLetter(letters[0]) && UkLetter(letters[1])
    requires |a| == 2 && |b| == 2 && |c| == 2 && AllDigits(a) && AllDigits(b) && AllDigits(c)
    ensures Validation(SpacedUkNumber(letters, a, b, c), Country(UK), NationalIdentity).status == Valid
  {
    var s := SpacedUkNumber(letters, a, b, c);
    UkSpacedAccepted(letters, a, b, c);
    assert Patterns(NationalIdentity, UK) == [UkIdentity];
    assert Test(Patterns(NationalIdentity, UK)[0], s);
    ExplicitCountryStatus(s, UK, NationalIdentity);
  }

  /** With an explicit country the status is Valid exactly when that country accepts. */
  lemma ExplicitCountryStatus(s: string, c: CountryCode, t: IdentifierType)
    ensures Validation(s, Country(c), t).status == Valid <==> Accepts(s, c, t)
  {
  }

  /** A nine-digit number checked as a passport in auto mode is Valid for the US and
      the UK, in that order, and labelled "Passport". */
  lemma NineDigitPassportAuto(passportNumber: string)
    requires |passportNumber| == 9 && AllDigits(passportNumber)
    ensures var r := Validation(passportNumber, Auto, Passport);
            && r.countryCodeActual == [US, UK]
            && r.status == Valid
            && r.typeLabel == "Passport"
  {
    NineDigitPassportCountries(passportNumber);
  }

  /** `parseId` attaches metadata only to a Valid result that lists a country, and
      then it is the metadata of the raw input for the first country listed. */
  lemma MetadataOnlyWhenValid(identityNumber: string, countryCode: CountryRequest, identifierType: IdentifierType, today: Date)
    ensures var r := Parsed(identityNumber, countryCode, identifierType, today);
            && r.meta.Some? ==> r.status == Valid && r.countryCodeActual != []
                                && r.meta == CountryMetadata(identityNumber, r.countryCodeActual[0], today)
  {
  }

  /** A passport number never gets metadata: a passport is nine letters and digits,
      which none of the identity patterns accepts. */
  lemma PassportsGetNoMetadata(passportNumber: string, countryCode: CountryRequest, today: Date)
    ensures Parsed(passportNumber, countryCode, Passport, today).meta == None
  {
    var v := Validation(passportNumber, countryCode, Passport);
    if v.status == Valid && v.countryCodeActual != [] && passportNumber != [] {
      PassportValidMeansUsShape(passportNumber, countryCode);
      ZaIdentityPatternShape(passportNumber);
      UsIdentityNeedsLiterals(passportNumber);
      UkIdentityHasAngle(passportNumber);
    }
  }

  /** A UK identity number contains the character '<' (of the literal "<suffix>"). */
  lemma UkIdentityHasAngle(s: string)
    ensures UkIdentityPattern(s) ==> exists i :: 0 <= i < |s| && s[i] == '<'
  {
    if UkIdentityPattern(s) {
      UkIdentityNeedsSuffix(s);
      if |s| >= 8 && s[|s| - 8..] == "<suffix>" {
        assert s[|s| - 8] == '<';
      } else {
        assert s[|s| - 9..|s| - 1][0] == '<';
      }
    }
  }

  /** A passport number Valid in either mode is nine capital letters and digits. */
  lemma PassportValidMeansUsShape(passportNumber: string, countryCode: CountryRequest)
    requires Validation(passportNumber, countryCode, Passport).status == Valid
    ensures Test(UsPassport, passportNumber)
  {
    var r := Validation(passportNumber, countryCode, Passport);
    ValidCountriesCharacterised(passportNumber, Passport);
    var c := match countryCode case Auto => r.countryCodeActual[0] case Country(c) => c;
    assert Accepts(passportNumber, c, Passport);
    PassportAcceptsWithinUs(passportNumber, c);
  }
}
