/** Validation: the Luhn checksum, the verdict for one country, and the sweeps over
    every country of a table. */
module Validators {
  import opened JsRuntime
  import opened Dictionaries

  datatype ValidationStatus = Valid | Invalid | Unknown

  // ---------------------------------------------------------------------------
  // The Luhn checksum (the double-add-double modulus-10 check)

  /** What one digit adds to the Luhn sum: itself, or, when it is doubled, its double
      with 9 taken off once the double has two digits. */
  function LuhnDigit(c: char, doubled: bool): (v: nat)
    requires IsDigit(c)
    ensures v <= 9
    ensures !doubled ==> v == DigitValue(c)
    ensures doubled && DigitValue(c) <= 4 ==> v == 2 * DigitValue(c)
    ensures doubled && DigitValue(c) >= 5 ==> v == 2 * DigitValue(c) - 9
  {
    var n := DigitValue(c);
    if !doubled then n else if 2 * n > 9 then (2 * n) % 10 + 1 else 2 * n
  }

  /** The Luhn sum of a digit string read from the right, the rightmost digit being
      doubled or not as `doubled` says and the doubling alternating from there. */
  function LuhnSum(s: string, doubled: bool): nat
    requires AllDigits(s)
  {
    if s == [] then 0
    else LuhnDigit(s[|s| - 1], doubled) + LuhnSum(s[..|s| - 1], !doubled)
  }

  /** A string passes the Luhn check when it is all digits and its sum, with the
      second digit from the right doubled first, is a multiple of 10. */
  predicate LuhnValid(s: string) {
    AllDigits(s) && LuhnSum(s, false) % 10 == 0
  }

  /** Putting a digit in front adds that digit, doubled when an odd number of digits
      stand to its right of a string whose last digit is not doubled. */
  lemma {:induction false} LuhnSumPrepend(c: char, t: string, doubled: bool)
    requires IsDigit(c) && AllDigits(t)
    ensures AllDigits([c] + t)
    ensures LuhnSum([c] + t, doubled) == LuhnSum(t, doubled) + LuhnDigit(c, if |t| % 2 == 0 then doubled else !doubled)
    decreases |t|
  {
    var s := [c] + t;
    if t != [] {
      assert s[..|s| - 1] == [c] + t[..|t| - 1];
      LuhnSumPrepend(c, t[..|t| - 1], !doubled);
    } else {
      assert s[..|s| - 1] == [];
    }
  }

  /** `luhnCheck`: scan right to left, doubling every second digit starting with the
      second from the right; a non-digit makes `parseInt` give NaN, which poisons the
      sum, so such a string fails; the empty string passes. */
  method LuhnCheck(identityNumber: string) returns (ok: bool)
    ensures ok == LuhnValid(identityNumber)
    ensures !AllDigits(identityNumber) ==> !ok
    ensures identityNumber == [] ==> ok
  {
    var sum := Finite(0);
    var alternate := false;
    var i := |identityNumber| - 1;
    while i >= 0
      invariant -1 <= i < |identityNumber|
      invariant alternate == ((|identityNumber| - 1 - i) % 2 == 1)
      invariant sum == if AllDigits(identityNumber[i + 1..])
                       then Finite(LuhnSum(identityNumber[i + 1..], false)) else NaN
    {
      var n := ParseInt([identityNumber[i]]);
      ParseIntOfChar(identityNumber[i]);
      if alternate {
        n := n.Times(2);
        if n.GreaterThan(9) {
          n := Finite(n.value % 10 + 1);
        }
      }
      ghost var rest := identityNumber[i + 1..];
      assert identityNumber[i..] == [identityNumber[i]] + rest;
      if IsDigit(identityNumber[i]) && AllDigits(rest) {
        LuhnSumPrepend(identityNumber[i], rest, false);
      } else if !IsDigit(identityNumber[i]) {
        assert !AllDigits(identityNumber[i..]);
      } else {
        assert !AllDigits(identityNumber[i..]) by {
          var j :| 0 <= j < |rest| && !IsDigit(rest[j]);
          assert identityNumber[i..][j + 1] == rest[j];
        }
      }
      sum := sum.Plus(n);
      alternate := !alternate;
      i := i - 1;
    }
    assert identityNumber[0..] == identityNumber;
    ok := sum.Finite? && sum.value % 10 == 0;
  }

  /** The check digit that completes a digit string. */
  function CheckDigit(s: string): (d: char)
    requires AllDigits(s)
    ensures IsDigit(d)
  {
    DigitChar((10 - LuhnSum(s, true) % 10) % 10)
  }

  /** For every digit string exactly one digit appended to it passes the Luhn check:
      its check digit. */
  lemma LuhnCompletion(s: string)
    requires AllDigits(s)
    ensures forall d :: IsDigit(d) ==> (LuhnValid(s + [d]) <==> d == CheckDigit(s))
  {
    forall d | IsDigit(d)
      ensures LuhnValid(s + [d]) <==> d == CheckDigit(s)
    {
      var t := s + [d];
      assert t[..|t| - 1] == s;
      assert AllDigits(t);
      assert LuhnSum(t, false) == DigitValue(d) + LuhnSum(s, true);
      CompletesToTen(DigitValue(d), LuhnSum(s, true));
      assert DigitValue(CheckDigit(s)) == (10 - LuhnSum(s, true) % 10) % 10;
    }
  }

  /** A digit v completes a total to a multiple of ten exactly when it is ten minus the
      total's last digit (or 0). */
  lemma CompletesToTen(v: nat, total: nat)
    requires v <= 9
    ensures (v + total) % 10 == 0 <==> v == (10 - total % 10) % 10
  {
    var q, r := total / 10, total % 10;
    assert total == 10 * q + r;
    assert v + total == 10 * q + (v + r);
    assert (v + total) % 10 == (v + r) % 10;
  }

  /** Different digits add different amounts, doubled or not. */
  lemma LuhnDigitInjective(a: char, b: char, doubled: bool)
    requires IsDigit(a) && IsDigit(b) && a != b
    ensures LuhnDigit(a, doubled) != LuhnDigit(b, doubled)
  {
  }

  /** Whether the digit at position `k` of a string of length `len` is doubled when the
      last digit is doubled or not as `doubled` says. */
  function Doubles(len: nat, k: nat, doubled: bool): bool
    requires k < len
  {
    if (len - 1 - k) % 2 == 0 then doubled else !doubled
  }

  /** Changing the digit at position k changes the Luhn sum by exactly the change in
      that digit's contribution. */
  lemma {:induction false} LuhnSumOneChange(s: string, t: string, k: nat, doubled: bool)
    requires AllDigits(s) && AllDigits(t) && |s| == |t| && k < |s|
    requires forall i :: 0 <= i < |s| && i != k ==> s[i] == t[i]
    ensures LuhnSum(s, doubled) + LuhnDigit(t[k], Doubles(|s|, k, doubled))
         == LuhnSum(t, doubled) + LuhnDigit(s[k], Doubles(|s|, k, doubled))
    decreases |s|
  {
    var n := |s|;
    var s', t' := s[..n - 1], t[..n - 1];
    if k == n - 1 {
      assert s' == t' by {
        assert forall i :: 0 <= i < n - 1 ==> s'[i] == t'[i];
      }
    } else {
      assert s[n - 1] == t[n - 1];
      assert Doubles(n - 1, k, !doubled) == Doubles(n, k, doubled);
      assert s'[k] == s[k] && t'[k] == t[k];
      LuhnSumOneChange(s', t', k, !doubled);
      assert LuhnSum(s, doubled) == LuhnDigit(s[n - 1], doubled) + LuhnSum(s', !doubled);
      assert LuhnSum(t, doubled) == LuhnDigit(t[n - 1], doubled) + LuhnSum(t', !doubled);
    }
  }

  /** The Luhn check catches every single mistyped digit: two digit strings that differ
      in exactly one position never both pass. */
  lemma LuhnDetectsSingleSubstitution(s: string, t: string, k: nat)
    requires AllDigits(s) && AllDigits(t) && |s| == |t| && k < |s|
    requires s[k] != t[k]
    requires forall i :: 0 <= i < |s| && i != k ==> s[i] == t[i]
    ensures !(LuhnValid(s) && LuhnValid(t))
  {
    LuhnSumOneChange(s, t, k, false);
    LuhnDigitInjective(s[k], t[k], Doubles(|s|, k, false));
    TensApart(LuhnSum(s, false), LuhnSum(t, false));
  }

  /** Two multiples of ten less than ten apart are equal. */
  lemma TensApart(x: nat, y: nat)
    ensures x % 10 == 0 && y % 10 == 0 && -9 <= x - y <= 9 ==> x == y
  {
    if x % 10 == 0 && y % 10 == 0 {
      assert x == 10 * (x / 10) && y == 10 * (y / 10);
      assert x - y == 10 * (x / 10 - y / 10);
    }
  }

  // ---------------------------------------------------------------------------
  // Verdicts for one country

  /** At least one of the patterns accepts `s`. */
  predicate MatchesAny(patterns: seq<Pattern>, s: string) {
    exists i :: 0 <= i < |patterns| && Test(patterns[i], s)
  }

  /** The countries whose identity numbers carry a Luhn check digit ('CA' and 'ZA' in
      the switch; only ZA is a country of the tables). */
  predicate NeedsChecksum(c: CountryCode) {
    c == ZA
  }

  /** `s` is valid for country `c` in the table for `t`: one of the country's patterns
      matches and, for a national identity number that needs one, the checksum passes. */
  predicate Accepts(s: string, c: CountryCode, t: IdentifierType) {
    && MatchesAny(Patterns(t, c), s)
    && (t == NationalIdentity && NeedsChecksum(c) ==> LuhnValid(s))
  }

  /** The pattern loop: `valid` becomes true at the first pattern that matches and is
      not touched again. */
  method MatchPatterns(patterns: seq<Pattern>, s: string) returns (valid: bool)
    ensures valid == MatchesAny(patterns, s)
  {
    valid := false;
    for i := 0 to |patterns|
      invariant valid == MatchesAny(patterns[..i], s)
    {
      if valid {
        assert MatchesAny(patterns[..i + 1], s) by {
          var j :| 0 <= j < i && Test(patterns[..i][j], s);
          assert patterns[..i + 1][j] == patterns[..i][j];
        }
        continue;
      }
      valid := Test(patterns[i], s);
      if valid {
        assert patterns[..i + 1][i] == patterns[i];
      } else {
        assert forall j :: 0 <= j < i + 1 ==> patterns[..i + 1][j] == patterns[j];
      }
    }
    assert patterns[..|patterns|] == patterns;
  }

  /** `validateIdentityNumberForCountry`: Valid exactly when a pattern of the country
      matches and, for ZA, the Luhn check passes; never Unknown, since the switch
      names every country of the tables. */
  method ValidateIdentityNumberForCountry(identityNumber: string, countryCode: CountryCode)
    returns (status: ValidationStatus)
    ensures status == Valid <==> Accepts(identityNumber, countryCode, NationalIdentity)
    ensures status == Valid <==>
      && MatchesAny(CountryCodeToIdentityNumberPattern[countryCode], identityNumber)
      && (countryCode == ZA ==> LuhnValid(identityNumber))
    ensures status != Unknown
  {
    var valid := MatchPatterns(CountryCodeToIdentityNumberPattern[countryCode], identityNumber);
    if !valid {
      return Invalid;
    }
    match countryCode
    case ZA =>
      var ok := LuhnCheck(identityNumber);
      return if ok then Valid else Invalid;
    case UK | US =>
      return Valid;
  }

  /** `validatePassportNumberForCountry`: the patterns alone decide; no checksum. */
  method ValidatePassportNumberForCountry(passportNumber: string, countryCode: CountryCode)
    returns (status: ValidationStatus)
    ensures status == Valid <==> Accepts(passportNumber, countryCode, Passport)
    ensures status == Valid <==> MatchesAny(CountryCodeToPassportNumberPattern[countryCode], passportNumber)
    ensures status != Unknown
  {
    var valid := MatchPatterns(CountryCodeToPassportNumberPattern[countryCode], passportNumber);
    return if valid then Valid else Invalid;
  }

  // ---------------------------------------------------------------------------
  // Sweeps over every country of a table

  /** The keys, in their order, that `s` is valid for. */
  function Sweep(keys: seq<CountryCode>, s: string, t: IdentifierType): seq<CountryCode> {
    if keys == [] then []
    else
      var last := keys[|keys| - 1];
      Sweep(keys[..|keys| - 1], s, t) + (if Accepts(s, last, t) then [last] else [])
  }

  /** The countries, in table order, that `s` is valid for. */
  function ValidCountries(s: string, t: IdentifierType): seq<CountryCode> {
    Sweep(TableKeys(t), s, t)
  }

  /** `validateIdentityNumberForAllCountries` */
  method ValidateIdentityNumberForAllCountries(identityNumber: string)
    returns (status: ValidationStatus, countryCodeActual: seq<CountryCode>)
    ensures countryCodeActual == ValidCountries(identityNumber, NationalIdentity)
    ensures status == (if |countryCodeActual| > 0 then Valid else Invalid)
  {
    status := Invalid;
    var countries: seq<CountryCode> := [];
    var keys := IdentityNumberKeys;
    for i := 0 to |keys|
      invariant countries == Sweep(keys[..i], identityNumber, NationalIdentity)
      invariant status == (if |countries| > 0 then Valid else Invalid)
    {
      assert keys[..i + 1][..i] == keys[..i];
      var validity := ValidateIdentityNumberForCountry(identityNumber, keys[i]);
      if validity == Valid {
        status := Valid;
        countries := countries + [keys[i]];
      }
    }
    assert keys[..|keys|] == keys;
    countryCodeActual := countries;
  }

  /** `validatePassportNumberForAllCountries` */
  method ValidatePassportNumberForAllCountries(passportNumber: string)
    returns (status: ValidationStatus, countryCodeActual: seq<CountryCode>)
    ensures countryCodeActual == ValidCountries(passportNumber, Passport)
    ensures status == (if |countryCodeActual| > 0 then Valid else Invalid)
  {
    status := Invalid;
    var countries: seq<CountryCode> := [];
    var keys := PassportNumberKeys;
    for i := 0 to |keys|
      invariant countries == Sweep(keys[..i], passportNumber, Passport)
      invariant status == (if |countries| > 0 then Valid else Invalid)
    {
      assert keys[..i + 1][..i] == keys[..i];
      var validity := ValidatePassportNumberForCountry(passportNumber, keys[i]);
      if validity == Valid {
        status := Valid;
        countries := countries + [keys[i]];
      }
    }
    assert keys[..|keys|] == keys;
    countryCodeActual := countries;
  }

  predicate NoDuplicates(xs: seq<CountryCode>) {
    forall i, j :: 0 <= i < j < |xs| ==> xs[i] != xs[j]
  }

  /** The position of the first occurrence of `c` in `keys`. */
  function IndexOf(keys: seq<CountryCode>, c: CountryCode): (i: nat)
    requires c in keys
    ensures i < |keys| && keys[i] == c && c !in keys[..i]
  {
    if keys[0] == c then 0 else 1 + IndexOf(keys[1..], c)
  }

  lemma IndexOfUnique(keys: seq<CountryCode>, c: CountryCode, i: nat)
    requires i < |keys| && keys[i] == c && c !in keys[..i]
    ensures IndexOf(keys, c) == i
  {
    var j := IndexOf(keys, c);
    assert forall k :: 0 <= k < i ==> keys[k] != c by {
      assert forall k :: 0 <= k < i ==> keys[..i][k] == keys[k];
    }
    assert forall k :: 0 <= k < j ==> keys[k] != c by {
      assert forall k :: 0 <= k < j ==> keys[..j][k] == keys[k];
    }
  }

  /** A sweep keeps exactly the keys the input is valid for. */
  lemma {:induction false} SweepMembers(keys: seq<CountryCode>, s: string, t: IdentifierType)
    ensures forall c :: c in Sweep(keys, s, t) <==> c in keys && Accepts(s, c, t)
  {
    if keys != [] {
      var init := keys[..|keys| - 1];
      SweepMembers(init, s, t);
      assert keys == init + [keys[|keys| - 1]];
    }
  }

  /** `r` lists keys of `keys` in the order they appear there. */
  predicate InKeyOrder(keys: seq<CountryCode>, r: seq<CountryCode>) {
    forall i, j :: 0 <= i < j < |r| ==> Before(keys, r[i], r[j])
  }

  /** `a` comes before `b` in `keys`. */
  predicate Before(keys: seq<CountryCode>, a: CountryCode, b: CountryCode) {
    a in keys && b in keys && IndexOf(keys, a) < IndexOf(keys, b)
  }

  /** A sweep over keys without repeats lists each kept key once, in the keys' order. */
  lemma {:induction false} SweepOrdered(keys: seq<CountryCode>, s: string, t: IdentifierType)
    requires NoDuplicates(keys)
    ensures NoDuplicates(Sweep(keys, s, t)) && InKeyOrder(keys, Sweep(keys, s, t))
  {
    if keys != [] {
      var init := keys[..|keys| - 1];
      var last := keys[|keys| - 1];
      SweepOrdered(init, s, t);
      SweepMembers(init, s, t);
      KeyOrderExtends(keys, Sweep(init, s, t), if Accepts(s, last, t) then [last] else []);
    }
    InKeyOrderNoDuplicates(keys, Sweep(keys, s, t));
  }

  /** Appending the last key (or nothing) to a list of the earlier keys in key order
      keeps it in key order. */
  lemma KeyOrderExtends(keys: seq<CountryCode>, r: seq<CountryCode>, tail: seq<CountryCode>)
    requires NoDuplicates(keys) && keys != []
    requires forall c :: c in r ==> c in keys[..|keys| - 1]
    requires InKeyOrder(keys[..|keys| - 1], r)
    requires tail == [] || tail == [keys[|keys| - 1]]
    ensures InKeyOrder(keys, r + tail)
  {
    var n := |keys|;
    var last := keys[n - 1];
    IndexOfUnique(keys, last, n - 1);
    var r2 := r + tail;
    forall i, j | 0 <= i < j < |r2|
      ensures Before(keys, r2[i], r2[j])
    {
      assert r2[i] == r[i] && r[i] in r;
      IndexOfInit(keys, r[i]);
      if j < |r| {
        assert r2[j] == r[j] && r[j] in r;
        IndexOfInit(keys, r[j]);
      } else {
        assert r2[j] == last;
      }
    }
    assert InKeyOrder(keys, r2);
  }

  /** Keys listed in key order are listed once each. */
  lemma InKeyOrderNoDuplicates(keys: seq<CountryCode>, r: seq<CountryCode>)
    requires InKeyOrder(keys, r)
    ensures NoDuplicates(r)
  {
  }

  /** A key before the last one is found at the same place with or without the last. */
  lemma IndexOfInit(keys: seq<CountryCode>, c: CountryCode)
    requires NoDuplicates(keys) && keys != [] && c in keys[..|keys| - 1]
    ensures c in keys && IndexOf(keys, c) == IndexOf(keys[..|keys| - 1], c) < |keys| - 1
  {
    var init := keys[..|keys| - 1];
    var k := IndexOf(init, c);
    assert keys[..k] == init[..k];
    IndexOfUnique(keys, c, k);
  }

  /** The sweep of either table: exactly the countries the input is valid for, each
      once, in table order; the identity sweep visits ZA, UK, US and the passport
      sweep ZA, US, UK. */
  lemma ValidCountriesCharacterised(s: string, t: IdentifierType)
    ensures var r := ValidCountries(s, t);
            && (forall c :: c in r <==> Accepts(s, c, t))
            && NoDuplicates(r)
            && InKeyOrder(TableKeys(t), r)
  {
    TablesIterationOrder(t);
    SweepMembers(TableKeys(t), s, t);
    SweepOrdered(TableKeys(t), s, t);
  }

  /** The identity patterns never overlap, so at most one country is found for a
      national identity number. */
  lemma AtMostOneIdentityCountry(s: string)
    ensures |ValidCountries(s, NationalIdentity)| <= 1
  {
    IdentityPatternsDisjoint(s);
    var keys := IdentityNumberKeys;
    assert keys[..3] == keys && keys[..2] == [ZA, UK] && keys[..2][..1] == [ZA] && keys[..1][..0] == [];
    forall c, c' | Accepts(s, c, NationalIdentity) && Accepts(s, c', NationalIdentity)
      ensures c == c'
    {
      IdentityAcceptsPattern(s, c);
      IdentityAcceptsPattern(s, c');
    }
    var za, uk, us := Accepts(s, ZA, NationalIdentity), Accepts(s, UK, NationalIdentity), Accepts(s, US, NationalIdentity);
    assert !(za && uk) && !(za && us) && !(uk && us);
    assert Sweep(keys[..1], s, NationalIdentity) == (if za then [ZA] else []);
    assert Sweep(keys[..2], s, NationalIdentity) == Sweep(keys[..1], s, NationalIdentity) + (if uk then [UK] else []);
    assert ValidCountries(s, NationalIdentity) == Sweep(keys[..2], s, NationalIdentity) + (if us then [US] else []);
  }

  /** The one identity pattern of each country. */
  function IdentityPattern(c: CountryCode): Pattern {
    match c
    case ZA => ZaIdentity
    case UK => UkIdentity
    case US => UsIdentity
  }

  lemma IdentityAcceptsPattern(s: string, c: CountryCode)
    ensures Accepts(s, c, NationalIdentity) ==> Test(IdentityPattern(c), s)
  {
    assert CountryCodeToIdentityNumberPattern[c] == [IdentityPattern(c)];
  }

  /** Whenever some country accepts a passport number, the US does. */
  lemma PassportCountriesIncludeUs(s: string)
    ensures ValidCountries(s, Passport) != [] ==> US in ValidCountries(s, Passport)
  {
    var r := ValidCountries(s, Passport);
    ValidCountriesCharacterised(s, Passport);
    if r != [] {
      assert Accepts(s, r[0], Passport);
      PassportAcceptsWithinUs(s, r[0]);
      assert Test(Patterns(Passport, US)[0], s);
    }
  }

  /** A passport number some country accepts matches the US passport pattern. */
  lemma PassportAcceptsWithinUs(s: string, c: CountryCode)
    ensures Accepts(s, c, Passport) ==> Test(UsPassport, s)
  {
    PassportPatternsWithinUs(s);
    var ps := Patterns(Passport, c);
    match c
    case ZA => assert ps == [ZaPassport];
    case US => assert ps == [UsPassport];
    case UK => assert ps == [UkPassportDigits, UkPassportLetters];
  }

  /** A nine-digit passport number is valid for the US and the UK, in that order. */
  lemma NineDigitPassportCountries(s: string)
    requires |s| == 9 && AllDigits(s)
    ensures ValidCountries(s, Passport) == [US, UK]
  {
    NineDigitsPassport(s);
    assert Test(CountryCodeToPassportNumberPattern[US][0], s);
    assert Test(CountryCodeToPassportNumberPattern[UK][0], s);
    assert !Accepts(s, ZA, Passport);
    var keys := PassportNumberKeys;
    assert keys[..2][..1] == [ZA] && keys[..2] == [ZA, US] && keys[..1] == [ZA] && keys[..1][..0] == [];
    assert Sweep(keys[..1], s, Passport) == [];
    assert Sweep(keys[..2], s, Passport) == [US];
  }

  /** The Luhn sum of the ZA example 8001015009087 is 40, a multiple of ten. */
  lemma ZaExampleLuhn()
    ensures LuhnSum("8001015009087", false) == 40
  {
    var s := "8001015009087";
    ZaExampleLuhnFront(s);
    assert s[..13] == s;
    LuhnSumStep(s, 13, false);
    LuhnSumStep(s, 12, true);
    LuhnSumStep(s, 11, false);
    LuhnSumStep(s, 10, true);
    LuhnSumStep(s, 9, false);
    LuhnSumStep(s, 8, true);
    LuhnSumStep(s, 7, false);
  }

  /** The date digits 800101 of the example contribute 12. */
  lemma ZaExampleLuhnFront(s: string)
    requires s == "8001015009087"
    ensures AllDigits(s) && |s| == 13 && LuhnSum(s[..6], true) == 12
  {
    ZaExampleLuhnYear(s);
    LuhnSumStep(s, 4, true);
    LuhnSumStep(s, 5, false);
    LuhnSumStep(s, 6, true);
  }

  /** The digits 800 of the example contribute 8. */
  lemma ZaExampleLuhnYear(s: string)
    requires s == "8001015009087"
    ensures AllDigits(s) && |s| == 13 && LuhnSum(s[..3], false) == 8
  {
    assert AllDigits(s);
    assert s[..0] == [];
    LuhnSumStep(s, 1, false);
    LuhnSumStep(s, 2, true);
    LuhnSumStep(s, 3, false);
  }

  /** The Luhn sum of a prefix, one digit at a time. */
  lemma LuhnSumStep(s: string, k: nat, doubled: bool)
    requires AllDigits(s) && 0 < k <= |s|
    ensures AllDigits(s[..k]) && AllDigits(s[..k - 1])
    ensures LuhnSum(s[..k], doubled) == LuhnDigit(s[k - 1], doubled) + LuhnSum(s[..k - 1], !doubled)
  {
    assert s[..k][..k - 1] == s[..k - 1];
  }

  /** The ZA example 8001015009087 passes the ZA pattern and checksum and no other
      country's pattern. */
  lemma ZaExampleValid()
    ensures Accepts("8001015009087", ZA, NationalIdentity)
    ensures ValidCountries("8001015009087", NationalIdentity) == [ZA]
  {
    var s := "8001015009087";
    ZaExampleLuhn();
    assert ZaIdentityPattern(s);
    assert Test(CountryCodeToIdentityNumberPattern[ZA][0], s);
    IdentityPatternsDisjoint(s);
    assert !Accepts(s, UK, NationalIdentity) by {
      assert CountryCodeToIdentityNumberPattern[UK] == [UkIdentity];
    }
    assert !Accepts(s, US, NationalIdentity) by {
      assert CountryCodeToIdentityNumberPattern[US] == [UsIdentity];
    }
    var keys := IdentityNumberKeys;
    assert keys[..2][..1] == [ZA] && keys[..2] == [ZA, UK] && keys[..1] == [ZA] && keys[..1][..0] == [];
    assert Sweep(keys[..1], s, NationalIdentity) == [ZA];
    assert Sweep(keys[..2], s, NationalIdentity) == [ZA];
  }
}
