/** The few pieces of JavaScript's runtime that the identity-number code leans on:
    `undefined`, NaN, `parseInt`, template interpolation, the character class `\s`,
    and `split`/`join`. */
module JsRuntime {

  /** A value that may be `undefined`. */
  datatype Option<+T> = None | Some(value: T)

  /** A JavaScript number as `parseInt` and the arithmetic around it produce it:
      an integer, or NaN, which poisons every sum and product it enters. */
  datatype Number = Finite(value: int) | NaN {

    /** `n * k` */
    function Times(k: int): Number {
      if Finite? then Finite(value * k) else NaN
    }

    /** `a + b` */
    function Plus(other: Number): Number {
      if Finite? && other.Finite? then Finite(value + other.value) else NaN
    }

    /** `a - b` */
    function Minus(other: Number): Number {
      if Finite? && other.Finite? then Finite(value - other.value) else NaN
    }

    /** `n === k`; NaN equals nothing */
    predicate Is(k: int) {
      Finite? && value == k
    }

    /** `a < b` between two numbers; false as soon as either is NaN */
    predicate Below(other: Number) {
      Finite? && other.Finite? && value < other.value
    }

    /** `n > k`; every comparison with NaN is false */
    predicate GreaterThan(k: int) {
      Finite? && value > k
    }

    /** `n < k`; every comparison with NaN is false */
    predicate LessThan(k: int) {
      Finite? && value < k
    }
  }

  /** The regular-expression class `\d`: ASCII digits only. */
  predicate IsDigit(c: char) {
    '0' <= c <= '9'
  }

  /** The regular-expression class `[A-Z]`. */
  predicate IsUpper(c: char) {
    'A' <= c <= 'Z'
  }

  predicate AllDigits(s: string) {
    forall i :: 0 <= i < |s| ==> IsDigit(s[i])
  }

  function DigitValue(c: char): (d: nat)
    requires IsDigit(c)
    ensures d <= 9
  {
    (c as int) - ('0' as int)
  }

  function DigitChar(d: nat): (c: char)
    requires d <= 9
    ensures IsDigit(c) && DigitValue(c) == d
  {
    (('0' as int) + d) as char
  }

  /** The value of a string of decimal digits, most significant first. */
  function DigitsValue(s: string): nat
    requires AllDigits(s)
  {
    if s == [] then 0 else 10 * DigitsValue(s[..|s| - 1]) + DigitValue(s[|s| - 1])
  }

  /** The WhiteSpace and LineTerminator code points of ECMAScript: the class `\s`
      of a regular expression, and what `parseInt` skips at the start. */
  predicate IsWhitespace(c: char) {
    || c == '\t' || c == '\n' || c == '\U{000B}' || c == '\U{000C}' || c == '\r'
    || c == ' ' || c == '\U{00A0}' || c == '\U{1680}'
    || ('\U{2000}' <= c <= '\U{200A}')
    || c == '\U{2028}' || c == '\U{2029}' || c == '\U{202F}' || c == '\U{205F}'
    || c == '\U{3000}' || c == '\U{FEFF}'
  }

  /** `s` without its leading white space. */
  function TrimStart(s: string): string {
    if |s| > 0 && IsWhitespace(s[0]) then TrimStart(s[1..]) else s
  }

  /** The longest prefix of `s` made of ASCII digits. */
  function DigitRun(s: string): (r: string)
    ensures AllDigits(r) && |r| <= |s| && r == s[..|r|]
    ensures |r| < |s| ==> !IsDigit(s[|r|])
  {
    if |s| > 0 && IsDigit(s[0]) then [s[0]] + DigitRun(s[1..]) else []
  }

  /** `parseInt(s, 10)`: skip leading white space, read an optional sign, then the
      longest run of digits; NaN when that run is empty. (The model reads "-0" as 0.) */
  function ParseInt(s: string): Number {
    var t := TrimStart(s);
    var negative := |t| > 0 && t[0] == '-';
    var body := if |t| > 0 && (t[0] == '-' || t[0] == '+') then t[1..] else t;
    var digits := DigitRun(body);
    if digits == [] then NaN
    else if negative then Finite(0 - DigitsValue(digits))
    else Finite(DigitsValue(digits))
  }

  /** On a non-empty string of digits, `parseInt` gives its decimal value. */
  lemma {:induction false} ParseIntOfDigits(s: string)
    requires s != [] && AllDigits(s)
    ensures ParseInt(s) == Finite(DigitsValue(s))
  {
    assert TrimStart(s) == s;
    DigitRunOfDigits(s);
  }

  lemma {:induction false} DigitRunOfDigits(s: string)
    requires AllDigits(s)
    ensures DigitRun(s) == s
  {
    if s != [] {
      DigitRunOfDigits(s[1..]);
    }
  }

  /** On one character, `parseInt` gives the digit's value, and NaN for anything else
      (white space is skipped and leaves nothing; a lone sign has no digits). */
  lemma ParseIntOfChar(c: char)
    ensures ParseInt([c]) == if IsDigit(c) then Finite(DigitValue(c)) else NaN
  {
    if IsDigit(c) {
      ParseIntOfDigits([c]);
    } else if IsWhitespace(c) {
      assert TrimStart([c]) == TrimStart([]);
    } else if c == '-' || c == '+' {
      assert [c][1..] == [];
    }
  }

  /** A string that starts with neither white space, a sign nor a digit parses to NaN. */
  lemma ParseIntOfNonNumeric(s: string)
    requires |s| > 0 && !IsWhitespace(s[0]) && !IsDigit(s[0]) && s[0] != '-' && s[0] != '+'
    ensures ParseInt(s) == NaN
  {
  }

  /** `${v}`: a template literal turns `undefined` into the text "undefined". */
  function Interpolate(v: Option<string>): string {
    match v
    case Some(t) => t
    case None => "undefined"
  }

  /** `groups[i]` on the array `String.prototype.match` returns: `undefined` past its end. */
  function GroupAt(groups: seq<Option<string>>, i: nat): Option<string> {
    if i < |groups| then groups[i] else None
  }

  /** `s.split(sep)` for a one-character separator: the pieces between separators,
      always at least one (an empty string splits into one empty piece). */
  function Split(s: string, sep: char): (parts: seq<string>)
    ensures |parts| > 0
  {
    if s == [] then [[]]
    else
      var rest := Split(s[1..], sep);
      if s[0] == sep then [[]] + rest else [[s[0]] + rest[0]] + rest[1..]
  }

  /** `parts.join('')` */
  function JoinEmpty(parts: seq<string>): string {
    if parts == [] then [] else parts[0] + JoinEmpty(parts[1..])
  }

  /** The characters of `s` other than `c`, in their order. */
  function Without(s: string, c: char): string {
    if s == [] then [] else (if s[0] == c then [] else [s[0]]) + Without(s[1..], c)
  }

  /** Splitting on a character and joining with '' deletes every occurrence of that
      character and nothing else. */
  lemma {:induction false} SplitJoinDeletes(s: string, c: char)
    ensures JoinEmpty(Split(s, c)) == Without(s, c)
  {
    if s != [] {
      SplitJoinDeletes(s[1..], c);
      var rest := Split(s[1..], c);
      if s[0] != c {
        calc {
          JoinEmpty(Split(s, c));
          JoinEmpty([[s[0]] + rest[0]] + rest[1..]);
          [s[0]] + rest[0] + JoinEmpty(rest[1..]);
          { assert rest == [rest[0]] + rest[1..]; }
          [s[0]] + JoinEmpty(rest);
        }
      }
    }
  }

  /** What deleting a character keeps: no occurrence of it, the same number of every
      other character, and the whole string when it has no occurrence to delete. */
  lemma {:induction false} WithoutKeepsOthers(s: string, c: char)
    ensures c !in Without(s, c)
    ensures forall x :: x != c ==> multiset(Without(s, c))[x] == multiset(s)[x]
    ensures c !in s ==> Without(s, c) == s
  {
    if s != [] {
      WithoutKeepsOthers(s[1..], c);
      assert s == [s[0]] + s[1..];
      assert multiset(s) == multiset([s[0]]) + multiset(s[1..]);
    }
  }

  /** Deleting a character from a concatenation deletes it from both parts. */
  lemma {:induction false} WithoutAppend(a: string, b: string, c: char)
    ensures Without(a + b, c) == Without(a, c) + Without(b, c)
  {
    if a != [] {
      assert (a + b)[0] == a[0] && (a + b)[1..] == a[1..] + b;
      WithoutAppend(a[1..], b, c);
    } else {
      assert a + b == b;
    }
  }

  /** Deleting spaces from two space-free parts joined by one space joins the parts. */
  lemma SpaceDeleted(front: string, back: string)
    requires ' ' !in front && ' ' !in back
    ensures Without(front + " " + back, ' ') == front + back
  {
    var space := [' '];
    assert front + " " + back == front + (space + back);
    WithoutAppend(front, space + back, ' ');
    WithoutAppend(space, back, ' ');
    assert Without(space, ' ') == [] by {
      assert space[0] == ' ' && space[1..] == [];
    }
    WithoutKeepsOthers(front, ' ');
    WithoutKeepsOthers(back, ' ');
    calc {
      Without(front + " " + back, ' ');
      Without(front, ' ') + (Without(space, ' ') + Without(back, ' '));
      front + ([] + back);
      { assert [] + back == back; }
      front + back;
    }
  }

  /** `s.slice(start, end)` for non-negative bounds: both are clamped to the length,
      and a start at or past the end gives the empty string. */
  function Slice(s: string, start: nat, end: nat): (r: string)
    ensures start <= end <= |s| ==> r == s[start..end]
  {
    var e := if end <= |s| then end else |s|;
    if start >= e then [] else s[start..e]
  }

  /** `s.startsWith(p)` */
  predicate StartsWith(s: string, p: string) {
    |p| <= |s| && s[..|p|] == p
  }

  /** `s.padStart(n, c)` with a one-character pad. */
  function PadStart(s: string, n: nat, c: char): string
    decreases n - |s|
  {
    if |s| >= n then s else PadStart([c] + s, n, c)
  }

  /** The decimal text of a natural number, without leading zeros. */
  function NatToString(n: nat): string {
    if n < 10 then [DigitChar(n)] else NatToString(n / 10) + [DigitChar(n % 10)]
  }

  /** `String(x)` / `x.toString()` for an integer-valued number. */
  function NumberToString(x: Number): string {
    match x
    case NaN => "NaN"
    case Finite(v) => if v < 0 then "-" + NatToString(0 - v) else NatToString(v)
  }

  /** The decimal text of a number is a non-empty digit string whose value is that
      number: reading it back with `parseInt` gives the number. */
  lemma {:induction false} NatToStringRoundTrip(n: nat)
    ensures AllDigits(NatToString(n)) && NatToString(n) != []
    ensures DigitsValue(NatToString(n)) == n
    ensures ParseInt(NatToString(n)) == Finite(n)
  {
    var t := NatToString(n);
    if n >= 10 {
      NatToStringRoundTrip(n / 10);
      assert t[..|t| - 1] == NatToString(n / 10);
    }
    ParseIntOfDigits(t);
  }

  /** A number from 1000 to 9999 is written with exactly its four decimal digits. */
  lemma FourDigitText(n: nat)
    requires 1000 <= n <= 9999
    ensures NatToString(n) == [DigitChar(n / 1000), DigitChar(n / 100 % 10), DigitChar(n / 10 % 10), DigitChar(n % 10)]
  {
    assert n / 10 / 10 / 10 == n / 1000 && n / 10 / 10 % 10 == n / 100 % 10;
    assert NatToString(n / 1000) == [DigitChar(n / 1000)];
    assert NatToString(n / 100) == NatToString(n / 1000) + [DigitChar(n / 100 % 10)];
    assert NatToString(n / 10) == NatToString(n / 100) + [DigitChar(n / 10 % 10)];
  }

  /** The value of a two-character digit string. */
  lemma {:induction false} TwoDigitValue(s: string)
    requires |s| == 2 && AllDigits(s)
    ensures DigitsValue(s) == 10 * DigitValue(s[0]) + DigitValue(s[1])
  {
    var first := s[..1];
    assert first[..0] == [] && first[0] == s[0];
    assert DigitsValue(first) == DigitValue(s[0]);
  }

  /** The value of a four-character digit string. */
  lemma FourDigitValue(s: string)
    requires |s| == 4 && AllDigits(s)
    ensures DigitsValue(s) == 1000 * DigitValue(s[0]) + 100 * DigitValue(s[1]) + 10 * DigitValue(s[2]) + DigitValue(s[3])
  {
    assert s[..3][..2] == s[..2];
    TwoDigitValue(s[..2]);
  }
}
