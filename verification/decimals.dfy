/** `safe_decimal`: `Decimal(str(value))` with every failure turned into None. */
module Decimals {
  import opened Results
  import opened Python

  /** A finite Decimal: (-1)^negative * coefficient * 10^exponent. The sign is kept
      apart from the coefficient, so Decimal("-0") and Decimal("0") differ. */
  datatype Decimal = Decimal(negative: bool, coefficient: nat, exponent: int)

  predicate IsDigit(c: char) {
    '0' <= c <= '9'
  }

  predicate AllDigits(s: string) {
    forall k | 0 <= k < |s| :: IsDigit(s[k])
  }

  /** The number a run of decimal digits spells. */
  function DigitsValue(s: string): nat
    requires AllDigits(s)
    decreases |s|
  {
    if s == [] then 0 else DigitsValue(s[..|s| - 1]) * 10 + (s[|s| - 1] as int - '0' as int)
  }

  /** An optional leading sign: (is it '-', the rest). */
  function SplitSign(s: string): (bool, string) {
    if |s| > 0 && (s[0] == '+' || s[0] == '-') then (s[0] == '-', s[1..]) else (false, s)
  }

  /** The first index holding `c` or `d`, or |s| when there is none. Passing the
      same character twice searches for that one character. */
  function FindEither(s: string, c: char, d: char): (r: nat)
    ensures r <= |s|
    ensures forall k | 0 <= k < r :: s[k] != c && s[k] != d
    ensures r < |s| ==> s[r] == c || s[r] == d
  {
    if s == [] then 0
    else if s[0] == c || s[0] == d then 0
    else 1 + FindEither(s[1..], c, d)
  }

  /** The exponent part after 'e' or 'E': an optional sign and at least one digit. */
  function ParseExponent(t: string): Option<int> {
    var (negative, digits) := SplitSign(t);
    if |digits| > 0 && AllDigits(digits) then
      var magnitude: int := DigitsValue(digits);
      Some(if negative then -magnitude else magnitude)
    else None
  }

  /** `Decimal(s)` for a finite number written as an optional sign, digits with at
      most one decimal point (at least one digit in all), and an optional exponent.
      None stands for the InvalidOperation that Decimal raises otherwise. */
  function ParseDecimal(s: string): Option<Decimal> {
    var (negative, body) := SplitSign(s);
    var e := FindEither(body, 'e', 'E');
    var mantissa := body[..e];
    var exponent := if e == |body| then Some(0) else ParseExponent(body[e + 1..]);
    var dot := FindEither(mantissa, '.', '.');
    var whole := mantissa[..dot];
    var fraction := if dot < |mantissa| then mantissa[dot + 1..] else [];
    if exponent.None? || !AllDigits(whole) || !AllDigits(fraction) || |whole| + |fraction| == 0 then None
    else Some(Decimal(negative, DigitsValue(whole + fraction), exponent.value - |fraction|))
  }

  /** `safe_decimal(value)`: None stays None, everything else goes through
      `Decimal(str(value))`, and a failed parse becomes None instead of raising. */
  function SafeDecimal(v: Value): Option<Decimal> {
    if v.Null? then None else ParseDecimal(PyStr(v))
  }

  /** The digits of `str(n)` spell n back. */
  lemma {:induction false} DigitsOfNatToString(n: nat)
    ensures AllDigits(NatToString(n)) && DigitsValue(NatToString(n)) == n
  {
    var s := NatToString(n);
    if n >= 10 {
      DigitsOfNatToString(n / 10);
      assert s[..|s| - 1] == NatToString(n / 10);
    }
  }

  /** Decimal(str(i)) is the integer i itself, with exponent 0. */
  lemma ParseIntString(i: int)
    ensures ParseDecimal(IntToString(i)) == Some(Decimal(i < 0, if i < 0 then -i else i, 0))
  {
    var n: nat := if i < 0 then -i else i;
    var digits := NatToString(n);
    DigitsOfNatToString(n);
    assert SplitSign(IntToString(i)) == (i < 0, digits);
    assert FindEither(digits, 'e', 'E') == |digits|;
    assert digits[..|digits|] == digits;
    assert FindEither(digits, '.', '.') == |digits|;
    assert digits + [] == digits;
  }

  /** A string that starts with anything but a sign, a digit or a point never parses. */
  lemma ParseRejectsLeadingChar(s: string)
    requires |s| > 0 && s[0] !in "+-.0123456789"
    ensures ParseDecimal(s) == None
  {
    assert SplitSign(s) == (false, s);
    var e := FindEither(s, 'e', 'E');
    if e > 0 {
      var mantissa := s[..e];
      assert mantissa[0] == s[0];
      var dot := FindEither(mantissa, '.', '.');
      assert dot > 0;
      assert mantissa[..dot][0] == s[0];
      assert !IsDigit(s[0]);
    }
  }

  /** What safe_decimal gives for each kind of value: None for None, for booleans,
      lists and dicts; the integer itself for an int, zero included; and the parse
      of the text for a string. */
  lemma SafeDecimalCases(v: Value)
    ensures v.Null? ==> SafeDecimal(v) == None
    ensures v.Bool? ==> SafeDecimal(v) == None
    ensures v.Int? ==> SafeDecimal(v) == Some(Decimal(v.i < 0, if v.i < 0 then -v.i else v.i, 0))
    ensures v == Int(0) ==> SafeDecimal(v) == Some(Decimal(false, 0, 0))
    ensures v.Str? ==> SafeDecimal(v) == ParseDecimal(v.s)
    ensures v.List? || v.Dict? ==> SafeDecimal(v) == None
  {
    match v
    case Null =>
    case Bool(b) => SafeDecimalOfBool(b);
    case Int(i) =>
      assert PyStr(v) == IntToString(i);
      ParseIntString(i);
    case Str(s) =>
    case List(xs) => SafeDecimalOfContainer(v);
    case Dict(es) => SafeDecimalOfContainer(v);
  }

  /** "True" and "False" are not numbers. */
  lemma SafeDecimalOfBool(b: bool)
    ensures SafeDecimal(Bool(b)) == None
  {
    var text := if b then "True" else "False";
    assert PyStr(Bool(b)) == text;
    ParseRejectsLeadingChar(text);
  }

  /** The text of a list or dict starts with a bracket or brace, so never parses. */
  lemma SafeDecimalOfContainer(v: Value)
    requires v.List? || v.Dict?
    ensures SafeDecimal(v) == None
  {
    var text := PyStr(v);
    assert text[0] == (if v.List? then '[' else '{');
    ParseRejectsLeadingChar(text);
  }
}
