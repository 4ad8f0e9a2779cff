/**
 * The JavaScript values a data record may supply to a placeholder: strings and
 * integers, with JavaScript's truthiness rule and its `String(v)` conversion.
 */
module JsValue {

  datatype Value = Str(s: string) | Int(n: int)

  /** `!!v` in JavaScript: the empty string and zero are falsy, everything else is truthy. */
  predicate Truthy(v: Value)
  {
    match v
    case Str(s) => s != ""
    case Int(n) => n != 0
  }

  predicate IsDigit(c: char)
  {
    '0' <= c <= '9'
  }

  predicate AllDigits(s: string)
  {
    forall i :: 0 <= i < |s| ==> IsDigit(s[i])
  }

  function Digit(d: nat): (c: char)
    requires d < 10
    ensures IsDigit(c) && c as int - '0' as int == d
  {
    ('0' as int + d) as char
  }

  /** The decimal numeral of `n`, as `String(n)` writes it: no sign and no leading zero. */
  function NatToDecimal(n: nat): (s: string)
    ensures |s| >= 1 && AllDigits(s)
    ensures s[0] == '0' ==> n == 0
  {
    if n < 10 then [Digit(n)] else NatToDecimal(n / 10) + [Digit(n % 10)]
  }

  /** The number a string of decimal digits denotes; the inverse of `NatToDecimal`. */
  function DecimalValue(s: string): nat
    requires AllDigits(s)
  {
    if s == [] then 0 else DecimalValue(s[..|s| - 1]) * 10 + (s[|s| - 1] as int - '0' as int)
  }

  lemma {:induction false} DecimalRoundTrip(n: nat)
    ensures DecimalValue(NatToDecimal(n)) == n
  {
    if n >= 10 {
      var s := NatToDecimal(n);
      assert s[..|s| - 1] == NatToDecimal(n / 10);
      DecimalRoundTrip(n / 10);
    }
  }

  /** `String(v)`: a string stays as it is, an integer becomes its decimal numeral. */
  function ToString(v: Value): (s: string)
    ensures Truthy(v) ==> s != ""
    ensures v.Int? ==> |s| >= 1 && (s[0] == '-' <==> v.n < 0)
    ensures v.Int? && v.n < 0 ==> |s| >= 2 && AllDigits(s[1..]) && s[1] != '0'
    ensures v.Int? && v.n >= 0 ==> AllDigits(s) && (s[0] == '0' <==> v.n == 0)
  {
    match v
    case Str(s) => s
    case Int(n) => if n < 0 then "-" + NatToDecimal(-n) else NatToDecimal(n)
  }

  /** Reads back an integer numeral produced by `ToString`. */
  function ParseInt(s: string): int
    requires |s| >= 1
    requires if s[0] == '-' then AllDigits(s[1..]) else AllDigits(s)
  {
    if s[0] == '-' then -(DecimalValue(s[1..]) as int) else DecimalValue(s)
  }

  /** Converting an integer to a string loses nothing: the numeral reads back as the same integer. */
  lemma IntToStringRoundTrip(n: int)
    ensures var s := ToString(Int(n));
            |s| >= 1 && (if s[0] == '-' then AllDigits(s[1..]) else AllDigits(s)) && ParseInt(s) == n
  {
    var s := ToString(Int(n));
    if n < 0 {
      assert s[1..] == NatToDecimal(-n);
      DecimalRoundTrip(-n);
    } else {
      DecimalRoundTrip(n);
    }
  }

  /** `String(1337)` is `"1337"`. */
  lemma ToStringExample()
    ensures ToString(Int(1337)) == "1337"
  {
  }
}
