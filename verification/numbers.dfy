/**
  The string-to-number conversion `Number(text)` for the decimal integer
  literals the quantity field produces, and the decimal rendering that is
  its inverse.
*/
module Numbers {
  import opened Text

  /** A JavaScript number restricted to integers, plus `NaN`. */
  datatype JsNumber = NaN | Num(value: int)

  predicate IsDigit(c: char) {
    '0' <= c <= '9'
  }

  /** One or more decimal digits. */
  predicate IsDigits(s: string) {
    s != [] && forall k :: 0 <= k < |s| ==> IsDigit(s[k])
  }

  /** The value of a run of digits, read most significant first. */
  function DigitsValue(s: string): nat
    requires forall k :: 0 <= k < |s| ==> IsDigit(s[k])
  {
    if s == [] then 0
    else
      var last := s[|s| - 1];
      assert IsDigit(last);
      DigitsValue(s[..|s| - 1]) * 10 + (last as int - '0' as int)
  }

  /**
    `Number(text)`: white space around the literal is ignored, the empty
    (or all-blank) text is 0, an optional sign may precede the digits, and
    anything else is NaN.
  */
  function ToNumber(text: string): JsNumber {
    var t := Trim(text);
    if t == [] then Num(0)
    else if t[0] == '-' then (if IsDigits(t[1..]) then Num(-(DigitsValue(t[1..]) as int)) else NaN)
    else if t[0] == '+' then (if IsDigits(t[1..]) then Num(DigitsValue(t[1..])) else NaN)
    else if IsDigits(t) then Num(DigitsValue(t))
    else NaN
  }

  function DigitChar(d: nat): (c: char)
    requires d < 10
    ensures IsDigit(c) && c as int - '0' as int == d
  {
    ('0' as int + d) as char
  }

  /** Decimal rendering of a natural number, without leading zeros. */
  function ShowNat(n: nat): (s: string)
    ensures IsDigits(s)
    ensures s[0] == '0' ==> n == 0
  {
    if n < 10 then [DigitChar(n)] else ShowNat(n / 10) + [DigitChar(n % 10)]
  }

  /** Decimal rendering of an integer, as `String(n)` writes it. */
  function ShowInt(n: int): (s: string)
    ensures s != [] && !IsSpace(s[0]) && !IsSpace(s[|s| - 1])
  {
    if n < 0 then "-" + ShowNat(-n) else ShowNat(n)
  }

  lemma {:induction false} DigitsValueShowNat(n: nat)
    ensures DigitsValue(ShowNat(n)) == n
  {
    if n >= 10 {
      var s := ShowNat(n);
      assert s[..|s| - 1] == ShowNat(n / 10);
      DigitsValueShowNat(n / 10);
    }
  }

  /** Reading back what `ShowInt` wrote gives the same number. */
  lemma ToNumberShowInt(n: int)
    ensures ToNumber(ShowInt(n)) == Num(n)
  {
    var s := ShowInt(n);
    TrimmedIsFixed(s);
    if n < 0 {
      assert s[1..] == ShowNat(-n);
      DigitsValueShowNat(-n);
    } else {
      DigitsValueShowNat(n);
    }
  }
}
