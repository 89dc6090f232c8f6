/** Python integer semantics the scripts rely on: floor division and modulo
    (which differ from Dafny's Euclidean operators on negative divisors),
    `str(int)`, `str.strip()` and `int(str)`. */
module PyInt {
  import opened Wrappers

  /** Python `a // b`: rounds toward negative infinity. */
  function FloorDiv(a: int, b: int): (q: int)
    requires b != 0
    ensures b > 0 ==> b * q <= a < b * q + b
    ensures b < 0 ==> b * q + b < a <= b * q
  {
    if b > 0 then a / b else (-a) / (-b)
  }

  /** Python `a % b`: the remainder takes the sign of the divisor. */
  function Mod(a: int, b: int): (r: int)
    requires b != 0
    ensures a == b * FloorDiv(a, b) + r
    ensures b > 0 ==> 0 <= r < b
    ensures b < 0 ==> b < r <= 0
  {
    a - b * FloorDiv(a, b)
  }

  /** For a positive divisor Python's operators agree with Dafny's. */
  lemma PositiveDivisorAgrees(a: int, b: int)
    requires b > 0
    ensures FloorDiv(a, b) == a / b && Mod(a, b) == a % b
  {
  }

  // ------------------------------------------------------ arithmetic helpers

  function Min(a: int, b: int): int {
    if a <= b then a else b
  }

  /** Multiplying by a non-negative factor keeps the order. */
  lemma MulLeq(a: int, b: int, q: int)
    requires a <= b && q >= 0
    ensures a * q <= b * q
  {
  }

  /** A positive factor can be cancelled from both sides of `<=`. */
  lemma MulCancel(c: int, a: int, b: int)
    requires c > 0 && c * a <= c * b
    ensures a <= b
  {
    assert c * a - c * b == c * (a - b);
  }

  // ---------------------------------------------------------------- str(int)

  predicate IsDigit(c: char) {
    '0' <= c <= '9'
  }

  predicate AllDigits(s: string) {
    forall i :: 0 <= i < |s| ==> IsDigit(s[i])
  }

  function DigitChar(d: nat): (c: char)
    requires d < 10
    ensures IsDigit(c) && c as int - '0' as int == d
  {
    ('0' as int + d) as char
  }

  /** `str(n)` for a non-negative integer: shortest decimal, no leading zero. */
  function NatToDecimal(n: nat): (s: string)
    ensures |s| > 0 && AllDigits(s)
    ensures |s| > 1 ==> s[0] != '0'
    decreases n
  {
    if n < 10 then [DigitChar(n)] else NatToDecimal(n / 10) + [DigitChar(n % 10)]
  }

  /** `str(i)` for any integer. */
  function IntToDecimal(i: int): (s: string)
    ensures |s| > 0
    ensures i < 0 <==> s[0] == '-'
    ensures i >= 0 ==> AllDigits(s)
  {
    if i < 0 then "-" + NatToDecimal(-i) else NatToDecimal(i)
  }

  /** The value of a string of decimal digits, most significant first. */
  function DigitsValue(s: string): nat
    requires AllDigits(s)
  {
    if |s| == 0 then 0
    else DigitsValue(s[..|s| - 1]) * 10 + (s[|s| - 1] as int - '0' as int)
  }

  lemma {:induction false} DigitsValueOfDecimal(n: nat)
    ensures DigitsValue(NatToDecimal(n)) == n
    decreases n
  {
    var s := NatToDecimal(n);
    if n >= 10 {
      DigitsValueOfDecimal(n / 10);
      assert s[..|s| - 1] == NatToDecimal(n / 10);
    }
  }

  // ------------------------------------------------------------ str.strip()

  /** The ASCII and Latin-1 characters for which Python's `str.isspace()` holds. */
  predicate IsSpace(c: char) {
    c == ' ' || '\t' <= c <= '\r' || '\U{1c}' <= c <= '\U{1f}' || c == '\U{85}' || c == '\U{a0}'
  }

  function StripLeft(s: string): (r: string)
    ensures |r| <= |s| && r == s[|s| - |r|..]
    ensures forall i :: 0 <= i < |s| - |r| ==> IsSpace(s[i])
    ensures |r| > 0 ==> !IsSpace(r[0])
  {
    if |s| > 0 && IsSpace(s[0]) then StripLeft(s[1..]) else s
  }

  function StripRight(s: string): (r: string)
    ensures |r| <= |s| && r == s[..|r|]
    ensures forall i :: |r| <= i < |s| ==> IsSpace(s[i])
    ensures |r| > 0 ==> !IsSpace(r[|r| - 1])
  {
    if |s| > 0 && IsSpace(s[|s| - 1]) then StripRight(s[..|s| - 1]) else s
  }

  /** Python `s.strip()`: drops leading and trailing whitespace. */
  function Strip(s: string): (r: string)
    ensures |r| <= |s|
    ensures |r| == 0 || (!IsSpace(r[0]) && !IsSpace(r[|r| - 1]))
    ensures (|s| == 0 || (!IsSpace(s[0]) && !IsSpace(s[|s| - 1]))) ==> r == s
  {
    StripRight(StripLeft(s))
  }

  // --------------------------------------------------------------- int(str)

  /** Python `int(s)` on a base-10 string: surrounding whitespace, an optional
      sign, then one or more ASCII digits; anything else raises ValueError,
      modelled as `None`. */
  function ParseInt(s: string): (r: Option<int>)
    ensures |Strip(s)| == 0 ==> r.None?
    ensures r.Some? ==> IsDigit(Strip(s)[|Strip(s)| - 1])
  {
    var t := Strip(s);
    if |t| == 0 then None
    else if t[0] == '+' || t[0] == '-' then
      var d := t[1..];
      if |d| > 0 && AllDigits(d) then
        Some(if t[0] == '-' then -(DigitsValue(d) as int) else DigitsValue(d))
      else
        None
    else if AllDigits(t) then Some(DigitsValue(t))
    else None
  }

  /** `t` is an integer literal as `int()` reads it once stripped: an optional
      `+` or `-`, then one or more ASCII digits. */
  ghost predicate SignedDecimal(t: string, sign: string, d: string) {
    (sign == "" || sign == "+" || sign == "-") && |d| > 0 && AllDigits(d) && t == sign + d
  }

  function SignedValue(sign: string, d: string): int
    requires AllDigits(d)
  {
    if sign == "-" then -(DigitsValue(d) as int) else DigitsValue(d)
  }

  /** `int(s)` accepts exactly the strings that are an optionally signed digit
      run once surrounding whitespace is stripped, and yields that run's
      signed value. */
  lemma ParseIntSpec(s: string)
    ensures ParseInt(s).Some? <==> exists sign, d :: SignedDecimal(Strip(s), sign, d)
    ensures forall sign, d :: SignedDecimal(Strip(s), sign, d) ==> ParseInt(s) == Some(SignedValue(sign, d))
  {
    forall sign, d | SignedDecimal(Strip(s), sign, d)
      ensures ParseInt(s) == Some(SignedValue(sign, d))
    {
      ParseIntAccepts(s, sign, d);
    }
    if ParseInt(s).Some? {
      ParseIntAccepted(s);
    }
  }

  /** Every signed digit run is read with its value. */
  lemma ParseIntAccepts(s: string, sign: string, d: string)
    requires SignedDecimal(Strip(s), sign, d)
    ensures ParseInt(s) == Some(SignedValue(sign, d))
  {
    if sign == "" {
      ParseIntAcceptsDigits(s, d);
    } else {
      ParseIntAcceptsSigned(s, sign, d);
    }
  }

  lemma ParseIntAcceptsDigits(s: string, d: string)
    requires |d| > 0 && AllDigits(d) && Strip(s) == d
    ensures ParseInt(s) == Some(DigitsValue(d))
  {
    assert IsDigit(d[0]);
  }

  lemma ParseIntAcceptsSigned(s: string, sign: string, d: string)
    requires (sign == "+" || sign == "-") && |d| > 0 && AllDigits(d) && Strip(s) == sign + d
    ensures ParseInt(s) == Some(SignedValue(sign, d))
  {
    var t := Strip(s);
    assert t[0] == sign[0];
    assert t[1..] == d;
  }

  /** Whatever `int()` reads is a signed digit run. */
  lemma ParseIntAccepted(s: string)
    requires ParseInt(s).Some?
    ensures exists sign, d :: SignedDecimal(Strip(s), sign, d)
  {
    var t := Strip(s);
    if t[0] == '+' || t[0] == '-' {
      assert t == t[..1] + t[1..];
      assert SignedDecimal(t, t[..1], t[1..]);
    } else {
      assert SignedDecimal(t, "", t);
    }
  }

  lemma StripTrailingNewline(s: string)
    requires |s| > 0 && !IsSpace(s[0]) && !IsSpace(s[|s| - 1])
    ensures Strip(s + "\n") == s
  {
    var t := s + "\n";
    assert StripLeft(t) == t;
    assert t[..|t| - 1] == s;
  }

  /** `int(str(i)) == i`, also when the text still carries its line terminator. */
  lemma {:induction false} ParseIntOfDecimal(i: int)
    ensures ParseInt(IntToDecimal(i)) == Some(i)
    ensures ParseInt(IntToDecimal(i) + "\n") == Some(i)
  {
    var s := IntToDecimal(i);
    assert !IsSpace(s[0]) && !IsSpace(s[|s| - 1]);
    StripTrailingNewline(s);
    assert Strip(s) == s;
    ParseIntOfCleanDecimal(i);
  }

  lemma ParseIntOfCleanDecimal(i: int)
    ensures ParseInt(IntToDecimal(i)) == Some(i)
  {
    if i < 0 {
      ParseIntOfNegativeDecimal(i);
    } else {
      ParseIntOfNatDecimal(i);
    }
  }

  lemma ParseIntOfNegativeDecimal(i: int)
    requires i < 0
    ensures ParseInt(IntToDecimal(i)) == Some(i)
  {
    var d := NatToDecimal(-i);
    var s := IntToDecimal(i);
    assert s == "-" + d;
    DigitsValueOfDecimal(-i);
    assert DigitsValue(d) == -i;
    ParseIntOfNegative(d);
    assert ParseInt(s) == Some(-(DigitsValue(d) as int));
  }

  lemma ParseIntOfNatDecimal(i: nat)
    ensures ParseInt(IntToDecimal(i)) == Some(i)
  {
    var d := NatToDecimal(i);
    DigitsValueOfDecimal(i);
    ParseIntOfDigits(d);
  }

  lemma StripOfSigned(d: string)
    requires |d| > 0 && AllDigits(d)
    ensures Strip("-" + d) == "-" + d
  {
    var s := "-" + d;
    assert !IsSpace(s[0]) && !IsSpace(s[|s| - 1]);
  }

  lemma ParseIntOfNegative(d: string)
    requires |d| > 0 && AllDigits(d)
    ensures ParseInt("-" + d) == Some(-(DigitsValue(d) as int))
  {
    var s := "-" + d;
    StripOfSigned(d);
    var t := Strip(s);
    assert t[0] == '-' && t[1..] == d;
  }

  lemma ParseIntOfDigits(d: string)
    requires |d| > 0 && AllDigits(d)
    ensures ParseInt(d) == Some(DigitsValue(d) as int)
  {
    assert IsDigit(d[0]) && IsDigit(d[|d| - 1]);
    assert Strip(d) == d;
  }
}
