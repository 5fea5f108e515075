/**
 Decimal text of integers: `std::to_string`, and the `std::stoll` and `std::stoull` that read it back.
 */
module Decimal {
  import opened Common

  const INT64_MIN := -0x8000_0000_0000_0000
  const INT64_MAX := 0x7FFF_FFFF_FFFF_FFFF
  const UINT64_MAX := 0xFFFF_FFFF_FFFF_FFFF

  // ---------------------------------------------------------------------------------------------
  // Writing

  function Digits(n: nat): (text: string)
    ensures text != ""
    ensures forall i | 0 <= i < |text| :: IsDigit(text[i])
  {
    (if n < 10 then "" else Digits(n / 10)) + ['0' + (n % 10) as char]
  }

  function ToString(n: int): (text: string)
    ensures text != "" && (text[0] == '-' || IsDigit(text[0]))
  {
    if n < 0 then "-" + Digits(-n) else Digits(n)
  }

  // ---------------------------------------------------------------------------------------------
  // Reading

  /** The longest prefix made of digits. */
  function DigitRun(text: string): (run: string)
    ensures run <= text && forall i | 0 <= i < |run| :: IsDigit(run[i])
    ensures |run| < |text| ==> !IsDigit(text[|run|])
  {
    if text != "" && IsDigit(text[0]) then [text[0]] + DigitRun(text[1..]) else ""
  }

  function Number(digits: string): (n: int)
    requires forall i | 0 <= i < |digits| :: IsDigit(digits[i])
    ensures n >= 0
  {
    if digits == "" then 0
    else
      assert IsDigit(digits[|digits| - 1]);
      Number(digits[..|digits| - 1]) * 10 + (digits[|digits| - 1] as int - '0' as int)
  }

  function SkipSpaces(text: string): (rest: string)
    ensures |rest| <= |text| && rest == text[|text| - |rest|..]
    ensures rest != "" ==> !IsSpace(rest[0])
  {
    if text != "" && IsSpace(text[0]) then SkipSpaces(text[1..]) else text
  }

  /** White space, an optional sign and a run of digits; whatever follows the digits is ignored. */
  function SignAndDigits(text: string): (bool, string) {
    var t := SkipSpaces(text);
    var signed := t != "" && (t[0] == '-' || t[0] == '+');
    (signed && t[0] == '-', DigitRun(if signed then t[1..] else t))
  }

  /** `std::stoll`; None stands for its two exceptions. */
  function ParseSigned(text: string): Option<int> {
    var (negative, digits) := SignAndDigits(text);
    if digits == "" then None
    else
      var n := if negative then -Number(digits) else Number(digits);
      if INT64_MIN <= n <= INT64_MAX then Some(n) else None
  }

  /** `std::stoull`: a minus sign is accepted, and negates modulo 2^64. */
  function ParseUnsigned(text: string): Option<int> {
    var (negative, digits) := SignAndDigits(text);
    if digits == "" || Number(digits) > UINT64_MAX then None
    else if negative && Number(digits) > 0 then Some(UINT64_MAX + 1 - Number(digits))
    else Some(Number(digits))
  }

  // ---------------------------------------------------------------------------------------------
  // Properties

  lemma {:induction false} DigitRunOfDigits(digits: string, rest: string)
    requires forall i | 0 <= i < |digits| :: IsDigit(digits[i])
    requires rest != "" ==> !IsDigit(rest[0])
    ensures DigitRun(digits + rest) == digits
  {
    if digits != "" {
      assert (digits + rest)[1..] == digits[1..] + rest;
      DigitRunOfDigits(digits[1..], rest);
    } else {
      assert digits + rest == rest;
    }
  }

  lemma {:induction false} NumberOfDigits(n: nat)
    ensures Number(Digits(n)) == n
  {
    var text := Digits(n);
    assert text[|text| - 1] as int - '0' as int == n % 10;
    if n >= 10 {
      NumberOfDigits(n / 10);
      assert text[..|text| - 1] == Digits(n / 10);
    }
  }

  /** A natural power of ten. */
  function TenTo(n: nat): (power: int)
    ensures power >= 1
  {
    if n == 0 then 1 else 10 * TenTo(n - 1)
  }

  /** The value of a digit counts ten times for each digit behind it. */
  lemma {:induction false} NumberIsPositional(x: string, y: string)
    requires forall i | 0 <= i < |x| :: IsDigit(x[i])
    requires forall i | 0 <= i < |y| :: IsDigit(y[i])
    ensures forall i | 0 <= i < |x + y| :: IsDigit((x + y)[i])
    ensures Number(x + y) == Number(x) * TenTo(|y|) + Number(y)
    ensures |y| == 1 ==> Number(y) == y[0] as int - '0' as int
  {
    if y == "" {
      assert x + y == x;
    } else {
      var z, last := y[..|y| - 1], y[|y| - 1];
      NumberIsPositional(x, z);
      assert (x + y)[..|x + y| - 1] == x + z && (x + y)[|x + y| - 1] == last;
      assert TenTo(|y|) == 10 * TenTo(|z|);
      TimesTen(Number(x), TenTo(|z|));
    }
  }

  lemma TimesTen(n: int, power: int)
    ensures n * power * 10 == n * (10 * power)
  {
  }

  lemma {:induction false} DigitsOfNumber(digits: string)
    requires digits != "" && forall i | 0 <= i < |digits| :: IsDigit(digits[i])
    requires digits[0] == '0' ==> |digits| == 1
    ensures Digits(Number(digits)) == digits
    decreases |digits|
  {
    var last := |digits| - 1;
    var front, d := digits[..last], digits[last] as int - '0' as int;
    assert digits == front + [digits[last]] && IsDigit(digits[last]);
    if last == 0 {
      assert front == "" && Number("") == 0;
    } else {
      assert front[0] == digits[0];
      DigitsOfNumber(front);
      hide Number;
      assert Digits(0) == "0";
      OneMoreDigit(Number(front), digits[last]);
    }
  }

  lemma OneMoreDigit(n: nat, digit: char)
    requires n > 0 && IsDigit(digit)
    ensures Digits(n * 10 + (digit as int - '0' as int)) == Digits(n) + [digit]
  {
  }

  lemma {:induction false} NoLeadingZero(n: nat)
    ensures Digits(n)[0] == '0' ==> |Digits(n)| == 1
  {
    if n >= 10 {
      NoLeadingZero(n / 10);
    }
  }

  /** Of all digits that stand for a number, only those without a superfluous zero in front are written. */
  lemma OnlyDigits(n: nat, digits: string)
    requires digits != "" && forall i | 0 <= i < |digits| :: IsDigit(digits[i])
    ensures digits == Digits(n) <==> Number(digits) == n && (digits[0] == '0' ==> |digits| == 1)
  {
    hide Digits, Number;
    NumberOfDigits(n);
    NoLeadingZero(n);
    if digits[0] == '0' ==> |digits| == 1 {
      DigitsOfNumber(digits);
    }
  }

  lemma SignAndDigitsOf(sign: string, digits: string)
    requires sign == "" || sign == "-"
    requires digits != "" && forall i | 0 <= i < |digits| :: IsDigit(digits[i])
    ensures SignAndDigits(sign + digits) == (sign == "-", digits)
  {
    hide DigitRun;
    var text := sign + digits;
    assert DigitRun(digits) == digits by {
      DigitRunOfDigits(digits, "");
      assert digits + "" == digits;
    }
    assert IsDigit(digits[0]);
    if sign == "" {
      assert text == digits;
    } else {
      assert text[0] == '-' && text[1..] == digits;
    }
  }

  lemma {:induction false} SpacesAreSkipped(spaces: string, text: string)
    requires forall i | 0 <= i < |spaces| :: IsSpace(spaces[i])
    ensures SkipSpaces(spaces + text) == SkipSpaces(text)
  {
    if spaces == "" {
      assert spaces + text == text;
    } else {
      assert (spaces + text)[1..] == spaces[1..] + text;
      SpacesAreSkipped(spaces[1..], text);
    }
  }

  /** White space before a sign and junk behind the digits do not matter to either parser. */
  lemma ParsedLine(spaces: string, sign: string, digits: string, junk: string)
    requires forall i | 0 <= i < |spaces| :: IsSpace(spaces[i])
    requires sign == "" || sign == "+" || sign == "-"
    requires forall i | 0 <= i < |digits| :: IsDigit(digits[i])
    requires junk != "" ==> !IsDigit(junk[0])
    requires digits == "" && sign == "" ==> junk == "" || (!IsSpace(junk[0]) && junk[0] != '+' && junk[0] != '-')
    ensures var text, n := spaces + (sign + (digits + junk)), if sign == "-" then -Number(digits) else Number(digits);
            && ParseSigned(text) == (if digits != "" && INT64_MIN <= n <= INT64_MAX then Some(n) else None)
            && ParseUnsigned(text) == (if digits == "" || n < -UINT64_MAX || n > UINT64_MAX then None
                                       else Some(if n < 0 then n + UINT64_MAX + 1 else n))
  {
    hide Number, SignAndDigits;
    SignAndDigitsOfLine(spaces, sign, digits, junk);
  }

  lemma SignAndDigitsOfLine(spaces: string, sign: string, digits: string, junk: string)
    requires forall i | 0 <= i < |spaces| :: IsSpace(spaces[i])
    requires sign == "" || sign == "+" || sign == "-"
    requires forall i | 0 <= i < |digits| :: IsDigit(digits[i])
    requires junk != "" ==> !IsDigit(junk[0])
    requires digits == "" && sign == "" ==> junk == "" || (!IsSpace(junk[0]) && junk[0] != '+' && junk[0] != '-')
    ensures SignAndDigits(spaces + (sign + (digits + junk))) == (sign == "-", digits)
  {
    hide DigitRun, SkipSpaces, SignAndDigits;
    var later := digits + junk;
    DigitRunOfDigits(digits, junk);
    StartOf(digits, junk);
    StartOf(sign, later);
    SpacesAreSkipped(spaces, sign + later);
    NothingSkipped(sign + later);
    SignAndDigitsAfter(spaces + (sign + later), sign, later);
  }

  lemma StartOf(front: string, back: string)
    ensures front == "" ==> front + back == back
    ensures front != "" ==> front + back != "" && (front + back)[0] == front[0]
  {
  }

  lemma NothingSkipped(text: string)
    requires text != "" ==> !IsSpace(text[0])
    ensures SkipSpaces(text) == text
  {
  }

  lemma SignAndDigitsAfter(text: string, sign: string, later: string)
    requires SkipSpaces(text) == sign + later
    requires sign == "" || sign == "+" || sign == "-"
    requires sign == "" && later != "" ==> later[0] != '-' && later[0] != '+'
    ensures SignAndDigits(text) == (sign == "-", DigitRun(later))
  {
    hide DigitRun, SkipSpaces;
    assert sign == "" ==> sign + later == later;
    assert sign != "" ==> (sign + later)[1..] == later && (sign + later)[0] == sign[0];
  }

  lemma SignAndDigitsOfString(n: int)
    ensures SignAndDigits(ToString(n)) == (n < 0, Digits(if n < 0 then -n else n))
  {
    hide SignAndDigits, Digits;
    var digits := Digits(if n < 0 then -n else n);
    SignAndDigitsOf(if n < 0 then "-" else "", digits);
    assert "" + digits == digits;
  }

  /** What `std::stoll` makes of the decimal text of any integer: the integer, or nothing out of its range. */
  lemma SignedOfText(n: int)
    ensures ParseSigned(ToString(n)) == if INT64_MIN <= n <= INT64_MAX then Some(n) else None
  {
    hide SignAndDigits, ToString;
    SignAndDigitsOfString(n);
    NumberOfDigits(if n < 0 then -n else n);
  }

  /** What `std::stoull` makes of it: a negative integer is not rejected, it wraps around. */
  lemma UnsignedOfText(n: int)
    ensures ParseUnsigned(ToString(n)) ==
            if 0 <= n <= UINT64_MAX then Some(n)
            else if -UINT64_MAX <= n < 0 then Some(n + UINT64_MAX + 1)
            else None
  {
    hide SignAndDigits, ToString;
    SignAndDigitsOfString(n);
    NumberOfDigits(if n < 0 then -n else n);
  }

  /** Every 64-bit integer survives the trip through its decimal text. */
  lemma RoundTrip(n: int)
    ensures INT64_MIN <= n <= INT64_MAX ==> ParseSigned(ToString(n)) == Some(n)
    ensures 0 <= n <= UINT64_MAX ==> ParseUnsigned(ToString(n)) == Some(n)
  {
    hide ParseSigned, ParseUnsigned, ToString;
    SignedOfText(n);
    UnsignedOfText(n);
  }
}
