/** Numbers: the parser's sum of whole and fraction is what all digits say, shifted by the exponent. */
module JsonNumerals {
  import opened Common
  import opened Json
  import opened JsonParser
  import opened JsonRoundTrip
  import opened JsonGrammar
  import Decimal

  lemma {:induction false} PowersAgree(n: int)
    requires n >= 0
    ensures PowerOfTen(n) == Decimal.TenTo(n) as real && PowerOfTen(-n) == 1.0 / Decimal.TenTo(n) as real
  {
    if n > 0 {
      PowersAgree(n - 1);
      assert PowerOfTen(-n) == PowerOfTen(-n + 1) / 10.0;
      var power := Decimal.TenTo(n - 1) as real;
      assert Decimal.TenTo(n) as real == 10.0 * power;
      assert 1.0 / power / 10.0 == 1.0 / (10.0 * power);
    }
  }

  function TokenOf(numeral: Numeral): NumberToken {
    var Numeral(minus, whole, _, fraction, exponent) := numeral;
    if exponent.None? then NumberToken(minus, whole, fraction, false, "", "")
    else NumberToken(minus, whole, fraction, true, exponent.value.sign, exponent.value.digits)
  }

  /** The parser's sum of whole and fraction is the number of all digits, shifted. */
  lemma TokenMeaning(numeral: Numeral)
    requires ValidNumeral(numeral)
    ensures TokenValue(TokenOf(numeral)) == Some(NumeralValue(numeral))
  {
    hide Decimal.Number, Decimal.TenTo, Scaled, Mixed, Shifted;
    var Numeral(_, whole, _, fraction, exponent) := numeral;
    var token, backwards := TokenOf(numeral), exponent.Some? && exponent.value.sign == "-";
    var e := Decimal.Number(token.exponent);
    assert |token.whole + token.fraction| > 0;
    ShiftedIsScaled(whole, fraction, backwards, e);
    assert exponent.None? ==> Decimal.TenTo(e) == 1 by {
      NothingIsZero();
      TenToNothing();
    }
  }

  lemma ShiftedIsScaled(whole: string, fraction: string, backwards: bool, e: int)
    requires AllDigits(whole) && AllDigits(fraction) && e >= 0
    ensures AllDigits(whole + fraction)
    ensures Shifted(Mixed(whole, fraction), if backwards then -e else e)
         == Scaled(Decimal.Number(whole + fraction) as real, Decimal.TenTo(|fraction|), backwards, Decimal.TenTo(e))
  {
    hide Decimal.Number, Decimal.TenTo, PowerOfTen, Shifted, Scaled, Mixed, IsDigit;
    Decimal.NumberIsPositional(whole, fraction);
    MixedIsQuotient(whole, fraction);
    var all, places := Decimal.Number(whole + fraction) as real, Decimal.TenTo(|fraction|);
    if backwards {
      ShiftedBack(all, places, e);
    } else {
      ShiftedOn(all, places, e);
    }
  }

  lemma MixedIsQuotient(whole: string, fraction: string)
    requires AllDigits(whole) && AllDigits(fraction) && AllDigits(whole + fraction)
    ensures Mixed(whole, fraction) == Decimal.Number(whole + fraction) as real / Decimal.TenTo(|fraction|) as real
  {
    hide Decimal.Number, PowerOfTen, Decimal.TenTo, IsDigit;
    Decimal.NumberIsPositional(whole, fraction);
    PowersAgree(|fraction|);
    RealOfDigits(Decimal.Number(whole), Decimal.TenTo(|fraction|), Decimal.Number(fraction));
    MixedNumber(Decimal.Number(whole) as real, Decimal.Number(fraction) as real, Decimal.TenTo(|fraction|) as real);
  }

  lemma RealOfDigits(whole: int, places: int, fraction: int)
    ensures (whole * places + fraction) as real == whole as real * places as real + fraction as real
  {
  }

  lemma ShiftedOn(all: real, places: int, e: int)
    requires places >= 1 && e >= 0
    ensures Shifted(all / places as real, e) == Scaled(all, places, false, Decimal.TenTo(e))
  {
    hide PowerOfTen, Decimal.TenTo;
    PowersAgree(e);
    Reordered(all, places as real, Decimal.TenTo(e) as real);
  }

  lemma ShiftedBack(all: real, places: int, e: int)
    requires places >= 1 && e >= 0
    ensures Shifted(all / places as real, -e) == Scaled(all, places, true, Decimal.TenTo(e))
  {
    hide PowerOfTen, Decimal.TenTo;
    PowersAgree(e);
    Reordered(all, places as real, Decimal.TenTo(e) as real);
  }

  lemma TenToNothing()
    ensures Decimal.TenTo(0) == 1
  {
  }

  lemma MixedNumber(whole: real, fraction: real, places: real)
    requires places > 0.0
    ensures whole + fraction * (1.0 / places) == (whole * places + fraction) / places
  {
  }

  lemma Reordered(digits: real, places: real, shift: real)
    requires places > 0.0 && shift > 0.0
    ensures digits / places * shift == digits * shift / places
    ensures digits / places * (1.0 / shift) == digits / (places * shift)
  {
  }

  lemma ExponentIsRead(exponent: Option<Exponent>, rest: string)
    requires exponent.Some? ==> ValidExponent(exponent.value)
    requires EndsNumber(rest)
    ensures ExponentAt(ExponentText(exponent) + rest) ==
            Parsed(if exponent.None? then (false, "", "") else (true, exponent.value.sign, exponent.value.digits), rest)
  {
    hide Decimal.DigitRun, ExponentAt;
    if exponent.None? {
      NoExponentRead(rest);
      assert "" + rest == rest;
    } else {
      var Exponent(letter, sign, digits) := exponent.value;
      var afterSign := digits + rest;
      assert ExponentText(exponent) + rest == [letter] + (sign + afterSign);
      Decimal.DigitRunOfDigits(digits, rest);
      assert IsDigit(digits[0]) && afterSign[0] == digits[0];
      assert afterSign[|digits|..] == rest;
      ExponentBehindLetter(letter, sign, afterSign);
    }
  }

  lemma NoExponentRead(rest: string)
    requires EndsNumber(rest)
    ensures ExponentAt(rest) == Parsed((false, "", ""), rest)
  {
  }

  lemma ExponentBehindLetter(letter: char, sign: string, afterSign: string)
    requires letter == 'e' || letter == 'E'
    requires sign == "" || sign == "+" || sign == "-"
    requires afterSign != "" && IsDigit(afterSign[0])
    ensures var digits := Decimal.DigitRun(afterSign);
            ExponentAt([letter] + (sign + afterSign)) == Parsed((true, sign, digits), afterSign[|digits|..])
  {
    hide Decimal.DigitRun, IsDigit;
    var behind := sign + afterSign;
    var text := [letter] + behind;
    SignIsRead(behind, sign, afterSign);
    assert behind[|sign|..] == afterSign;
    assert text[1..] == behind && text[1] == behind[0];
    assert text[1 + |sign|..] == afterSign;
  }

  lemma SignIsRead(text: string, sign: string, afterSign: string)
    requires text == sign + afterSign && afterSign != "" && IsDigit(afterSign[0])
    requires sign == "" || sign == "+" || sign == "-"
    ensures (if text[0] == '+' || text[0] == '-' then [text[0]] else "") == sign
  {
    if sign == "" {
      assert text == afterSign;
    }
  }

  lemma FractionIsRead(numeral: Numeral, rest: string)
    requires ValidNumeral(numeral) && (rest != "" ==> !IsDigit(rest[0]) && rest[0] != '.')
    ensures FractionAt(FractionText(numeral) + rest) == Parsed(numeral.fraction, rest)
  {
    hide Decimal.DigitRun;
    if numeral.point {
      var text := "." + numeral.fraction + rest;
      assert text[1..] == numeral.fraction + rest;
      Decimal.DigitRunOfDigits(numeral.fraction, rest);
      assert (numeral.fraction + rest)[|numeral.fraction|..] == rest;
    } else {
      assert "" + rest == rest;
    }
  }

  lemma NumeralIsToken(numeral: Numeral, rest: string)
    requires ValidNumeral(numeral) && EndsNumber(rest)
    ensures NumberTokenAt(NumeralText(numeral) + rest) == Parsed(TokenOf(numeral), rest)
  {
    hide Decimal.DigitRun, FractionAt, ExponentAt, FractionText, ExponentText, ValidExponent, NumeralText,
         NumberTokenAt;
    var Numeral(minus, whole, _, fraction, exponent) := numeral;
    var afterFraction := ExponentText(exponent) + rest;
    var afterWhole := FractionText(numeral) + afterFraction;
    var unsigned := whole + afterWhole;
    NumeralJoined(numeral, rest);
    ExponentIsRead(exponent, rest);
    EndsOfParts(numeral, rest);
    FractionIsRead(numeral, afterFraction);
    Decimal.DigitRunOfDigits(whole, afterWhole);
    assert unsigned[|whole|..] == afterWhole;
    assert !minus ==> unsigned[0] == whole[0] && IsDigit(whole[0]);
    TokenBehindSign(minus, unsigned);
  }

  lemma TokenBehindSign(minus: bool, unsigned: string)
    requires !minus ==> unsigned != "" && IsDigit(unsigned[0])
    ensures var whole := Decimal.DigitRun(unsigned);
            var Parsed(fraction, afterFraction) := FractionAt(unsigned[|whole|..]);
            var Parsed((hasExponent, sign, exponent), rest) := ExponentAt(afterFraction);
            NumberTokenAt((if minus then "-" else "") + unsigned) ==
            Parsed(NumberToken(minus, whole, fraction, hasExponent, sign, exponent), rest)
  {
    hide Decimal.DigitRun, FractionAt, ExponentAt;
    var text := (if minus then "-" else "") + unsigned;
    assert minus ==> text[0] == '-' && text[1..] == unsigned;
    assert !minus ==> text == unsigned;
  }

  lemma NumeralJoined(numeral: Numeral, rest: string)
    ensures NumeralText(numeral) + rest ==
            (if numeral.minus then "-" else "")
            + (numeral.whole + (FractionText(numeral) + (ExponentText(numeral.exponent) + rest)))
  {
    hide ExponentText, FractionText;
    var exponent := ExponentText(numeral.exponent);
    Joined(if numeral.minus then "-" else "", numeral.whole, FractionText(numeral), exponent, rest);
  }

  lemma Joined(a: string, b: string, c: string, d: string, e: string)
    ensures a + b + c + d + e == a + (b + (c + (d + e)))
  {
  }

  lemma EndsOfParts(numeral: Numeral, rest: string)
    requires ValidNumeral(numeral) && EndsNumber(rest)
    ensures var text := ExponentText(numeral.exponent) + rest; text != "" ==> !IsDigit(text[0]) && text[0] != '.'
    ensures var text := FractionText(numeral) + (ExponentText(numeral.exponent) + rest);
            text != "" ==> !IsDigit(text[0])
  {
    var later := ExponentText(numeral.exponent) + rest;
    if numeral.exponent.None? {
      assert later == rest;
    } else {
      assert later[0] == numeral.exponent.value.letter;
    }
    if numeral.point {
      assert (FractionText(numeral) + later)[0] == '.';
    } else {
      assert FractionText(numeral) + later == later;
    }
  }

  lemma NumeralIsRead(numeral: Numeral, rest: string)
    requires ValidNumeral(numeral) && EndsNumber(rest)
    ensures var text := NumeralText(numeral) + rest;
            && text != "" && (text[0] == '-' || IsDigit(text[0]))
            && NumberAt(text) == Some(Parsed(Json.Number(NumeralValue(numeral)), rest))
  {
    hide NumberTokenAt, TokenValue, NumeralValue;
    NumeralIsToken(numeral, rest);
    TokenMeaning(numeral);
    assert !numeral.minus ==> NumeralText(numeral)[0] == numeral.whole[0];
  }
}
