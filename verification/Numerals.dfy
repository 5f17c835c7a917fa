/** Numbers written in a radix: how they are printed, and how the string constructor reads them back. */
module Numerals {
  import opened Words

  const DIGITS := "0123456789abcdefghijklmnopqrstuvwxyz"

  type Radix = r: nat | 2 <= r <= 36 witness 10

  function Power(b: nat, k: nat): (p: nat)
    ensures b > 0 ==> p > 0
  {
    if k == 0 then 1 else b * Power(b, k - 1)
  }

  function Digit(d: nat): (ch: char)
    requires d < 36
    ensures ch as int == if d < 10 then '0' as int + d else 'a' as int + d - 10
  {
    DIGITS[d]
  }

  lemma {:induction false} PowerAdd(b: nat, j: nat, k: nat)
    ensures Power(b, j + k) == Power(b, j) * Power(b, k)
    decreases k
  {
    if k > 0 {
      PowerStep(b, k);
      PowerStep(b, j + k);
      hide Power;
      PowerAdd(b, j, k - 1);
      Exchange(b, Power(b, j), Power(b, k - 1));
    }
  }

  lemma PowerStep(b: nat, k: nat)
    requires k > 0
    ensures Power(b, k) == b * Power(b, k - 1)
  {
  }

  lemma Exchange(b: nat, p: nat, q: nat)
    ensures b * (p * q) == p * (b * q)
  {
  }

  function Upper(n: nat, radix: Radix): (u: nat)
    ensures n > 0 ==> u < n
  {
    if n == 0 then 0 else
      DivStrict(n, radix);
      n / radix
  }

  function LowDigit(n: nat, radix: Radix): (d: nat)
    ensures d < radix && n == Upper(n, radix) * radix + d
  {
    DivMod(n, radix);
    n % radix
  }

  // The digits of n, highest first; none for zero.
  function Numeral(n: nat, radix: Radix): string {
    if n == 0 then "" else Numeral(Upper(n, radix), radix) + [Digit(LowDigit(n, radix))]
  }

  function Decimal(n: nat): string {
    if n == 0 then "0" else Numeral(n, 10)
  }

  // Each place holds its digit, and the first one is not zero.
  lemma {:induction false} NumeralAt(n: nat, radix: Radix, i: nat)
    requires i < |Numeral(n, radix)|
    ensures Numeral(n, radix)[|Numeral(n, radix)| - 1 - i] == Digit(n / Power(radix, i) % radix)
    ensures Power(radix, i) <= n
    decreases n
  {
    hide Digit;
    if i > 0 {
      NumeralAt(Upper(n, radix), radix, i - 1);
      DivDiv(n, radix, Power(radix, i - 1));
      ScaledBound(Power(radix, i - 1), n, radix);
    }
  }

  lemma ScaledBound(p: nat, n: nat, radix: Radix)
    requires p <= Upper(n, radix)
    ensures radix * p <= n
  {
    ProductSign(radix, Upper(n, radix) - p);
    assert radix * (Upper(n, radix) - p) == Upper(n, radix) * radix - radix * p;
  }

  // ---------- Reading ----------

  // -1 for a character that ends the number.
  function DigitValue(ch: char, radix: Radix): (v: int)
    ensures -1 <= v < radix
  {
    if 'A' <= ch <= 'Z' then
      if ch as int - 'A' as int + 10 < radix then ch as int - 'A' as int + 10 else -1
    else if 'a' <= ch <= 'z' then
      if ch as int - 'a' as int + 10 < radix then ch as int - 'a' as int + 10 else -1
    else if '0' <= ch <= '9' then
      if ch as int - '0' as int < radix then ch as int - '0' as int else -1
    else -1
  }

  // The digits from ten on are letters, lower or upper case.
  lemma DigitValueIs(ch: char, radix: Radix, d: nat)
    ensures DigitValue(ch, radix) == d <==>
      && d < radix
      && if d < 10 then ch as int == '0' as int + d
         else ch as int == 'a' as int + (d - 10) || ch as int == 'A' as int + (d - 10)
  {
  }

  // The number a string of digits stands for, by their weights.
  function Weighted(digits: string, radix: Radix): int {
    if digits == "" then 0 else
      DigitValue(digits[0], radix) * Power(radix, |digits| - 1) + Weighted(digits[1..], radix)
  }

  // What the digits in front of text add to a number already read.
  function ReadFrom(read: nat, text: string, radix: Radix): nat
    decreases |text|
  {
    if text == "" || DigitValue(text[0], radix) < 0 then read
    else ReadFrom(read * radix + DigitValue(text[0], radix), text[1..], radix)
  }

  // The reader's sums are the number that the digits in front stand for, whatever follows them.
  lemma {:induction false} ReadIsWeighted(read: nat, text: string, k: nat, radix: Radix)
    requires k <= |text| && (k < |text| ==> DigitValue(text[k], radix) < 0)
    requires forall i :: 0 <= i < k ==> DigitValue(text[i], radix) >= 0
    ensures ReadFrom(read, text, radix) == read * Power(radix, k) + Weighted(text[..k], radix)
    decreases k
  {
    hide DigitValue;
    if k > 0 {
      var d := DigitValue(text[0], radix);
      ReadIsWeighted(read * radix + d, text[1..], k - 1, radix);
      assert text[1..][..k - 1] == text[..k][1..];
      Distribute(read, radix, d, Power(radix, k - 1));
    }
  }

  lemma Distribute(read: int, b: int, d: int, p: int)
    ensures (read * b + d) * p == read * (b * p) + d * p
  {
  }

  // A leading 0 means octal, 0x hexadecimal.
  function Magnitude(text: string): nat {
    if text == "" || text[0] != '0' then ReadFrom(0, text, 10)
    else if |text| == 1 || text[1] != 'x' then ReadFrom(0, text[1..], 8)
    else ReadFrom(0, text[2..], 16)
  }

  // The 128 bits that a text stands for.
  function Parsed(text: string): (v: nat)
    ensures v < B128
  {
    if text != "" && text[0] == '-' then (B128 - Magnitude(text[1..]) % B128) % B128
    else Magnitude(text) % B128
  }

  function Prefix(radix: Radix): string {
    if radix == 8 then "0" else if radix == 16 then "0x" else ""
  }

  // ---------- Reading gives back what was printed ----------

  lemma DigitIsItself(d: nat, radix: Radix)
    requires d < radix
    ensures DigitValue(Digit(d), radix) == d
  {
    hide Digit;
  }

  lemma DigitsArePlain(d: nat)
    requires d < 16
    ensures Digit(d) !in "-x." && Digit(d) != '\0' && (Digit(d) == '0' <==> d == 0)
  {
  }

  lemma {:induction false} ReadNumeral(n: nat, radix: Radix, rest: string)
    ensures ReadFrom(0, Numeral(n, radix) + rest, radix) == ReadFrom(n, rest, radix)
    decreases n
  {
    hide Digit, DigitValue, Upper, LowDigit;
    if n == 0 {
      assert Numeral(n, radix) + rest == rest;
    } else {
      var last := Digit(LowDigit(n, radix));
      var more := [last] + rest;
      assert Numeral(n, radix) + rest == Numeral(Upper(n, radix), radix) + more;
      ReadNumeral(Upper(n, radix), radix, more);
      DigitIsItself(LowDigit(n, radix), radix);
      assert more[1..] == rest;
    }
  }

  lemma {:induction false} LeadingDigit(n: nat, radix: Radix) returns (d: nat)
    requires n > 0
    ensures 0 < d < radix && Numeral(n, radix) != "" && Numeral(n, radix)[0] == Digit(d)
    decreases n
  {
    hide Digit, Upper, LowDigit;
    if Upper(n, radix) == 0 {
      d := LowDigit(n, radix);
    } else {
      d := LeadingDigit(Upper(n, radix), radix);
    }
  }

  lemma MagnitudeOfNumeral(n: nat, radix: Radix)
    requires radix == 8 || radix == 10 || radix == 16
    ensures var body := Prefix(radix) + Numeral(n, radix);
            Magnitude(body) == n && (body == "" || body[0] != '-')
  {
    hide Digit, DigitValue, ReadFrom;
    var digits := Numeral(n, radix);
    var body := Prefix(radix) + digits;
    if n > 0 {
      var d := LeadingDigit(n, radix);
      DigitsArePlain(d);
    }
    hide Numeral;
    ReadNumeral(n, radix, "");
    ReadNothing(n, radix);
    assert digits + "" == digits;
    if radix == 8 {
      assert body[1..] == digits;
    } else if radix == 16 {
      assert body[2..] == digits;
    } else {
      assert body == digits;
    }
  }

  lemma ReadNothing(n: nat, radix: Radix)
    ensures ReadFrom(n, "", radix) == n && Numeral(0, radix) == ""
  {
  }

  // For every number, also one of more than 128 bits, and in the three radices the prefix can name.
  lemma PrintThenParse(n: nat, radix: Radix, minus: bool)
    requires radix == 8 || radix == 10 || radix == 16
    ensures
      var prefix := if radix == 8 then "0" else if radix == 16 then "0x" else "";
      Parsed((if minus then "-" else "") + (prefix + Numeral(n, radix))) == (if minus then (B128 - n % B128) % B128 else n % B128)
  {
    MagnitudeOfNumeral(n, radix);
    hide Numeral, Parsed, Magnitude;
    ParsedSigned(Prefix(radix) + Numeral(n, radix), minus);
  }

  lemma ParsedSigned(body: string, minus: bool)
    requires body == "" || body[0] != '-'
    ensures Parsed((if minus then "-" else "") + body)
         == (if minus then (B128 - Magnitude(body) % B128) % B128 else Magnitude(body) % B128)
  {
    hide Magnitude;
    if minus {
      assert ("-" + body)[1..] == body;
    } else {
      assert "" + body == body;
    }
  }

  lemma DecimalRoundTrip(n: nat)
    ensures Parsed(Decimal(n)) == n % B128
  {
    PrintThenParse(n, if n == 0 then 8 else 10, false);
    assert n > 0 ==> "" + (Prefix(10) + Numeral(n, 10)) == Numeral(n, 10);
    assert n == 0 ==> "" + (Prefix(8) + Numeral(n, 8)) == "0";
  }

  // ---------- How many digits there are ----------

  lemma {:induction false} NumeralFits(n: nat, radix: Radix, k: nat)
    requires n < Power(radix, k)
    ensures |Numeral(n, radix)| <= k
    decreases k
  {
    if n > 0 && k > 0 {
      DivBound(n, radix, Power(radix, k - 1));
      NumeralFits(Upper(n, radix), radix, k - 1);
    }
  }

  lemma DecimalOf128Bits(n: nat)
    requires n < B128
    ensures |Numeral(n, 10)| <= 39
  {
    assert Power(10, 13) == 10_000_000_000_000;
    PowerAdd(10, 13, 13);
    PowerAdd(10, 26, 13);
    NumeralFits(n, 10, 39);
  }

  // ---------- Strings that a zero character ends ----------

  function CString(s: string): string {
    if s == "" || s[0] == '\0' then "" else [s[0]] + CString(s[1..])
  }

  lemma {:induction false} CStringUntilZero(s: string, rest: string)
    requires '\0' !in s
    ensures CString(s + ['\0'] + rest) == s
  {
    if s == "" {
      assert s + ['\0'] + rest == ['\0'] + rest;
    } else {
      assert (s + ['\0'] + rest)[1..] == s[1..] + ['\0'] + rest;
      CStringUntilZero(s[1..], rest);
    }
  }

  lemma {:induction false} NumeralIsPlain(n: nat, radix: Radix)
    requires radix <= 16
    ensures '\0' !in Numeral(n, radix) && '.' !in Numeral(n, radix)
    decreases n
  {
    hide Digit, Upper, LowDigit;
    if n > 0 {
      DigitsArePlain(LowDigit(n, radix));
      NumeralIsPlain(Upper(n, radix), radix);
    }
  }
}
