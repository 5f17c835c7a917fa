/** The text of a fixed-point number with 18 decimal places: what printing writes and what parsing reads. */
module RealText {
  import opened Common
  import opened Words
  import opened Numerals

  const PRECISION: nat := 1_000_000_000_000_000_000
  const PLACES: nat := 18

  // The number of digits in front of text.
  function DigitCount(text: string): (n: nat)
    ensures n <= |text|
  {
    if text == "" || DigitValue(text[0], 10) < 0 then 0 else 1 + DigitCount(text[1..])
  }

  // Division of two fixed-point numbers, kept in 128 bits.
  function Quotient(a: nat, b: nat): nat
    requires b > 0
  {
    DivMod(a * PRECISION, b);
    (a * PRECISION / b) % B128
  }

  // Places after the point, read with 64-bit accumulators that wrap; None where the division throws.
  function Fraction(digits: string): Option<nat> {
    var frac, magnitude := ReadFrom(0, digits, 10) % B64, Power(10, DigitCount(digits)) % B64;
    if magnitude == 0 then None else
      ProductSign(magnitude, PRECISION);
      Some(Quotient(frac * PRECISION, magnitude * PRECISION))
  }

  // The integer part wraps to 64 bits.
  function Whole(read: nat): nat {
    read % B64 * PRECISION
  }

  function WithPlaces(whole: nat, tail: string): Option<nat> {
    if DigitCount(tail) == 0 then Some(whole) else
      match Fraction(tail)
      case None => None
      case Some(f) => Some((whole + f) % B128)
  }

  // None where the parser asserts or throws.
  function ParsedReal(text: string): Option<nat> {
    var n := DigitCount(text);
    var whole := Whole(ReadFrom(0, text, 10));
    if n == 0 && (text == "" || text[0] != '.') then None
    else if n == |text| || text[n] != '.' then Some(whole)
    else WithPlaces(whole, text[n + 1..])
  }

  function StripZeros(s: string): string {
    if s != "" && s[|s| - 1] == '0' then StripZeros(s[..|s| - 1]) else s
  }

  function PrintedReal(fixed: nat): string {
    var frac := Numeral(fixed % PRECISION + PRECISION, 10);
    StripZeros(Decimal(fixed / PRECISION) + "." + if frac == "" then "" else frac[1..])
  }

  // ---------- Digits with leading zeros ----------

  function Padded(f: nat, k: nat): string {
    if k == 0 then "" else Padded(Upper(f, 10), k - 1) + [Digit(LowDigit(f, 10))]
  }

  lemma {:induction false} PaddedLength(f: nat, k: nat)
    ensures |Padded(f, k)| == k
  {
    if k > 0 {
      PaddedLength(Upper(f, 10), k - 1);
    }
  }

  // Adding 10^k makes the k lower digits appear in full.
  lemma {:induction false} PrintWithLeadingOne(f: nat, k: nat)
    requires f < Power(10, k)
    ensures Numeral(Power(10, k) + f, 10) == "1" + Padded(f, k)
    decreases k
  {
    hide Digit;
    if k == 0 {
      assert Numeral(1, 10) == Numeral(0, 10) + ['1'];
    } else {
      var p, n := Power(10, k - 1), Power(10, k) + f;
      assert Upper(n, 10) == p + Upper(f, 10) && LowDigit(n, 10) == LowDigit(f, 10);
      PrintWithLeadingOne(Upper(f, 10), k - 1);
    }
  }

  lemma {:induction false} ReadPadded(read: nat, f: nat, k: nat, rest: string)
    requires f < Power(10, k)
    ensures ReadFrom(read, Padded(f, k) + rest, 10) == ReadFrom(read * Power(10, k) + f, rest, 10)
    ensures DigitCount(Padded(f, k) + rest) == k + DigitCount(rest)
    decreases k
  {
    hide Digit, DigitValue, Upper, LowDigit;
    if k == 0 {
      assert Padded(f, k) + rest == rest;
    } else {
      var u, d := Upper(f, 10), LowDigit(f, 10);
      var more := [Digit(d)] + rest;
      assert Padded(f, k) + rest == Padded(u, k - 1) + more;
      ReadPadded(read, u, k - 1, more);
      DigitIsItself(d, 10);
      assert more[1..] == rest;
      AppendedValue(read, u, d, Power(10, k - 1));
    }
  }

  lemma AppendedValue(read: nat, u: nat, d: nat, p: nat)
    ensures (read * p + u) * 10 + d == read * (10 * p) + (u * 10 + d)
  {
  }

  lemma {:induction false} CountNumeral(n: nat, rest: string)
    ensures DigitCount(Numeral(n, 10) + rest) == |Numeral(n, 10)| + DigitCount(rest)
    decreases n
  {
    hide Digit, DigitValue, Upper, LowDigit;
    if n == 0 {
      assert Numeral(n, 10) + rest == rest;
    } else {
      var more := [Digit(LowDigit(n, 10))] + rest;
      assert Numeral(n, 10) + rest == Numeral(Upper(n, 10), 10) + more;
      CountNumeral(Upper(n, 10), more);
      DigitIsItself(LowDigit(n, 10), 10);
      assert more[1..] == rest;
    }
  }

  // ---------- Trailing zeros ----------

  // Popping zeros leaves g with j places, of the same value.
  lemma {:induction false} StripPadded(front: string, f: nat, k: nat) returns (g: nat, j: nat)
    requires f < Power(10, k)
    ensures j <= k && g < Power(10, j) && f == g * Power(10, k - j)
    ensures StripZeros(front + "." + Padded(f, k)) == front + "." + Padded(g, j)
    decreases k
  {
    hide Digit, Upper, LowDigit;
    g, j := f, k;
    if k == 0 {
      var s := front + "." + Padded(f, k);
      assert s[|s| - 1] == '.';
    } else {
      var u := Upper(f, 10);
      LastOfPadded(front, f, k);
      if LowDigit(f, 10) == 0 {
        g, j := StripPadded(front, u, k - 1);
        TenTimes(g, k - j);
      }
    }
  }

  lemma LastOfPadded(front: string, f: nat, k: nat)
    requires k > 0
    ensures var s := front + "." + Padded(f, k);
            && s != ""
            && s[..|s| - 1] == front + "." + Padded(Upper(f, 10), k - 1)
            && (s[|s| - 1] == '0' <==> LowDigit(f, 10) == 0)
  {
    hide Digit;
    var s := front + "." + Padded(f, k);
    assert s[|s| - 1] == Digit(LowDigit(f, 10));
    DigitsArePlain(LowDigit(f, 10));
  }

  lemma TenTimes(g: nat, k: nat)
    requires k > 0
    ensures g * Power(10, k) == g * Power(10, k - 1) * 10
  {
    var p := Power(10, k - 1);
    assert g * (10 * p) == g * p * 10;
  }

  // ---------- The round trip ----------

  lemma PowerOfPlaces()
    ensures Power(10, PLACES) == PRECISION
  {
    assert Power(10, 9) == 1_000_000_000;
    PowerAdd(10, 9, 9);
  }

  // A fraction of at most 18 places is read exactly.
  lemma FractionIsExact(g: nat, j: nat)
    requires 0 < j <= PLACES && g < Power(10, j)
    ensures Fraction(Padded(g, j)) == Some(g * Power(10, PLACES - j))
  {
    hide Power, ReadFrom, DigitCount, Padded, Quotient;
    PowerOfPlaces();
    PowerAdd(10, j, PLACES - j);
    ReadPaddedAlone(g, j);
    FractionValue(g, Power(10, j), Power(10, PLACES - j));
  }

  lemma ReadNothing(g: nat)
    ensures ReadFrom(g, "", 10) == g && DigitCount("") == 0
  {
  }

  lemma ReadPaddedAlone(g: nat, j: nat)
    requires g < Power(10, j)
    ensures ReadFrom(0, Padded(g, j), 10) == g && DigitCount(Padded(g, j)) == j
  {
    ReadNothing(g);
    hide Power, Padded, ReadFrom, DigitCount;
    ReadPadded(0, g, j, "");
    assert Padded(g, j) + "" == Padded(g, j);
    assert 0 * Power(10, j) + g == g;
  }

  lemma FractionValue(g: nat, p: nat, q: nat)
    requires g < p && p * q == PRECISION && q > 0
    ensures g % B64 == g && p % B64 == p
    ensures p * PRECISION > 0 && g * PRECISION >= 0 && g * q >= 0
    ensures Quotient(g * PRECISION, p * PRECISION) == g * q
  {
    ProductSign(p, q - 1);
    assert p * (q - 1) == PRECISION - p;
    Wrapped64(p);
    Wrapped64(g);
    ProductSign(q, g);
    ProductSign(q, p - g);
    assert q * (p - g) == PRECISION - g * q;
    assert g * PRECISION * PRECISION == p * PRECISION * (g * q) by {
      assert p * (g * q) == g * (p * q);
    }
    DivModUnique(g * PRECISION * PRECISION, p * PRECISION, g * q, 0);
    DivModUnique(g * q, B128, 0, g * q);
  }

  // ---------- More places than there are ----------

  // 19 places still fit the accumulators, and the last one is cut off.
  lemma FractionTruncates(g: nat)
    requires g < Power(10, PLACES + 1)
    ensures Fraction(Padded(g, PLACES + 1)) == Some(g / 10)
  {
    hide ReadFrom, DigitCount, Padded, Quotient;
    PowerOfPlaces();
    PowerAdd(10, PLACES, 1);
    PowerStep(10, 1);
    PowersOfTen(0);
    ReadPaddedAlone(g, PLACES + 1);
    NineteenPlaces(g);
  }

  lemma NineteenPlaces(g: nat)
    requires g < 10 * PRECISION
    ensures g % B64 == g && (10 * PRECISION) % B64 == 10 * PRECISION
    ensures Quotient(g * PRECISION, 10 * PRECISION * PRECISION) == g / 10
  {
    DivMod(g, 10);
    DivModUnique(g * PRECISION * PRECISION, 10 * PRECISION * PRECISION, g / 10, g % 10 * PRECISION * PRECISION);
    DivModUnique(g / 10, B128, 0, g / 10);
  }

  // With 20 the weight wraps: one tenth written so is read as more than one.
  lemma TwentyPlacesWrap()
    ensures
      var tenth := Padded(10 * PRECISION, 20);
      DigitCount(tenth) == 20 && Fraction(tenth).Some? && Fraction(tenth).value > PRECISION
  {
    PowerOfPlaces();
    PowerStep(10, 19);
    PowerStep(10, 20);
    hide Power, ReadFrom, DigitCount, Padded, Quotient;
    ReadPaddedAlone(10 * PRECISION, 20);
    WrappedWeight();
  }

  lemma WrappedWeight()
    ensures (10 * PRECISION) % B64 == 10 * PRECISION && (100 * PRECISION) % B64 == 7_766_279_631_452_241_920
    ensures Quotient(10 * PRECISION * PRECISION, 7_766_279_631_452_241_920 * PRECISION) == 1_287_617_813_747_206_966
  {
    assert 10 * PRECISION * PRECISION * PRECISION ==
      7_766_279_631_452_241_920 * PRECISION * 1_287_617_813_747_206_966 + 4_497_651_181_058_785_280 * PRECISION;
    DivModUnique(10 * PRECISION * PRECISION * PRECISION, 7_766_279_631_452_241_920 * PRECISION,
                 1_287_617_813_747_206_966, 4_497_651_181_058_785_280 * PRECISION);
  }

  lemma {:induction false} TenPower(k: nat)
    ensures Power(10, k) == Pow2(k) * Power(5, k) && Power(5, k) % 2 == 1
    decreases k
  {
    if k > 0 {
      PowerStep(10, k);
      PowerStep(5, k);
      hide Power;
      TenPower(k - 1);
      TwiceFive(Pow2(k - 1), Power(5, k - 1));
    }
  }

  lemma TwiceFive(p: nat, q: nat)
    ensures 10 * (p * q) == (2 * p) * (5 * q)
    ensures q % 2 == 1 ==> 5 * q % 2 == 1
  {
  }

  // The weight of the places is nothing to divide by exactly when there are 64 or more.
  lemma WeightVanishesIff(k: nat)
    ensures Power(10, k) % B64 == 0 <==> k >= 64
  {
    TenPower(k);
    Pow2Of64();
    hide Power, Pow2;
    if k >= 64 {
      Pow2Add(64, k - 64);
      assert Power(10, k) == B64 * (Pow2(k - 64) * Power(5, k));
      DivModUnique(Power(10, k), B64, Pow2(k - 64) * Power(5, k), 0);
    } else if Power(10, k) % B64 == 0 {
      DivMod(Power(10, k), B64);
      Pow2Add(k, 64 - k);
      OddCofactor(Pow2(k), Power(5, k), 64 - k, Power(10, k) / B64);
    }
  }

  // What is left of a multiple of a power of two, when a smaller one is taken out, is even.
  lemma OddCofactor(p: nat, odd: nat, e: nat, q: nat)
    requires p > 0 && e > 0 && p * odd == p * Pow2(e) * q
    ensures odd % 2 == 0
  {
    var half := Pow2(e - 1);
    assert p * (2 * half) * q == p * (2 * (half * q));
    DivModUnique(p * odd, p, odd, 0);
    DivModUnique(p * odd, p, 2 * (half * q), 0);
  }

  // No number is read exactly where the text starts with none, or with one whose point is followed by 64 places or more.
  lemma ParsedRealIff(text: string)
    ensures
      var n := DigitCount(text);
      ParsedReal(text).None? <==>
        (n == 0 && (text == "" || text[0] != '.')) || (n < |text| && text[n] == '.' && DigitCount(text[n + 1..]) >= 64)
  {
    hide DigitCount, ReadFrom, Power, Quotient;
    var n := DigitCount(text);
    if n < |text| {
      WeightVanishesIff(DigitCount(text[n + 1..]));
    }
  }

  lemma Wrapped64(x: nat)
    requires x <= PRECISION
    ensures x % B64 == x
  {
  }

  lemma ReadInFront(n: nat, rest: string)
    requires rest == "" || DigitValue(rest[0], 10) < 0
    ensures Decimal(n) != "" && DigitCount(Decimal(n) + rest) == |Decimal(n)|
    ensures ReadFrom(0, Decimal(n) + rest, 10) == n
  {
    hide Digit, Upper, LowDigit;
    if n == 0 {
      assert ("0" + rest)[1..] == rest;
    } else {
      var d := LeadingDigit(n, 10);
      hide Numeral, DigitValue;
      ReadNumeral(n, 10, rest);
      CountNumeral(n, rest);
    }
  }

  // The printed text: the integer part, a point, and the places up to the last one that is not zero.
  lemma PrintedShape(fixed: nat) returns (g: nat, j: nat)
    ensures j <= PLACES && g < Power(10, j) && fixed % PRECISION == g * Power(10, PLACES - j)
    ensures PrintedReal(fixed) == Decimal(fixed / PRECISION) + "." + Padded(g, j)
  {
    hide Power, Padded, Decimal, StripZeros, Numeral;
    var f := fixed % PRECISION;
    PowerOfPlaces();
    PrintWithLeadingOne(f, PLACES);
    assert ("1" + Padded(f, PLACES))[1..] == Padded(f, PLACES);
    g, j := StripPadded(Decimal(fixed / PRECISION), f, PLACES);
  }

  // How the parser takes a text of this shape apart.
  lemma ParsedParts(n: nat, tail: string)
    ensures ParsedReal(Decimal(n) + "." + tail) == WithPlaces(Whole(n), tail)
  {
    var front, rest := Decimal(n), "." + tail;
    assert DigitValue('.', 10) < 0;
    ReadInFront(n, rest);
    hide Decimal, ReadFrom, DigitCount, DigitValue, WithPlaces, Whole;
    assert front + "." + tail == front + rest;
    assert (front + rest)[|front|] == '.' && (front + rest)[|front| + 1..] == tail;
  }

  // Parsing what was printed gives the places back, and the integer part reduced to 64 bits.
  lemma ParseOfPrinted(fixed: nat)
    ensures ParsedReal(PrintedReal(fixed)) == Some((fixed / PRECISION) % B64 * PRECISION + fixed % PRECISION)
  {
    hide ParsedReal, PrintedReal, Decimal, Padded, DigitCount, Power;
    var g, j := PrintedShape(fixed);
    ParsedParts(fixed / PRECISION, Padded(g, j));
    ReadPaddedAlone(g, j);
    SmallSum((fixed / PRECISION) % B64, fixed % PRECISION);
    if j == 0 {
      PowersOfTen(g);
    } else {
      FractionIsExact(g, j);
    }
  }

  lemma PowersOfTen(g: nat)
    ensures Power(10, 0) == 1
    ensures g < 1 ==> g * Power(10, PLACES) == 0
  {
    PowerOfPlaces();
  }

  lemma SmallSum(whole: u64, f: nat)
    requires f < PRECISION
    ensures (whole * PRECISION + f) % B128 == whole * PRECISION + f
  {
  }

  // So a number survives exactly when its integer part fits in 64 bits.
  lemma RoundTripIff(fixed: nat)
    ensures ParsedReal(PrintedReal(fixed)) == Some(fixed) <==> fixed / PRECISION < B64
  {
    hide ParsedReal, PrintedReal;
    ParseOfPrinted(fixed);
    DivMod(fixed, PRECISION);
  }
}
