/** fc::real128: fixed-point numbers over fc::uint128, with the big-integer products and quotients of its operators. */
module Real128 {
  import opened Common
  import opened Words
  import opened Numerals
  import opened RealText
  import opened Arithmetic128
  import UInt128Text

  class Real {
    const fixed: UInt128

    constructor FromInteger(integer: u64)
      ensures fresh(fixed) && fixed.V() == integer * PRECISION
    {
      fixed := new UInt128(0, integer);
      new;
      UInt128Text.WordValue(fixed);
      var precision := new UInt128(0, PRECISION);
      UInt128Text.WordValue(precision);
      WholeFits(integer);
      fixed.MulAssign(precision);
    }

    constructor FromFixed(u: UInt128)
      ensures fresh(fixed) && fixed.V() == u.V()
    {
      fixed := new UInt128.Copy(u);
    }

    method AddAssign(o: Real)
      modifies fixed
      ensures fixed.V() == (old(fixed.V()) + old(o.fixed.V())) % B128
    {
      fixed.AddAssign(o.fixed);
    }

    method SubAssign(o: Real)
      modifies fixed
      ensures fixed.V() == (old(fixed.V()) + (B128 - old(o.fixed.V()))) % B128
    {
      fixed.SubAssign(o.fixed);
    }

    // A big integer is assigned through its decimal text, which keeps its low 128 bits.
    method AssignBig(big: nat)
      modifies fixed
      ensures fixed.V() == big % B128
    {
      DecimalRoundTrip(big);
      var u := UInt128Text.Parse(Decimal(big));
      fixed.Assign(u);
    }

    method MulAssign(o: Real)
      modifies fixed
      ensures fixed.V() == old(fixed.V() * o.fixed.V() / PRECISION) % B128
    {
      var self, other := Big(fixed), Big(o.fixed);
      ProductSign(self, other);
      self := self * other;
      self := self / PRECISION;
      AssignBig(self);
    }

    // ok is false where the source throws.
    method DivAssign(o: Real) returns (ok: bool)
      modifies fixed
      ensures ok <==> old(o.fixed.V()) > 0
      ensures fixed.V() == if ok then Quotient(old(fixed.V()), old(o.fixed.V())) else old(fixed.V())
    {
      var zero := new UInt128(0, 0);
      UInt128Text.WordValue(zero);
      if !zero.Less(o.fixed) {
        return false;
      }
      var self, other := Big(fixed), Big(o.fixed);
      self := self * PRECISION;
      DivMod(self, other);
      self := self / other;
      AssignBig(self);
      return true;
    }

    method Print(sz: array<char>) returns (number: string)
      requires sz.Length == UInt128Text.BUFFER && sz[127] == '\0'
      modifies sz
      ensures number == PrintedReal(fixed.V()) && sz[127] == '\0'
    {
      hide Decimal, StripZeros, Numeral;
      var precision := new UInt128(0, PRECISION);
      UInt128Text.WordValue(precision);
      var whole := new UInt128.Copy(fixed);
      var divided := whole.DivAssign(precision);
      var first := UInt128Text.Print(whole, sz);
      var frac := new UInt128.Copy(fixed);
      var reduced := frac.ModAssign(precision);
      PlacesFit(frac.V());
      frac.AddAssign(precision);
      var second := UInt128Text.Print(frac, sz);
      DecimalOfPlaces(fixed.V());
      number := PopZeros(first + "." + second[1..]);
    }
  }

  method PopZeros(text: string) returns (number: string)
    requires '.' in text
    ensures number == StripZeros(text)
  {
    hide StripZeros;
    number := text;
    StripOne(number);
    while number[|number| - 1] == '0'
      invariant '.' in number && StripZeros(number) == StripZeros(text)
      decreases |number|
    {
      StripOne(number);
      number := number[..|number| - 1];
    }
    StripOne(number);
  }

  function Big(u: UInt128): (v: nat)
    reads u
    ensures v == u.V()
  {
    u.hi * B64 + u.lo
  }

  lemma WholeFits(integer: u64)
    ensures (integer * PRECISION) % B128 == integer * PRECISION
  {
  }

  lemma PlacesFit(f: nat)
    requires f < PRECISION
    ensures (f + PRECISION) % B128 == f + PRECISION
  {
  }

  // The 19 digits that start with the added one.
  lemma DecimalOfPlaces(fixed: nat)
    ensures var frac := fixed % PRECISION + PRECISION;
            Decimal(frac) == Numeral(frac, 10) && Numeral(frac, 10) != ""
  {
    var d := LeadingDigit(fixed % PRECISION + PRECISION, 10);
  }

  lemma StripOne(s: string)
    requires '.' in s
    ensures s != ""
    ensures s[|s| - 1] == '0' ==> StripZeros(s) == StripZeros(s[..|s| - 1]) && '.' in s[..|s| - 1]
    ensures s[|s| - 1] != '0' ==> StripZeros(s) == s
  {
  }

  // ---------- Parsing ----------

  // The C string ends with a zero character, which is no digit.
  predicate IsDigitAt(text: string, i: nat) {
    i < |text| && '0' <= text[i] <= '9'
  }

  lemma DigitAt(text: string, i: nat, read: nat)
    requires i <= |text|
    ensures IsDigitAt(text, i) ==>
      var d := text[i] as int - '0' as int;
      && 0 <= d < 10
      && ReadFrom(read, text[i..], 10) == ReadFrom(read * 10 + d, text[i + 1..], 10)
      && DigitCount(text[i..]) == 1 + DigitCount(text[i + 1..])
    ensures !IsDigitAt(text, i) ==> ReadFrom(read, text[i..], 10) == read && DigitCount(text[i..]) == 0
  {
    if i < |text| {
      assert text[i..][1..] == text[i + 1..];
    }
  }

  // 64-bit accumulators for the digits from position start on and for their weight; both wrap.
  method ReadRun(text: string, start: nat) returns (i: nat, part: u64, magnitude: u64)
    requires start <= |text|
    ensures start <= i <= |text| && i == start + DigitCount(text[start..])
    ensures part == ReadFrom(0, text[start..], 10) % B64
    ensures magnitude == Power(10, DigitCount(text[start..])) % B64
  {
    hide ReadFrom, DigitCount;
    i, part, magnitude := start, 0, 1;
    ghost var read: nat := 0;
    assert Power(10, 0) == 1;
    DigitAt(text, i, 0);
    while IsDigitAt(text, i)
      invariant start <= i <= |text|
      invariant part == read % B64 && magnitude == Power(10, i - start) % B64
      invariant ReadFrom(0, text[start..], 10) == ReadFrom(read, text[i..], 10)
      invariant DigitCount(text[start..]) == i - start + DigitCount(text[i..])
      decreases |text| - i
    {
      var digit := text[i] as int - '0' as int;
      DigitAt(text, i, read);
      ModMul(read, 10, B64);
      ModAdd(read * 10, digit, B64);
      ModAdd(part * 10, digit, B64);
      ModMul(Power(10, i - start), 10, B64);
      part := (part * 10 + digit) % B64;
      magnitude := (magnitude * 10) % B64;
      read := read * 10 + digit;
      i := i + 1;
    }
    DigitAt(text, i, read);
  }

  lemma DigitsAt(text: string)
    ensures IsDigitAt(text, 0) <==> DigitCount(text) > 0
    ensures DigitCount(text) == 0 ==> ReadFrom(0, text, 10) == 0
    ensures forall i :: 0 <= i <= |text| ==> (IsDigitAt(text, i) <==> DigitCount(text[i..]) > 0)
  {
    hide ReadFrom, DigitCount;
    DigitAt(text, 0, 0);
    assert text[0..] == text;
    forall i | 0 <= i <= |text|
      ensures IsDigitAt(text, i) <==> DigitCount(text[i..]) > 0
    {
      DigitAt(text, i, 0);
    }
  }

  // Adds the fraction whose digits start at position i.
  method AddFraction(result: Real, text: string, i: nat) returns (ok: bool)
    requires i <= |text|
    modifies result.fixed
    ensures ok <==> Fraction(text[i..]).Some?
    ensures ok ==> result.fixed.V() == (old(result.fixed.V()) + Fraction(text[i..]).value) % B128
  {
    hide Quotient, ReadFrom, DigitCount, Power;
    var end, part, magnitude := ReadRun(text, i);
    var fraction := new Real.FromInteger(part);
    var weight := new Real.FromInteger(magnitude);
    ok := fraction.DivAssign(weight);
    if ok {
      result.AddAssign(fraction);
    }
  }

  // None where the source asserts or throws.
  method Parse(text: string) returns (r: Option<Real>)
    ensures r.Some? <==> ParsedReal(text).Some?
    ensures r.Some? ==> r.value.fixed.V() == ParsedReal(text).value
  {
    hide Fraction, ReadFrom, DigitCount;
    DigitsAt(text);
    assert text[0..] == text;
    var result: Real;
    var i := 0;
    if IsDigitAt(text, 0) {
      var part, magnitude;
      i, part, magnitude := ReadRun(text, 0);
      result := new Real.FromInteger(part);
    } else {
      if text == "" || text[0] != '.' {
        return None;
      }
      result := new Real.FromInteger(0);
    }
    if i < |text| && text[i] == '.' && IsDigitAt(text, i + 1) {
      var ok := AddFraction(result, text, i + 1);
      if !ok {
        return None;
      }
    }
    return Some(result);
  }

  // Printing and parsing gives a number back exactly when its integer part fits in 64 bits.
  method RoundTrip(a: Real, sz: array<char>) returns (back: Option<Real>)
    requires sz.Length == UInt128Text.BUFFER && sz[127] == '\0'
    modifies sz
    ensures back.Some?
    ensures back.value.fixed.V() == a.fixed.V() <==> a.fixed.V() / PRECISION < B64
  {
    hide PrintedReal, ParsedReal;
    ParseOfPrinted(a.fixed.V());
    RoundTripIff(a.fixed.V());
    var text := a.Print(sz);
    back := Parse(text);
  }
}
