/** The string constructor of fc::uint128 and its conversion to a string in a fixed buffer. */
module UInt128Text {
  import opened Words
  import opened Numerals
  import opened Arithmetic128

  // sizeof(sz): 128 binary digits and the final zero.
  const BUFFER: nat := 128 + 1

  method AppendDigit(u: UInt128, radix: Radix, n: u64, ghost read: nat) returns (ghost next: nat)
    requires u.V() == read % B128
    modifies u
    ensures next == read * radix + n && u.V() == next % B128
  {
    var r := new UInt128(0, radix);
    WordValue(r);
    ModMul(read, radix, B128);
    ModAdd(read * radix, n, B128);
    u.MulAssign(r);
    u.AddWord(n);
    next := read * radix + n;
  }

  lemma WordValue(u: UInt128)
    requires u.hi == 0
    ensures u.V() == u.lo
  {
  }

  // Reads digits from position start on, and stops at the first character that is none.
  method ReadDigits(u: UInt128, text: string, start: nat, radix: Radix)
    requires start <= |text| && u.V() == 0
    modifies u
    ensures u.V() == ReadFrom(0, text[start..], radix) % B128
  {
    hide DigitValue;
    var i := start;
    ghost var read: nat := 0;
    while i != |text|
      invariant start <= i <= |text|
      invariant u.V() == read % B128
      invariant ReadFrom(0, text[start..], radix) == ReadFrom(read, text[i..], radix)
      decreases |text| - i
    {
      ReadNext(read, text, i, radix);
      var n := DigitOf(text[i], radix);
      if n < 0 {
        return;
      }
      read := AppendDigit(u, radix, n, read);
      i := i + 1;
    }
    ReadNothing(read, radix);
  }

  lemma ReadNext(read: nat, text: string, i: nat, radix: Radix)
    requires i < |text|
    ensures var d := DigitValue(text[i], radix);
            ReadFrom(read, text[i..], radix) == if d < 0 then read else ReadFrom(read * radix + d, text[i + 1..], radix)
  {
    hide DigitValue;
    assert text[i..][1..] == text[i + 1..];
  }

  // The chain of range tests; -1 where the source leaves the loop.
  method DigitOf(ch: char, radix: Radix) returns (n: int)
    ensures n == DigitValue(ch, radix)
  {
    if 'A' <= ch && ch <= 'Z' {
      var v := ch as int - 'A' as int;
      return if v + 10 < radix then v + 10 else -1;
    } else if 'a' <= ch && ch <= 'z' {
      var v := ch as int - 'a' as int;
      return if v + 10 < radix then v + 10 else -1;
    } else if '0' <= ch && ch <= '9' {
      var v := ch as int - '0' as int;
      return if v < radix then v else -1;
    }
    return -1;
  }

  method Parse(text: string) returns (u: UInt128)
    ensures fresh(u) && u.V() == Parsed(text)
  {
    hide DigitValue, ReadFrom;
    u := new UInt128(0, 0);
    WordValue(u);
    ReadNothing(0, 8);
    ReadNothing(0, 10);
    ReadNothing(0, 16);
    if text != "" {
      var radix: Radix := 10;
      var minus := false;
      var i := 0;
      if text[i] == '-' {
        i := i + 1;
        minus := true;
      }
      if i != |text| {
        if text[i] == '0' {
          radix := 8;
          i := i + 1;
          if i != |text| {
            if text[i] == 'x' {
              radix := 16;
              i := i + 1;
            }
          }
        }
        ReadDigits(u, text, i, radix);
      }
      MagnitudeAt(text, i, radix, minus);
      if minus {
        var negated := u.Negated();
        u.Assign(negated);
      }
    }
  }

  // Where the digits start, after the sign and the prefix.
  lemma MagnitudeAt(text: string, i: nat, radix: Radix, minus: bool)
    requires i <= |text| && (minus <==> text != "" && text[0] == '-')
    requires var s := if minus then 1 else 0;
             if s < |text| && text[s] == '0' then
               if s + 1 < |text| && text[s + 1] == 'x' then radix == 16 && i == s + 2 else radix == 8 && i == s + 1
             else radix == 10 && i == s
    ensures Magnitude(if minus then text[1..] else text) == ReadFrom(0, text[i..], radix)
  {
    hide ReadFrom;
    var body := if minus then text[1..] else text;
    assert text[i..] == if radix == 10 then body else if radix == 8 then body[1..] else body[2..];
  }

  // sz is the static buffer: position 127 is never written, so it keeps the zero it starts with.
  method Print(u: UInt128, sz: array<char>) returns (text: string)
    requires sz.Length == BUFFER && sz[127] == '\0'
    modifies sz
    ensures text == Decimal(u.V()) && sz[127] == '\0'
  {
    hide Numeral, CString;
    var zero := new UInt128(0, 0);
    WordValue(zero);
    if u.Equal(zero) {
      return "0";
    }
    sz[sz.Length - 1] := '\0';
    var ii := new UInt128.Copy(u);
    var i := WriteDigits(ii, sz);
    DecimalOf128Bits(u.V());
    TextInBuffer(sz[..], i, u.V());
    text := CString(sz[i..]);
  }

  // Writes the digits of ii backwards, ending in front of position 127; returns where they start.
  method WriteDigits(ii: UInt128, sz: array<char>) returns (i: nat)
    requires sz.Length == BUFFER && sz[127] == '\0'
    modifies ii, sz
    ensures i <= 127 && sz[127] == '\0' && sz[i..127] == Numeral(old(ii.V()), 10)
  {
    hide Numeral, Digit;
    DecimalOf128Bits(ii.V());
    ReadNothing(0, 10);
    ghost var whole := Numeral(ii.V(), 10);
    var zero := new UInt128(0, 0);
    WordValue(zero);
    i := 128 - 1;
    ghost var written := "";
    while !ii.Equal(zero) && i != 0
      invariant i <= 127 && sz[127] == '\0' && zero.V() == 0
      invariant written == sz[i..127] && whole == Numeral(ii.V(), 10) + written
      modifies ii, sz
      decreases ii.V()
    {
      var remainder := new UInt128(0, 0);
      var ten := new UInt128(0, 10);
      WordValue(ten);
      NumeralStep(ii.V());
      var ok := Divide10(ii, ten, remainder);
      i := i - 1;
      sz[i] := DIGITS[remainder.lo];
      PushedFront(sz[..], i, written);
      written := [sz[i]] + written;
    }
  }

  lemma PushedFront(buffer: string, i: nat, written: string)
    requires i < 127 <= |buffer| && buffer[i + 1..127] == written
    ensures buffer[i..127] == [buffer[i]] + written
  {
  }

  lemma TextInBuffer(buffer: string, i: nat, n: nat)
    requires |buffer| == BUFFER && i <= 127 && buffer[127] == '\0' && buffer[i..127] == Numeral(n, 10)
    ensures CString(buffer[i..]) == Numeral(n, 10)
  {
    hide CString;
    NumeralIsPlain(n, 10);
    CStringUntilZero(buffer[i..127], buffer[128..]);
    assert buffer[i..] == buffer[i..127] + ['\0'] + buffer[128..];
  }

  method Divide10(ii: UInt128, ten: UInt128, remainder: UInt128) returns (ok: bool)
    requires ten.V() == 10 && ii != remainder
    modifies ii, remainder
    ensures ok && ii.V() == Upper(old(ii.V()), 10) && remainder.V() == LowDigit(old(ii.V()), 10)
    ensures remainder.FitsUInt32() && remainder.hi == 0 && remainder.lo == remainder.V()
  {
    ok := UInt128.Divide(ii, ten, ii, remainder);
  }

  lemma NumeralStep(n: nat)
    requires n > 0
    ensures Numeral(n, 10) == Numeral(Upper(n, 10), 10) + [DIGITS[LowDigit(n, 10)]]
  {
  }

  // Every number survives the two conversions.
  method RoundTrip(u: UInt128, sz: array<char>) returns (back: UInt128)
    requires sz.Length == BUFFER && sz[127] == '\0'
    modifies sz
    ensures back.V() == u.V()
  {
    DecimalRoundTrip(u.V());
    DivModUnique(u.V(), B128, 0, u.V());
    var text := Print(u, sz);
    back := Parse(text);
  }
}
