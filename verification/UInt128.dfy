/** fc::uint128: a number of 128 bits in two words, with operators that overwrite it. */
module Arithmetic128 {
  import opened Words
  import opened UInt128Words

  class UInt128 {
    var hi: u64
    var lo: u64

    // The number the two words stand for.
    ghost function V(): (v: nat)
      reads this
      ensures v < B128
    {
      Value(hi, lo)
    }

    constructor (h: u64, l: u64)
      ensures hi == h && lo == l
    {
      hi, lo := h, l;
    }

    constructor Copy(u: UInt128)
      ensures V() == u.V() && hi == u.hi && lo == u.lo
    {
      hi, lo := u.hi, u.lo;
    }

    method Assign(u: UInt128)
      modifies this
      ensures V() == old(u.V()) && hi == old(u.hi) && lo == old(u.lo)
    {
      hi, lo := u.hi, u.lo;
    }

    predicate Equal(o: UInt128)
      reads this, o
      ensures Equal(o) <==> V() == o.V()
    {
      hi == o.hi && lo == o.lo
    }

    predicate Less(o: UInt128)
      reads this, o
      ensures Less(o) <==> V() < o.V()
    {
      if hi == o.hi then lo < o.lo else hi < o.hi
    }

    predicate AtLeast(o: UInt128)
      reads this, o
      ensures AtLeast(o) <==> V() >= o.V()
    {
      Equal(o) || o.Less(this)
    }

    method Increment()
      modifies this
      ensures V() == (old(V()) + 1) % B128
    {
      Wrapped(lo + 1, B64);
      Wrapped(hi + 1, B64);
      Wrapped(V() + 1, B128);
      lo := (lo + 1) % B64;
      hi := (hi + if lo == 0 then 1 else 0) % B64;
    }

    method Decrement()
      modifies this
      ensures V() == (old(V()) + (B128 - 1)) % B128
    {
      Wrapped(V() + (B128 - 1), B128);
      var borrow := if lo == 0 then 1 else 0;
      lo := if lo == 0 then B64 - 1 else lo - 1;
      hi := if hi < borrow then B64 - 1 else hi - borrow;
    }

    // -u is ++(~hi, ~lo).
    method Negated() returns (r: UInt128)
      ensures fresh(r) && r.V() == (B128 - V()) % B128
    {
      NegateWords(hi, lo);
      r := new UInt128(Not64(hi), Not64(lo));
      r.Increment();
    }

    // u may be this number itself: lo is overwritten before u.hi is read.
    method AddAssign(u: UInt128)
      modifies this
      ensures V() == (old(V()) + old(u.V())) % B128
    {
      AddWords(hi, lo, u.hi, u.lo);
      hide Value;
      var before := lo;
      lo := (lo + u.lo) % B64;
      hi := (hi + (u.hi + Carry(before, lo)) % B64) % B64;
    }

    method SubAssign(u: UInt128)
      modifies this
      ensures V() == (old(V()) + (B128 - old(u.V()))) % B128
    {
      ModAdd(B128 - u.V(), V(), B128);
      hide Value;
      var minus := u.Negated();
      AddAssign(minus);
    }

    method OrAssign(u: UInt128)
      modifies this
      ensures V() == Or(old(V()), old(u.V()))
    {
      hide Or;
      Pow2Of64();
      OrBound(hi, u.hi, 64);
      OrBound(lo, u.lo, 64);
      OrHalves(hi, lo, u.hi, u.lo, 64);
      hi := Or(hi, u.hi);
      lo := Or(lo, u.lo);
    }

    method AndAssign(u: UInt128)
      modifies this
      ensures V() == And(old(V()), old(u.V()))
    {
      hide And;
      Pow2Of64();
      AndBound(hi, u.hi);
      AndBound(lo, u.lo);
      AndHalves(hi, lo, u.hi, u.lo, 64);
      hi := And(hi, u.hi);
      lo := And(lo, u.lo);
    }

    // A count of 128 or more clears the number; the count may be this number itself.
    method ShiftLeftAssign(count: UInt128)
      modifies this
      ensures V() == Shl(old(V()), old(count.V())) % B128
    {
      hide Pow2, Shl, Shr, Or, And;
      var limit := new UInt128(0, 128);
      if count.AtLeast(limit) {
        ShiftLeftAll(V(), count.V());
        hi, lo := 0, 0;
      } else {
        var n := count.lo;
        if n >= 64 {
          ShiftLeftOneWord(hi, lo, n);
          n := n - 64;
          hi, lo := lo, 0;
        }
        ShlStep(V(), 0);
        if n != 0 {
          ShiftLeftWords(hi, lo, n);
          hi := Shl(hi, n) % B64;
          var mask := Not64(Shr(B64 - 1, n));
          hi := Or(hi, Shr(And(lo, mask), 64 - n));
          lo := Shl(lo, n) % B64;
        }
      }
    }

    method ShiftRightAssign(count: UInt128)
      modifies this
      ensures V() == Shr(old(V()), old(count.V()))
    {
      hide Pow2, Shl, Shr, Or, And;
      var limit := new UInt128(0, 128);
      if count.AtLeast(limit) {
        ShiftRightAll(V(), count.V());
        hi, lo := 0, 0;
      } else {
        var n := count.lo;
        if n >= 64 {
          ShiftRightOneWord(hi, lo, n);
          n := n - 64;
          hi, lo := 0, hi;
        }
        ShrStep(V(), 0);
        if n != 0 {
          ShiftRightParts(hi, lo, n);
          ShrSmaller(lo, n);
          ghost var low := lo;
          lo := Shr(lo, n);
          var mask := Not64(Shl(B64 - 1, n) % B64);
          lo := Or(lo, Shl(And(hi, mask), 64 - n) % B64);
          ShiftRightWords(hi, low, lo, n);
          hi := Shr(hi, n);
        }
      }
    }

    // The implicit conversion of a 64-bit operand.
    method AddWord(x: u64)
      modifies this
      ensures V() == (old(V()) + x) % B128
    {
      hide Value;
      var u := new UInt128(0, x);
      assert u.V() == x by {
        ZeroHigh(x);
      }
      AddAssign(u);
    }

    method ShiftLeftBy(n: u64)
      modifies this
      ensures V() == Shl(old(V()), n) % B128
    {
      hide Value, Shl;
      var u := new UInt128(0, n);
      assert u.V() == n by {
        ZeroHigh(n);
      }
      ShiftLeftAssign(u);
    }

    // whole is the exact running total, of which this number keeps 128 bits.
    ghost predicate Keeps(whole: nat)
      reads this
    {
      V() == whole % B128
    }

    method AddExactly(x: u64, ghost whole: nat) returns (ghost next: nat)
      requires Keeps(whole)
      modifies this
      ensures next == whole + x && Keeps(next)
    {
      ModAdd(whole, x, B128);
      AddWord(x);
      next := whole + x;
    }

    method ShiftLimb(ghost whole: nat) returns (ghost next: nat)
      requires Keeps(whole)
      modifies this
      ensures next == whole * B32 && Keeps(next)
    {
      hide Pow2;
      Pow2Of32();
      ModMul(whole, B32, B128);
      ShiftLeftBy(0x20);
      next := whole * B32;
    }

    // b may be this number itself: the limbs are read first.
    method MulAssign(b: UInt128)
      modifies this
      ensures V() == (old(V()) * old(b.V())) % B128
    {
      var a0, a1, a2, a3 := lo % B32, Shr(lo, 0x20) % B32, hi % B32, Shr(hi, 0x20) % B32;
      var b0, b1, b2, b3 := b.lo % B32, Shr(b.lo, 0x20) % B32, b.hi % B32, Shr(b.hi, 0x20) % B32;
      Limbs(hi, lo);
      Limbs(b.hi, b.lo);
      LimbProduct(a0, a1, a2, a3, b0, b1, b2, b3);
      hide *;
      SumLimbs(a0, a1, a2, a3, b0, b1, b2, b3);
    }

    method SumLimbs(a0: u32, a1: u32, a2: u32, a3: u32, b0: u32, b1: u32, b2: u32, b3: u32)
      modifies this
      ensures Keeps(LimbSum(a0, a1, a2, a3, b0, b1, b2, b3))
    {
      hide Times32, Keeps, V, Value;
      hi, lo := 0, Times32(a3, b0);
      ghost var w: nat := lo;
      KeepsWord(this);
      w := AddExactly(Times32(a2, b1), w);
      w := AddExactly(Times32(a1, b2), w);
      w := AddExactly(Times32(a0, b3), w);
      w := ShiftLimb(w);
      w := AddExactly(Times32(a2, b0), w);
      w := AddExactly(Times32(a1, b1), w);
      w := AddExactly(Times32(a0, b2), w);
      w := ShiftLimb(w);
      w := AddExactly(Times32(a1, b0), w);
      w := AddExactly(Times32(a0, b1), w);
      w := ShiftLimb(w);
      w := AddExactly(Times32(a0, b0), w);
    }

    method WordProduct(x: u64, y: u64) returns (r: UInt128)
      ensures fresh(r) && r.V() == x * y
    {
      ProductBound(x, y, B64, B64);
      DivModUnique(x * y, B128, 0, x * y);
      ZeroHigh(x);
      ZeroHigh(y);
      hide Value;
      r := new UInt128(0, x);
      var u := new UInt128(0, y);
      r.MulAssign(u);
    }

    // The same words as one number.
    static lemma WholeProduct(a: nat, b: nat, y0: u64, y1: u64, y2: u64, y3: u64)
      requires a * b == Value(y3, y2) * B128 + Value(y1, y0)
      ensures (a * b) % B128 == Value(y1, y0)
    {
      hide Value;
      LowWords(a * b, Value(y3, y2), Value(y1, y0));
    }

    method AddExact(x: u64)
      requires V() + x < B128
      modifies this
      ensures V() == old(V()) + x
    {
      DivModUnique(V() + x, B128, 0, V() + x);
      AddWord(x);
    }

    // The four words of S + (Q + R) * 2^64 + P * 2^128, for the products S, R, Q and P of the words of two numbers.
    static method SumProducts(ghost ah: u64, ghost al: u64, ghost bh: u64, ghost bl: u64,
                              sh: u64, sl: u64, rh: u64, rl: u64, qh: u64, ql: u64, ph: u64, pl: u64)
      returns (y0: u64, y1: u64, y2: u64, y3: u64)
      requires Value(sh, sl) == al * bl && Value(rh, rl) == ah * bl
      requires Value(qh, ql) == al * bh && Value(ph, pl) == ah * bh
      ensures Value(ah, al) * Value(bh, bl) == Value(y3, y2) * B128 + Value(y1, y0)
    {
      y0, y1, y2, y3 := SumWords(sh, sl, rh, rl, qh, ql, ph, pl);
      ProductWords(ah, al, bh, bl, sh, sl, rh, rl, qh, ql, ph, pl);
    }

    // The sum, modulo 2^256.
    static method SumWords(sh: u64, sl: u64, rh: u64, rl: u64, qh: u64, ql: u64, ph: u64, pl: u64)
      returns (y0: u64, y1: u64, y2: u64, y3: u64)
      ensures y0 == sl
      ensures var t1 := sh + ql + rl;
              var t2 := t1 / B64 + qh + rh + pl;
              y1 == t1 % B64 && y2 == t2 % B64 && y3 == (t2 / B64 + ph) % B64
    {
      y0 := sl;
      var acc := new UInt128(0, sh);
      ZeroHigh(sh);
      hide Value;
      acc.AddExact(ql);
      acc.AddExact(rl);
      WordsAre(acc.hi, acc.lo);
      y1 := acc.lo;
      acc := new UInt128(0, acc.hi);
      ZeroHigh(acc.lo);
      acc.AddExact(qh);
      acc.AddExact(rh);
      acc.AddExact(pl);
      WordsAre(acc.hi, acc.lo);
      y2 := acc.lo;
      y3 := (acc.hi + ph) % B64;
    }

    // The four words of the product, lowest first.
    static method ProductOf(a: UInt128, b: UInt128) returns (y0: u64, y1: u64, y2: u64, y3: u64)
      ensures a.V() * b.V() == Value(y3, y2) * B128 + Value(y1, y0)
    {
      hide Value;
      var ah, al, bh, bl := a.hi, a.lo, b.hi, b.lo;
      var s := a.WordProduct(al, bl);
      var r := a.WordProduct(ah, bl);
      var q := a.WordProduct(al, bh);
      var p := a.WordProduct(ah, bh);
      y0, y1, y2, y3 := SumProducts(ah, al, bh, bl, s.hi, s.lo, r.hi, r.lo, q.hi, q.lo, p.hi, p.lo);
    }

    // resultHi and resultLo may be a or b; when they are one object the low half is kept.
    static method FullProduct(a: UInt128, b: UInt128, resultHi: UInt128, resultLo: UInt128)
      modifies resultHi, resultLo
      ensures resultLo.V() == (old(a.V()) * old(b.V())) % B128
      ensures resultHi != resultLo ==> resultHi.V() * B128 + resultLo.V() == old(a.V()) * old(b.V())
    {
      hide Value;
      var y0, y1, y2, y3 := ProductOf(a, b);
      WholeProduct(a.V(), b.V(), y0, y1, y2, y3);
      resultHi.hi, resultHi.lo := y3, y2;
      resultLo.hi, resultLo.lo := y1, y0;
    }

    // Bit 127 is read through (d >> 127) & 1.
    method TopBitClear() returns (clear: bool)
      ensures clear <==> V() < B128 / 2
    {
      hide Value, And, Shr;
      var top := new UInt128.Copy(this);
      var count := new UInt128(0, 127);
      ZeroHigh(127);
      top.ShiftRightAssign(count);
      var one := new UInt128(0, 1);
      ZeroHigh(1);
      TopBit(V());
      top.AndAssign(one);
      var zero := new UInt128(0, 0);
      ZeroHigh(0);
      clear := top.Equal(zero);
    }

    // Doubles d and x together until d is above n or would overflow.
    static method DoubleUp(n: UInt128, d: UInt128, x: UInt128) returns (ghost k: nat)
      requires d != x && n != d && n != x && d.V() > 0 && x.V() == 1
      modifies d, x
      ensures x.V() == Pow2(k) && d.V() == old(d.V()) * Pow2(k) && n.V() < 2 * d.V()
    {
      hide Pow2, Shl, Value;
      k := 0;
      PowersOfTwo();
      var clear := d.TopBitClear();
      while n.AtLeast(d) && clear
        invariant clear <==> d.V() < B128 / 2
        invariant d.V() >= x.V() == Pow2(k) && d.V() == old(d.V()) * Pow2(k)
        decreases B128 - d.V()
      {
        DoubleBoth(old(d.V()), k, d.V(), x.V());
        x.ShiftLeftBy(1);
        d.ShiftLeftBy(1);
        k := k + 1;
        clear := d.TopBitClear();
      }
    }

    // One bit of the quotient a step, the highest first.
    static method SubtractDown(n: UInt128, d: UInt128, x: UInt128, answer: UInt128, ghost div: nat, ghost k: nat)
      requires n != d && n != x && n != answer && d != x && d != answer && x != answer
      requires Dividing(n.V(), div, k, n.V(), d.V(), x.V(), answer.V())
      modifies n, d, x, answer
      ensures old(n.V()) == answer.V() * div + n.V() && n.V() < div
    {
      hide Dividing, Or, Shr, Value;
      ghost var j: int := k;
      var zero := new UInt128(0, 0);
      ZeroHigh(0);
      while !x.Equal(zero)
        invariant zero.V() == 0
        invariant Dividing(old(n.V()), div, j, n.V(), d.V(), x.V(), answer.V())
        decreases x.V()
      {
        DividingStep(old(n.V()), div, j, n.V(), d.V(), x.V(), answer.V());
        if n.AtLeast(d) {
          Wrapped(n.V() + (B128 - d.V()), B128);
          n.SubAssign(d);
          answer.OrAssign(x);
        }
        x.ShiftRightBy(1);
        d.ShiftRightBy(1);
        j := j - 1;
      }
      DividingDone(old(n.V()), div, j, n.V(), d.V(), answer.V());
    }

    method ShiftRightBy(n: u64)
      modifies this
      ensures V() == Shr(old(V()), n)
    {
      hide Value, Shr;
      var u := new UInt128(0, n);
      assert u.V() == n by {
        ZeroHigh(n);
      }
      ShiftRightAssign(u);
    }

    // Any of the four may be one object; ok is false where the source throws.
    static method Divide(numerator: UInt128, denominator: UInt128, quotient: UInt128, remainder: UInt128)
      returns (ok: bool)
      modifies quotient, remainder
      ensures ok <==> old(denominator.V()) != 0
      ensures !ok ==> unchanged(quotient) && unchanged(remainder)
      ensures ok ==> remainder.V() < old(denominator.V()) && remainder.V() == old(numerator.V()) % old(denominator.V())
      ensures ok && quotient != remainder ==>
                old(numerator.V()) == quotient.V() * old(denominator.V()) + remainder.V()
    {
      hide Pow2, Value;
      var zero := new UInt128(0, 0);
      ZeroHigh(0);
      if denominator.Equal(zero) {
        return false;
      }
      var n := new UInt128.Copy(numerator);
      var d := new UInt128.Copy(denominator);
      var x := new UInt128(0, 1);
      ZeroHigh(1);
      var answer := new UInt128(0, 0);
      ghost var whole, div := n.V(), d.V();
      ghost var k := DoubleUp(n, d, x);
      DividingStart(whole, div, k, d.V());
      hide Dividing;
      SubtractDown(n, d, x, answer, div, k);
      DivModUnique(whole, div, answer.V(), n.V());
      quotient.Assign(answer);
      remainder.Assign(n);
      return true;
    }

    // The divisor may be this number itself.
    method ModAssign(b: UInt128) returns (ok: bool)
      modifies this
      ensures ok <==> old(b.V()) != 0
      ensures V() == if ok then old(V()) % old(b.V()) else old(V())
    {
      var quotient := new UInt128(0, 0);
      ok := Divide(this, b, quotient, this);
    }

    // Division by the multiprecision library, whose result is split into words again.
    method DivAssign(b: UInt128) returns (ok: bool)
      modifies this
      ensures ok <==> old(b.V()) != 0
      ensures V() == if ok then old(V()) / old(b.V()) else old(V())
    {
      if b.hi == 0 && b.lo == 0 {
        return false;
      }
      var self, other := hi * B64 + lo, b.hi * B64 + b.lo;
      DivSmaller(self, other);
      self := self / other;
      WordsOf(self);
      LowHalf(self);
      hi := self / B64;
      lo := (self * B64 % B128) / B64;
      return true;
    }

    // Both assertions of to_integer.
    predicate FitsUInt32()
      reads this
      ensures FitsUInt32() <==> V() < B32
    {
      hi == 0 && lo == lo % B32
    }
  }

  // The binary operator| assigns its right operand to a copy of its left one.
  method BitOr(l: UInt128, r: UInt128) returns (t: UInt128)
    ensures fresh(t) && t.V() == r.V()
  {
    t := new UInt128.Copy(l);
    t.Assign(r);
  }

  // So it is the bitwise or exactly when the left operand has no bit of its own.
  lemma {:induction false} RightIsOr(a: nat, b: nat)
    ensures Or(a, b) == b <==> And(a, b) == a
    decreases a + b
  {
    if a > 0 && b > 0 {
      RightIsOr(a / 2, b / 2);
    }
  }

  // Shifting left and right by 64 in 128 bits keeps the low word.
  lemma LowHalf(v: nat)
    ensures (v * B64 % B128) / B64 == v % B64
  {
    DivMod(v, B64);
    DivModUnique(v * B64, B128, v / B64, v % B64 * B64);
    ModMultiple(B64, v % B64);
  }

  lemma TopBit(v: nat)
    requires v < B128
    ensures And(Shr(v, 127), 1) == 0 <==> v < B128 / 2
  {
    Pow2Of128();
    assert Pow2(128) == 2 * Pow2(127);
    hide Pow2;
    AndLow(Shr(v, 127), 1);
    PowersOfTwo();
  }

  lemma PowersOfTwo()
    ensures Pow2(0) == 1 && Pow2(1) == 2
  {
  }

  lemma DoubleBoth(d0: nat, k: nat, d: nat, x: nat)
    requires x <= d < B128 / 2 && x == Pow2(k) && d == d0 * Pow2(k)
    ensures Shl(x, 1) % B128 == 2 * x == Pow2(k + 1)
    ensures Shl(d, 1) % B128 == 2 * d == d0 * Pow2(k + 1)
  {
    ShlStep(x, 1);
    ShlStep(x, 0);
    ShlStep(d, 1);
    ShlStep(d, 0);
    DivModUnique(2 * x, B128, 0, 2 * x);
    DivModUnique(2 * d, B128, 0, 2 * d);
    var p := Pow2(k);
    assert d0 * (2 * p) == 2 * (d0 * p);
  }

  lemma DividingDone(whole: nat, div: nat, j: int, n: nat, d: nat, answer: nat)
    requires Dividing(whole, div, j, n, d, 0, answer)
    ensures whole == answer * div + n && n < div
  {
  }

  lemma KeepsWord(u: UInt128)
    requires u.hi == 0
    ensures u.Keeps(u.lo)
  {
    DivModUnique(u.lo, B128, 0, u.lo);
  }

  lemma ZeroHigh(x: u64)
    ensures Value(0, x) == x
  {
  }

  lemma ShiftLeftAll(v: nat, n: nat)
    requires n >= 128
    ensures Shl(v, n) % B128 == 0
  {
    hide Pow2;
    Pow2Add(128, n - 128);
    Pow2Of128();
    var p := Pow2(n - 128);
    assert v * (B128 * p) == B128 * (v * p);
    ProductSign(v, p);
    ModMultiple(B128, v * p);
  }

  lemma ShiftLeftOneWord(hi: u64, lo: u64, n: nat)
    requires n >= 64
    ensures Shl(Value(lo, 0), n - 64) % B128 == Shl(Value(hi, lo), n) % B128
  {
    hide Pow2;
    ShlShl(Value(hi, lo), 64, n - 64);
    Pow2Of64();
    ModMul(Value(hi, lo) * B64, Pow2(n - 64), B128);
    DivModUnique(Value(hi, lo) * B64, B128, hi, lo * B64);
  }

  lemma ShiftRightAll(v: nat, n: nat)
    requires v < B128 && n >= 128
    ensures Shr(v, n) == 0
  {
    hide Pow2;
    Pow2Monotone(128, n);
    Pow2Of128();
    DivModUnique(v, Pow2(n), 0, v);
  }

  lemma ShiftRightOneWord(hi: u64, lo: u64, n: nat)
    requires n >= 64
    ensures Shr(Value(0, hi), n - 64) == Shr(Value(hi, lo), n)
  {
    hide Pow2;
    ShrShr(Value(hi, lo), 64, n - 64);
    Pow2Of64();
  }
}
